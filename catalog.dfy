/** Listing a channel's videos: sequential pagination of the uploads
    playlist, extraction of the video ids, detail requests in consecutive
    slices of at most 50 ids, and normalisation of each detail record into
    the catalog's `VideoData` with its defaults. */
module Catalog {
  import opened Wrappers
  import opened Thumbnails

  // ------------------------------------------------------------ records

  /** A playlist item; `videoId` is `snippet.resourceId.videoId`, "" when
      missing. */
  datatype PlaylistItem = PlaylistItem(videoId: string)

  /** One page of `playlistItems.list`; `nextPageToken` is "" when absent. */
  datatype PageResponse = PageResponse(items: seq<PlaylistItem>, nextPageToken: string)

  /** The arguments of one `playlistItems.list` call. */
  datatype PageRequest = PageRequest(playlistId: string, pageToken: Option<string>, maxResults: int)

  /** `snippet` of a video detail; `thumbnails` lists `snippet.thumbnails`
      (empty when absent). `None` stands for an absent or empty field. */
  datatype Snippet = Snippet(title: Option<string>, description: Option<string>, publishedAt: Option<string>,
                             categoryId: Option<string>, thumbnails: seq<RemoteThumbnail>)

  datatype Progress = Progress(partsTotal: Option<int>, partsProcessed: Option<int>, timeLeftMs: Option<int>)

  datatype Counts = Counts(viewCount: Option<string>, likeCount: Option<string>, dislikeCount: Option<string>,
                           commentCount: Option<string>)

  /** One item of `videos.list`; a missing `status`, `contentDetails`,
      `statistics` or `processingDetails` object shows as absent fields. */
  datatype VideoDetail = VideoDetail(
    id: string,
    snippet: Option<Snippet>,
    privacyStatus: Option<string>,
    uploadStatus: Option<string>,
    duration: Option<string>,
    processingStatus: Option<string>,
    processingProgress: Option<Progress>,
    statistics: Counts)

  datatype ProgressData = ProgressData(partsTotal: Option<int>, partsProcessed: Option<int>, timeLeftMs: Option<int>)

  datatype Statistics = Statistics(viewCount: string, likeCount: string, dislikeCount: string, commentCount: string)

  /** The catalog's normalised record. The four editable fields may be
      undefined (`None`) after an update request that omitted them. */
  datatype VideoData = VideoData(
    id: string,
    title: Option<string>,
    description: Option<string>,
    thumbnailUrl: string,
    thumbnails: map<string, ThumbnailData>,
    publishedAt: string,
    privacyStatus: Option<string>,
    categoryId: Option<string>,
    duration: Option<string>,
    uploadStatus: Option<string>,
    processingStatus: Option<string>,
    processingProgress: Option<ProgressData>,
    statistics: Statistics)

  /** The most items one page or one detail request asks for. */
  const PageSize: int := 50

  function Min(a: int, b: int): int { if a <= b then a else b }

  // ------------------------------------------------------------ pagination

  /** What the pagination loop produced: the items, the requests it sent,
      and whether a request failed (which abandons the whole listing). */
  datatype PageRun = PageRun(items: seq<PlaylistItem>, requests: seq<PageRequest>, failed: bool)

  /** The loop from state (`items`, `token`) with the responses `pages[i..]`
      still to come; a request beyond the given responses fails. */
  function PaginateFrom(playlistId: string, maxResults: int, items: seq<PlaylistItem>, token: Option<string>,
                        pages: seq<PageResponse>, i: nat): PageRun
    requires i <= |pages|
    decreases |pages| - i
  {
    if |items| >= maxResults then PageRun(items, [], false)
    else
      var req := PageRequest(playlistId, token, Min(PageSize, maxResults - |items|));
      if i == |pages| then PageRun(items, [req], true)
      else
        var items' := items + pages[i].items;
        if pages[i].nextPageToken == "" then PageRun(items', [req], false)
        else
          var rest := PaginateFrom(playlistId, maxResults, items', Some(pages[i].nextPageToken), pages, i + 1);
          PageRun(rest.items, [req] + rest.requests, rest.failed)
  }

  function Paginate(playlistId: string, maxResults: int, pages: seq<PageResponse>): PageRun
  {
    PaginateFrom(playlistId, maxResults, [], None, pages, 0)
  }

  /** The items of the first `k` pages, concatenated. */
  function ItemsOf(pages: seq<PageResponse>, k: nat): seq<PlaylistItem>
    requires k <= |pages|
  {
    if k == 0 then [] else ItemsOf(pages, k - 1) + pages[k - 1].items
  }

  /** The page token sent with request `k`: none first, then the previous
      page's `nextPageToken`. */
  function TokenFor(pages: seq<PageResponse>, k: nat): Option<string>
    requires k <= |pages|
  {
    if k == 0 then None else Some(pages[k - 1].nextPageToken)
  }

  /** Request `k` asks for min(50, maxResults - collected) with the right
      token, and is sent only while fewer than `maxResults` items have been
      collected and the previous page gave a token. */
  predicate RequestWellFormed(playlistId: string, maxResults: int, pages: seq<PageResponse>, k: nat, req: PageRequest)
  {
    && k <= |pages|
    && |ItemsOf(pages, k)| < maxResults
    && req == PageRequest(playlistId, TokenFor(pages, k), Min(PageSize, maxResults - |ItemsOf(pages, k)|))
    && (k > 0 ==> pages[k - 1].nextPageToken != "")
  }

  /** Every request of a run that started at request `first` is well formed. */
  predicate RequestsWellFormed(playlistId: string, maxResults: int, pages: seq<PageResponse>, requests: seq<PageRequest>, first: nat)
  {
    forall j :: 0 <= j < |requests| ==> RequestWellFormed(playlistId, maxResults, pages, first + j, requests[j])
  }

  /** The whole pagination: every request is well formed; a run that did not
      fail holds exactly the items of the pages it requested and stopped
      because `maxResults` was reached or no token came back; a failing run
      is the one that asked for one page more than the API gave. */
  lemma PaginateSpec(playlistId: string, maxResults: int, pages: seq<PageResponse>)
    ensures var r := Paginate(playlistId, maxResults, pages);
      && RequestsWellFormed(playlistId, maxResults, pages, r.requests, 0)
      && |r.requests| <= |pages| + 1
      && (r.failed ==> |r.requests| == |pages| + 1)
      && (!r.failed ==>
            && |r.requests| <= |pages|
            && r.items == ItemsOf(pages, |r.requests|)
            && (|r.items| >= maxResults || (|r.requests| > 0 && pages[|r.requests| - 1].nextPageToken == "")))
  {
    PaginateFromRequests(playlistId, maxResults, pages, 0);
    PaginateFromOutcome(playlistId, maxResults, pages, 0);
  }

  /** Resumed at page `i`, the requests sent are requests `i`, `i + 1`, ...
      and each is well formed. */
  lemma {:induction false} PaginateFromRequests(playlistId: string, maxResults: int, pages: seq<PageResponse>, i: nat)
    requires i <= |pages|
    requires i > 0 ==> pages[i - 1].nextPageToken != ""
    ensures var r := PaginateFrom(playlistId, maxResults, ItemsOf(pages, i), TokenFor(pages, i), pages, i);
      RequestsWellFormed(playlistId, maxResults, pages, r.requests, i) && i + |r.requests| <= |pages| + 1
    decreases |pages| - i
  {
    var items := ItemsOf(pages, i);
    var r := PaginateFrom(playlistId, maxResults, items, TokenFor(pages, i), pages, i);
    if |items| < maxResults && i < |pages| && pages[i].nextPageToken != "" {
      PaginateFromRequests(playlistId, maxResults, pages, i + 1);
      var rest := PaginateFrom(playlistId, maxResults, ItemsOf(pages, i + 1), TokenFor(pages, i + 1), pages, i + 1);
      assert r.requests == [PageRequest(playlistId, TokenFor(pages, i), Min(PageSize, maxResults - |items|))] + rest.requests;
      forall j | 0 <= j < |r.requests|
        ensures RequestWellFormed(playlistId, maxResults, pages, i + j, r.requests[j])
      {
        if j > 0 {
          assert r.requests[j] == rest.requests[j - 1];
          assert RequestWellFormed(playlistId, maxResults, pages, (i + 1) + (j - 1), rest.requests[j - 1]);
        }
      }
    }
  }

  /** Resumed at page `i`, a run fails exactly when it asks past the last
      page, and otherwise holds the items of the pages it requested. */
  lemma {:induction false} PaginateFromOutcome(playlistId: string, maxResults: int, pages: seq<PageResponse>, i: nat)
    requires i <= |pages|
    ensures var r := PaginateFrom(playlistId, maxResults, ItemsOf(pages, i), TokenFor(pages, i), pages, i);
      && (r.failed ==> i + |r.requests| == |pages| + 1)
      && (!r.failed ==>
            && i + |r.requests| <= |pages|
            && r.items == ItemsOf(pages, i + |r.requests|)
            && (|r.items| >= maxResults || (i + |r.requests| > 0 && pages[i + |r.requests| - 1].nextPageToken == "")))
    decreases |pages| - i
  {
    if |ItemsOf(pages, i)| < maxResults && i < |pages| && pages[i].nextPageToken != "" {
      PaginateFromOutcome(playlistId, maxResults, pages, i + 1);
    }
  }

  /** When every page holds no more items than its request asked for, the
      listing never holds more than `maxResults` items. */
  lemma {:induction false} PaginateBounded(playlistId: string, maxResults: int, pages: seq<PageResponse>)
    requires maxResults >= 0
    requires forall k :: 0 <= k < |pages| ==> |pages[k].items| <= Min(PageSize, maxResults - |ItemsOf(pages, k)|)
    ensures |Paginate(playlistId, maxResults, pages).items| <= maxResults
  {
    PaginateSpec(playlistId, maxResults, pages);
    var r := Paginate(playlistId, maxResults, pages);
    if !r.failed && |r.requests| > 0 {
      var n := |r.requests|;
      assert RequestWellFormed(playlistId, maxResults, pages, 0 + (n - 1), r.requests[n - 1]);
      assert r.items == ItemsOf(pages, n - 1) + pages[n - 1].items;
    } else if r.failed {
      PaginateFailedItems(playlistId, maxResults, pages, 0);
      if |pages| > 0 {
        assert RequestWellFormed(playlistId, maxResults, pages, 0 + (|pages| - 1), r.requests[|pages| - 1]);
      }
    }
  }

  lemma {:induction false} PaginateFailedItems(playlistId: string, maxResults: int, pages: seq<PageResponse>, i: nat)
    requires i <= |pages|
    ensures var r := PaginateFrom(playlistId, maxResults, ItemsOf(pages, i), TokenFor(pages, i), pages, i);
      r.failed ==> r.items == ItemsOf(pages, |pages|) && |ItemsOf(pages, |pages|)| < maxResults
    decreases |pages| - i
  {
    if |ItemsOf(pages, i)| < maxResults && i < |pages| && pages[i].nextPageToken != "" {
      PaginateFailedItems(playlistId, maxResults, pages, i + 1);
    }
  }

  /** Four full pages of 50, the first three with a next-page token: with
      `maxResults` 200 exactly four requests are made and 200 items kept. */
  lemma FourPagesOfFifty(playlistId: string, pages: seq<PageResponse>)
    requires |pages| == 4
    requires forall k :: 0 <= k < 4 ==> |pages[k].items| == 50
    requires forall k :: 0 <= k < 3 ==> pages[k].nextPageToken != ""
    requires pages[3].nextPageToken == ""
    ensures var r := Paginate(playlistId, 200, pages);
      !r.failed && |r.requests| == 4 && |r.items| == 200
  {
    assert |ItemsOf(pages, 1)| == 50;
    assert |ItemsOf(pages, 2)| == 100;
    assert |ItemsOf(pages, 3)| == 150;
    assert |ItemsOf(pages, 4)| == 200;
    PaginateSpec(playlistId, 200, pages);
    var r := Paginate(playlistId, 200, pages);
    assert |r.requests| == 5 ==> RequestWellFormed(playlistId, 200, pages, 0 + 4, r.requests[4]);
  }

  /** The pagination loop of `getChannelVideos`. */
  method FetchPlaylistItems(playlistId: string, maxResults: int, pages: seq<PageResponse>)
    returns (items: seq<PlaylistItem>, requests: seq<PageRequest>, failed: bool)
    ensures PageRun(items, requests, failed) == Paginate(playlistId, maxResults, pages)
  {
    items, requests, failed := [], [], false;
    var token: Option<string> := None;
    var i := 0;
    while |items| < maxResults
      invariant 0 <= i <= |pages|
      invariant var rest := PaginateFrom(playlistId, maxResults, items, token, pages, i);
        Paginate(playlistId, maxResults, pages) == PageRun(rest.items, requests + rest.requests, rest.failed)
      decreases |pages| - i
    {
      var req := PageRequest(playlistId, token, Min(PageSize, maxResults - |items|));
      requests := requests + [req];
      if i == |pages| {
        failed := true;
        return;
      }
      var page := pages[i];
      items := items + page.items;
      i := i + 1;
      if page.nextPageToken == "" {
        return;
      }
      token := Some(page.nextPageToken);
    }
  }

  // ------------------------------------------------------------ video ids

  /** The ids of the items that have one, in playlist order. */
  function VideoIds(items: seq<PlaylistItem>): (ids: seq<string>)
    ensures forall id :: id in ids <==> id != "" && exists it :: it in items && it.videoId == id
  {
    if |items| == 0 then []
    else
      var last := items[|items| - 1];
      var init := VideoIds(items[..|items| - 1]);
      assert items == items[..|items| - 1] + [last];
      if last.videoId == "" then init else init + [last.videoId]
  }

  /** Consecutive slices of at most 50 ids: `ids[0..50]`, `ids[50..100]`, ... */
  function Chunks(ids: seq<string>): seq<seq<string>>
    decreases |ids|
  {
    if |ids| == 0 then []
    else
      var n := Min(PageSize, |ids|);
      [ids[..n]] + Chunks(ids[n..])
  }

  function Concat(chunks: seq<seq<string>>): seq<string>
  {
    if |chunks| == 0 then [] else chunks[0] + Concat(chunks[1..])
  }

  /** The slices are non-empty, hold at most 50 ids and cover the id list in
      order; there are ceil(|ids| / 50) of them. */
  lemma {:induction false} ChunksSpec(ids: seq<string>)
    ensures Concat(Chunks(ids)) == ids
    ensures forall c :: c in Chunks(ids) ==> 0 < |c| <= PageSize
    ensures |Chunks(ids)| == (|ids| + PageSize - 1) / PageSize
    decreases |ids|
  {
    if |ids| > 0 {
      var n := Min(PageSize, |ids|);
      ChunksSpec(ids[n..]);
      assert ids == ids[..n] + ids[n..];
    }
  }

  /** Slice `k` is `ids[50k .. 50k + 50]`, clipped to the list. */
  lemma {:induction false} ChunkAt(ids: seq<string>, k: nat)
    requires k < |Chunks(ids)|
    ensures k * PageSize < |ids|
    ensures Chunks(ids)[k] == ids[k * PageSize..Min(k * PageSize + PageSize, |ids|)]
    decreases |ids|
  {
    var n := Min(PageSize, |ids|);
    if k > 0 {
      ChunkAt(ids[n..], k - 1);
      assert n == PageSize;
    }
  }

  // -------------------------------------------------------- normalisation

  function OrDefault(v: Option<string>, d: string): string
  {
    if v.Some? && v.value != "" then v.value else d
  }

  /** `x || undefined` */
  function Truthy(v: Option<string>): Option<string>
  {
    if v.Some? && v.value != "" then v else None
  }

  function NonZero(v: Option<int>): Option<int>
  {
    if v.Some? && v.value != 0 then v else None
  }

  /** The `VideoData` built from a detail with a snippet and its local
      thumbnails. */
  function Normalize(d: VideoDetail, local: map<string, ThumbnailData>): (v: VideoData)
    requires d.snippet.Some?
    ensures v.id == d.id && v.thumbnails == local
    ensures v.thumbnailUrl == RepresentativeUrl(local)
    ensures v.title == Some(d.snippet.value.title.GetOr("")) && v.description == Some(d.snippet.value.description.GetOr(""))
    ensures v.publishedAt == d.snippet.value.publishedAt.GetOr("")
    ensures v.categoryId == d.snippet.value.categoryId
    ensures v.privacyStatus == Some(if Given(d.privacyStatus) then d.privacyStatus.value else "unknown")
    ensures v.statistics.viewCount == (if Given(d.statistics.viewCount) then d.statistics.viewCount.value else "0")
    ensures v.statistics.likeCount == (if Given(d.statistics.likeCount) then d.statistics.likeCount.value else "0")
    ensures v.statistics.dislikeCount == (if Given(d.statistics.dislikeCount) then d.statistics.dislikeCount.value else "0")
    ensures v.statistics.commentCount == (if Given(d.statistics.commentCount) then d.statistics.commentCount.value else "0")
    ensures v.duration == (if Given(d.duration) then d.duration else None)
    ensures v.uploadStatus == (if Given(d.uploadStatus) then d.uploadStatus else None)
    ensures v.processingStatus == (if Given(d.processingStatus) then d.processingStatus else None)
    ensures v.processingProgress.Some? <==> d.processingProgress.Some?
  {
    var s := d.snippet.value;
    VideoData(
      d.id,
      Some(OrDefault(s.title, "")),
      Some(OrDefault(s.description, "")),
      RepresentativeUrl(local),
      local,
      OrDefault(s.publishedAt, ""),
      Some(OrDefault(d.privacyStatus, "unknown")),
      s.categoryId,
      Truthy(d.duration),
      Truthy(d.uploadStatus),
      Truthy(d.processingStatus),
      match d.processingProgress
        case None => None
        case Some(p) => Some(ProgressData(NonZero(p.partsTotal), NonZero(p.partsProcessed), NonZero(p.timeLeftMs))),
      Statistics(
        OrDefault(d.statistics.viewCount, "0"),
        OrDefault(d.statistics.likeCount, "0"),
        OrDefault(d.statistics.dislikeCount, "0"),
        OrDefault(d.statistics.commentCount, "0")))
  }

  // ------------------------------------------------ details into catalog

  /** The catalog being built and the thumbnail registry. */
  datatype Acc = Acc(videos: seq<VideoData>, registry: map<string, string>)

  /** One detail item: skipped when its id is not in the playlist or it has
      no snippet (the read of `snippet.thumbnails` throws and is caught);
      otherwise its thumbnails are registered and its record appended. */
  function AddDetail(acc: Acc, d: VideoDetail, playlistIds: set<string>): Acc
  {
    if d.id !in playlistIds || d.snippet.None? then acc
    else
      var entries := d.snippet.value.thumbnails;
      Acc(acc.videos + [Normalize(d, LocalThumbnails(d.id, entries))], Register(acc.registry, d.id, entries))
  }

  function AddDetails(acc: Acc, ds: seq<VideoDetail>, playlistIds: set<string>): Acc
  {
    if |ds| == 0 then acc else AddDetail(AddDetails(acc, ds[..|ds| - 1], playlistIds), ds[|ds| - 1], playlistIds)
  }

  /** One slice: a failed request (`None`) is skipped. */
  function AddChunk(acc: Acc, chunk: seq<string>, playlistIds: set<string>,
                    fetch: seq<string> -> Option<seq<VideoDetail>>): Acc
  {
    match fetch(chunk)
    case None => acc
    case Some(ds) => AddDetails(acc, ds, playlistIds)
  }

  function AddChunks(acc: Acc, chunks: seq<seq<string>>, playlistIds: set<string>,
                     fetch: seq<string> -> Option<seq<VideoDetail>>): Acc
  {
    if |chunks| == 0 then acc
    else AddChunk(AddChunks(acc, chunks[..|chunks| - 1], playlistIds, fetch), chunks[|chunks| - 1], playlistIds, fetch)
  }

  /** Processing slices one after another is processing their concatenation. */
  lemma {:induction false} AddChunksAppend(acc: Acc, a: seq<seq<string>>, b: seq<seq<string>>, ids: set<string>,
                                           fetch: seq<string> -> Option<seq<VideoDetail>>)
    ensures AddChunks(acc, a + b, ids, fetch) == AddChunks(AddChunks(acc, a, ids, fetch), b, ids, fetch)
    decreases |b|
  {
    if |b| > 0 {
      var n := |b| - 1;
      AddChunksAppend(acc, a, b[..n], ids, fetch);
      assert (a + b)[..|a + b| - 1] == a + b[..n];
      assert (a + b)[|a + b| - 1] == b[n];
      assert AddChunks(acc, a + b, ids, fetch) == AddChunk(AddChunks(acc, a + b[..n], ids, fetch), b[n], ids, fetch);
    } else {
      assert a + b == a;
    }
  }

  /** A failed slice contributes nothing and does not stop later slices:
      the result is that of the same slices without it. */
  lemma FailedChunkSkipped(acc: Acc, a: seq<seq<string>>, c: seq<string>, b: seq<seq<string>>, ids: set<string>,
                           fetch: seq<string> -> Option<seq<VideoDetail>>)
    requires fetch(c).None?
    ensures AddChunks(acc, a + [c] + b, ids, fetch) == AddChunks(acc, a + b, ids, fetch)
  {
    AddChunksAppend(acc, a + [c], b, ids, fetch);
    AddChunksAppend(acc, a, b, ids, fetch);
    assert (a + [c])[..|a + [c]| - 1] == a;
  }

  /** Whether the detail loop keeps an item: its id is one of the
      playlist's and it has a snippet. */
  predicate Keeps(d: VideoDetail, playlistIds: set<string>)
  {
    d.id in playlistIds && d.snippet.Some?
  }

  /** The kept items of a list of details, in their order. */
  function Kept(ds: seq<VideoDetail>, playlistIds: set<string>): (r: seq<VideoDetail>)
    ensures forall k :: 0 <= k < |r| ==> Keeps(r[k], playlistIds)
    ensures |r| <= |ds|
  {
    if |ds| == 0 then []
    else (if Keeps(ds[0], playlistIds) then [ds[0]] else []) + Kept(ds[1..], playlistIds)
  }

  /** An item is kept exactly when it is in the list and the loop keeps it. */
  lemma {:induction false} KeptMembers(ds: seq<VideoDetail>, playlistIds: set<string>)
    ensures forall d :: d in Kept(ds, playlistIds) <==> d in ds && Keeps(d, playlistIds)
    decreases |ds|
  {
    if |ds| > 0 {
      KeptMembers(ds[1..], playlistIds);
      assert ds == [ds[0]] + ds[1..];
    }
  }

  lemma {:induction false} KeptAppend(a: seq<VideoDetail>, b: seq<VideoDetail>, playlistIds: set<string>)
    ensures Kept(a + b, playlistIds) == Kept(a, playlistIds) + Kept(b, playlistIds)
    decreases |a|
  {
    if |a| == 0 {
      assert a + b == b;
    } else {
      assert (a + b)[0] == a[0];
      assert (a + b)[1..] == a[1..] + b;
      KeptAppend(a[1..], b, playlistIds);
    }
  }

  /** The record built for a detail item with a snippet. */
  function DetailRecord(d: VideoDetail): VideoData
    requires d.snippet.Some?
  {
    Normalize(d, LocalThumbnails(d.id, d.snippet.value.thumbnails))
  }

  /** The records of a list of items that all have a snippet, in order. */
  function Records(ds: seq<VideoDetail>): (r: seq<VideoData>)
    requires forall k :: 0 <= k < |ds| ==> ds[k].snippet.Some?
    ensures |r| == |ds|
  {
    if |ds| == 0 then [] else [DetailRecord(ds[0])] + Records(ds[1..])
  }

  /** Record `k` is the record of item `k`. */
  lemma {:induction false} RecordsAt(ds: seq<VideoDetail>, k: nat)
    requires forall j :: 0 <= j < |ds| ==> ds[j].snippet.Some?
    requires k < |ds|
    ensures Records(ds)[k] == DetailRecord(ds[k])
    decreases k
  {
    if k > 0 {
      RecordsAt(ds[1..], k - 1);
    }
  }

  /** The records of the items that are kept from `ds`. */
  function KeptRecords(ds: seq<VideoDetail>, playlistIds: set<string>): seq<VideoData>
  {
    Records(Kept(ds, playlistIds))
  }

  lemma KeptRecordsAppend(a: seq<VideoDetail>, b: seq<VideoDetail>, playlistIds: set<string>)
    ensures KeptRecords(a + b, playlistIds) == KeptRecords(a, playlistIds) + KeptRecords(b, playlistIds)
  {
    KeptAppend(a, b, playlistIds);
    RecordsAppend(Kept(a, playlistIds), Kept(b, playlistIds));
  }

  lemma {:induction false} RecordsAppend(a: seq<VideoDetail>, b: seq<VideoDetail>)
    requires forall k :: 0 <= k < |a| ==> a[k].snippet.Some?
    requires forall k :: 0 <= k < |b| ==> b[k].snippet.Some?
    ensures Records(a + b) == Records(a) + Records(b)
    decreases |a|
  {
    if |a| == 0 {
      assert a + b == b;
    } else {
      var rest := a[1..];
      assert (a + b)[0] == a[0];
      assert (a + b)[1..] == rest + b;
      assert forall k :: 0 <= k < |rest| ==> rest[k].snippet.Some? by {
        forall k | 0 <= k < |rest| ensures rest[k].snippet.Some? {
          assert rest[k] == a[k + 1];
        }
      }
      RecordsAppend(rest, b);
      calc {
        Records(a + b);
        [DetailRecord(a[0])] + Records(rest + b);
        [DetailRecord(a[0])] + (Records(rest) + Records(b));
        ([DetailRecord(a[0])] + Records(rest)) + Records(b);
        Records(a) + Records(b);
      }
    }
  }

  /** One detail item appends its record exactly when it is kept. */
  lemma AddDetailVideos(acc: Acc, d: VideoDetail, playlistIds: set<string>)
    ensures AddDetail(acc, d, playlistIds).videos == acc.videos + KeptRecords([d], playlistIds)
    ensures acc.registry.Keys <= AddDetail(acc, d, playlistIds).registry.Keys
  {
    assert [d][1..] == [];
    if Keeps(d, playlistIds) {
      RegisterGrows(acc.registry, d.id, d.snippet.value.thumbnails);
      assert KeptRecords([d], playlistIds) == [DetailRecord(d)];
    } else {
      assert KeptRecords([d], playlistIds) == [];
    }
  }

  /** The detail loop appends exactly the records of the kept items, in
      order, to what was there; the registry only grows. */
  lemma {:induction false} AddDetailsSpec(acc: Acc, ds: seq<VideoDetail>, ids: set<string>)
    ensures var r := AddDetails(acc, ds, ids);
      && r.videos == acc.videos + KeptRecords(ds, ids)
      && acc.registry.Keys <= r.registry.Keys
  {
    if |ds| == 0 {
      assert acc.videos + [] == acc.videos;
    } else {
      var n := |ds| - 1;
      var d := ds[n];
      AddDetailsSpec(acc, ds[..n], ids);
      var mid := AddDetails(acc, ds[..n], ids);
      AddDetailVideos(mid, d, ids);
      assert KeptRecords(ds, ids) == KeptRecords(ds[..n], ids) + KeptRecords([d], ids) by {
        assert ds == ds[..n] + [d];
        KeptRecordsAppend(ds[..n], [d], ids);
      }
      calc {
        AddDetails(acc, ds, ids).videos;
        AddDetail(mid, d, ids).videos;
        mid.videos + KeptRecords([d], ids);
        (acc.videos + KeptRecords(ds[..n], ids)) + KeptRecords([d], ids);
        acc.videos + (KeptRecords(ds[..n], ids) + KeptRecords([d], ids));
        acc.videos + KeptRecords(ds, ids);
      }
    }
  }

  lemma {:induction false} RegisterGrows(reg: map<string, string>, videoId: string, entries: seq<RemoteThumbnail>)
    ensures reg.Keys <= Register(reg, videoId, entries).Keys
  {
    if |entries| > 0 {
      RegisterGrows(reg, videoId, entries[..|entries| - 1]);
    }
  }

  /** The detail items of the slices whose request answered, in slice
      order. */
  function Answered(chunks: seq<seq<string>>, fetch: seq<string> -> Option<seq<VideoDetail>>): seq<VideoDetail>
  {
    if |chunks| == 0 then []
    else
      var n := |chunks| - 1;
      Answered(chunks[..n], fetch) + SliceDetails(chunks[n], fetch)
  }

  /** The detail items one slice's request answered; none when it failed. */
  function SliceDetails(chunk: seq<string>, fetch: seq<string> -> Option<seq<VideoDetail>>): seq<VideoDetail>
  {
    match fetch(chunk)
    case None => []
    case Some(ds) => ds
  }

  /** One slice appends the records of its kept items. */
  lemma AddChunkVideos(acc: Acc, chunk: seq<string>, ids: set<string>, fetch: seq<string> -> Option<seq<VideoDetail>>)
    ensures AddChunk(acc, chunk, ids, fetch).videos == acc.videos + KeptRecords(SliceDetails(chunk, fetch), ids)
    ensures acc.registry.Keys <= AddChunk(acc, chunk, ids, fetch).registry.Keys
  {
    match fetch(chunk)
    case None =>
      assert KeptRecords([], ids) == [];
      assert acc.videos + [] == acc.videos;
    case Some(ds) =>
      AddDetailsSpec(acc, ds, ids);
  }

  /** Over all slices, exactly the records of the kept items of the slices
      that answered are appended, in order; the registry only grows. */
  lemma {:induction false} AddChunksSpec(acc: Acc, chunks: seq<seq<string>>, ids: set<string>,
                                         fetch: seq<string> -> Option<seq<VideoDetail>>)
    ensures var r := AddChunks(acc, chunks, ids, fetch);
      && r.videos == acc.videos + KeptRecords(Answered(chunks, fetch), ids)
      && acc.registry.Keys <= r.registry.Keys
  {
    if |chunks| == 0 {
      assert KeptRecords([], ids) == [];
      assert acc.videos + [] == acc.videos;
    } else {
      var n := |chunks| - 1;
      var prev := Answered(chunks[..n], fetch);
      var here := SliceDetails(chunks[n], fetch);
      var mid := AddChunks(acc, chunks[..n], ids, fetch);
      assert AddChunks(acc, chunks, ids, fetch) == AddChunk(mid, chunks[n], ids, fetch);
      assert Answered(chunks, fetch) == prev + here;
      AddChunksSpec(acc, chunks[..n], ids, fetch);
      AddChunkVideos(mid, chunks[n], ids, fetch);
      assert AddChunk(mid, chunks[n], ids, fetch).videos == acc.videos + KeptRecords(prev + here, ids) by {
        KeptRecordsAppend(prev, here, ids);
        calc {
          AddChunk(mid, chunks[n], ids, fetch).videos;
          mid.videos + KeptRecords(here, ids);
          (acc.videos + KeptRecords(prev, ids)) + KeptRecords(here, ids);
          acc.videos + (KeptRecords(prev, ids) + KeptRecords(here, ids));
          acc.videos + KeptRecords(prev + here, ids);
        }
      }
    }
  }

  /** Every record of a listing belongs to a video of the playlist. */
  lemma ListingComesFromPlaylist(items: seq<PlaylistItem>, reg: map<string, string>,
                                 fetch: seq<string> -> Option<seq<VideoDetail>>)
    ensures var ids := VideoIds(items);
      var r := AddChunks(Acc([], reg), Chunks(ids), (set id | id in ids), fetch);
      forall v :: v in r.videos ==> exists it :: it in items && it.videoId == v.id && v.id != ""
  {
    var ids := VideoIds(items);
    var idSet := (set id | id in ids);
    AddChunksSpec(Acc([], reg), Chunks(ids), idSet, fetch);
    var kept := Kept(Answered(Chunks(ids), fetch), idSet);
    forall v | v in Records(kept)
      ensures exists it :: it in items && it.videoId == v.id && v.id != ""
    {
      var k :| 0 <= k < |kept| && Records(kept)[k] == v;
      RecordsAt(kept, k);
    }
  }

  /** Every kept item of every slice that answered is in the listing. */
  lemma ListingIsComplete(items: seq<PlaylistItem>, reg: map<string, string>,
                          fetch: seq<string> -> Option<seq<VideoDetail>>)
    ensures var ids := VideoIds(items);
      var idSet := (set id | id in ids);
      var r := AddChunks(Acc([], reg), Chunks(ids), idSet, fetch);
      forall d :: d in Answered(Chunks(ids), fetch) && Keeps(d, idSet) ==> DetailRecord(d) in r.videos
  {
    var ids := VideoIds(items);
    var idSet := (set id | id in ids);
    AddChunksSpec(Acc([], reg), Chunks(ids), idSet, fetch);
    var kept := Kept(Answered(Chunks(ids), fetch), idSet);
    KeptMembers(Answered(Chunks(ids), fetch), idSet);
    forall d | d in Answered(Chunks(ids), fetch) && Keeps(d, idSet)
      ensures DetailRecord(d) in Records(kept)
    {
      var k :| 0 <= k < |kept| && kept[k] == d;
      RecordsAt(kept, k);
    }
  }

  // ------------------------------------------------ the whole listing

  /** `if (!channelId)`: an empty id means the user's own channel. */
  function ChannelArg(channelId: Option<string>): Option<string>
  {
    if channelId.Some? && channelId.value != "" then channelId else None
  }

  /** `getChannelVideos` as a function: `None` when it answers `[]` without
      touching the catalog (no authenticated client, no channel, or a page
      request that failed); otherwise the new catalog and registry.
      `lookupUploads` is the channel lookup: the uploads playlist of the
      given channel, or of the user's own channel for `None`. */
  function ListChannelVideos(authorized: bool, registry: map<string, string>, channelId: Option<string>, maxResults: int,
                             lookupUploads: Option<string> -> Option<string>, pages: seq<PageResponse>,
                             fetch: seq<string> -> Option<seq<VideoDetail>>): (r: Option<Acc>)
    ensures !authorized ==> r.None?
    ensures r.Some? ==> registry.Keys <= r.value.registry.Keys
    ensures r.Some? ==> lookupUploads(ChannelArg(channelId)).Some? && forall v :: v in r.value.videos ==>
      (v.id != "" && exists it :: it in Paginate(lookupUploads(ChannelArg(channelId)).value, maxResults, pages).items && it.videoId == v.id)
    ensures r.Some? ==>
      var ids := VideoIds(Paginate(lookupUploads(ChannelArg(channelId)).value, maxResults, pages).items);
      r.value.videos == KeptRecords(Answered(Chunks(ids), fetch), set id | id in ids)
    ensures r.None? <==> !authorized || lookupUploads(ChannelArg(channelId)).None?
                         || Paginate(lookupUploads(ChannelArg(channelId)).value, maxResults, pages).failed
  {
    if !authorized then None
    else match lookupUploads(ChannelArg(channelId))
      case None => None
      case Some(playlistId) =>
        var run := Paginate(playlistId, maxResults, pages);
        if run.failed then None
        else
          var ids := VideoIds(run.items);
          ListingComesFromPlaylist(run.items, registry, fetch);
          AddChunksSpec(Acc([], registry), Chunks(ids), (set id | id in ids), fetch);
          Some(AddChunks(Acc([], registry), Chunks(ids), (set id | id in ids), fetch))
  }
}
