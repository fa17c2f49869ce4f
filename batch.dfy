/** The batch update of video metadata (`youtube:update-videos-batch`) as a
    function of the catalog and the requests: each request is validated,
    sent, and on success applied to the catalog record with its id; the
    answer partitions the requests into successful and failed ones. */
module Batch {
  import opened Wrappers
  import opened Catalog
  import opened VideoUpdate

  /** One element of `updates`; `None` is a missing property. */
  datatype UpdateItem = UpdateItem(videoId: Option<string>, title: Option<string>, description: Option<string>,
                                   privacyStatus: Option<string>, categoryId: Option<string>)

  datatype SuccessEntry = SuccessEntry(videoId: string, title: string)
  datatype FailureEntry = FailureEntry(videoId: string, error: string)
  datatype Summary = Summary(total: nat, successful: nat, failed: nat)
  datatype BatchResponse = BatchResponse(success: bool, successful: seq<SuccessEntry>, failed: seq<FailureEntry>,
                                         summary: Summary)

  const MissingFieldsError: string := "Missing required fields"
  const ApiFailedError: string := "YouTube API update failed"
  const UnknownId: string := "unknown"

  /** `video_id` is truthy and `title` and `description` are defined (an
      empty title or description is accepted). */
  predicate ValidItem(u: UpdateItem)
  {
    Given(u.videoId) && u.title.Some? && u.description.Some?
  }

  // ------------------------------------------------------ catalog edits

  /** `videos.find(v => v.id === id)`: the index of the first record with
      that id. */
  function FindIndex(videos: seq<VideoData>, id: string): (k: Option<nat>)
    ensures k.Some? ==> k.value < |videos| && videos[k.value].id == id
    ensures k.Some? ==> forall j :: 0 <= j < k.value ==> videos[j].id != id
    ensures k.None? ==> forall j :: 0 <= j < |videos| ==> videos[j].id != id
  {
    if |videos| == 0 then None
    else if videos[0].id == id then Some(0)
    else match FindIndex(videos[1..], id)
      case None => None
      case Some(k) => Some(k + 1)
  }

  /** The found record gets the four request values, even undefined ones;
      with no record of that id the catalog is unchanged. */
  function ApplyEdit(videos: seq<VideoData>, id: string, title: Option<string>, description: Option<string>,
                     privacyStatus: Option<string>, categoryId: Option<string>): (r: seq<VideoData>)
    ensures |r| == |videos|
    ensures forall j :: 0 <= j < |videos| ==> r[j].id == videos[j].id
    ensures FindIndex(videos, id).None? ==> r == videos
    ensures FindIndex(videos, id).Some? ==>
      var k := FindIndex(videos, id).value;
      && r[k] == videos[k].(title := title, description := description, privacyStatus := privacyStatus,
                            categoryId := categoryId)
      && forall j :: 0 <= j < |videos| && j != k ==> r[j] == videos[j]
  {
    match FindIndex(videos, id)
    case None => videos
    case Some(k) =>
      videos[k := videos[k].(title := title, description := description, privacyStatus := privacyStatus,
                             categoryId := categoryId)]
  }

  // ------------------------------------------------------ one request

  /** What one request comes to: its entry in `successful` or `failed`. */
  datatype ItemResult = Succeeded(ok: SuccessEntry) | Failed(err: FailureEntry)

  /** How one request is classified: invalid requests fail with "Missing
      required fields" (under `'unknown'` when the id is missing); valid ones
      succeed exactly when `updateVideo` reports success. */
  function Classify(u: UpdateItem, authorized: bool, accept: UpdateVideoRequest -> bool): (r: ItemResult)
    ensures !ValidItem(u) ==>
      r == Failed(FailureEntry(if Given(u.videoId) then u.videoId.value else UnknownId, MissingFieldsError))
    ensures r.Succeeded? <==>
      ValidItem(u) && UpdateVideo(authorized, u.videoId.value, u.title, u.description, u.privacyStatus,
                                  u.categoryId, accept).ok
    ensures r.Succeeded? ==> r.ok == SuccessEntry(u.videoId.value, u.title.value)
    ensures ValidItem(u) && r.Failed? ==> r.err == FailureEntry(u.videoId.value, ApiFailedError)
  {
    if !ValidItem(u) then
      Failed(FailureEntry(if Given(u.videoId) then u.videoId.value else UnknownId, MissingFieldsError))
    else if UpdateVideo(authorized, u.videoId.value, u.title, u.description, u.privacyStatus, u.categoryId, accept).ok then
      Succeeded(SuccessEntry(u.videoId.value, u.title.value))
    else
      Failed(FailureEntry(u.videoId.value, ApiFailedError))
  }

  // ------------------------------------------------------ the loop

  /** The loop's state: the catalog, both result lists, and the requests
      sent to the API so far. */
  datatype BatchState = BatchState(videos: seq<VideoData>, successful: seq<SuccessEntry>,
                                   failed: seq<FailureEntry>, sent: seq<UpdateVideoRequest>)

  /** One iteration of the loop. */
  function Step(s: BatchState, u: UpdateItem, authorized: bool, accept: UpdateVideoRequest -> bool): BatchState
  {
    if !ValidItem(u) then s.(failed := s.failed + [Classify(u, authorized, accept).err])
    else
      var attempt := UpdateVideo(authorized, u.videoId.value, u.title, u.description, u.privacyStatus, u.categoryId, accept);
      var sent := s.sent + (if attempt.sent.Some? then [attempt.sent.value] else []);
      if attempt.ok then
        BatchState(ApplyEdit(s.videos, u.videoId.value, u.title, u.description, u.privacyStatus, u.categoryId),
                   s.successful + [SuccessEntry(u.videoId.value, u.title.value)], s.failed, sent)
      else
        BatchState(s.videos, s.successful, s.failed + [FailureEntry(u.videoId.value, ApiFailedError)], sent)
  }

  /** The loop over `updates`, in order. */
  function Run(s: BatchState, updates: seq<UpdateItem>, authorized: bool, accept: UpdateVideoRequest -> bool): BatchState
  {
    if |updates| == 0 then s
    else Step(Run(s, updates[..|updates| - 1], authorized, accept), updates[|updates| - 1], authorized, accept)
  }

  /** The handler's answer for `total` requests. */
  function Respond(s: BatchState, total: nat): BatchResponse
  {
    BatchResponse(|s.successful| > 0, s.successful, s.failed, Summary(total, |s.successful|, |s.failed|))
  }

  /** The whole batch on catalog `videos`. */
  function BatchUpdate(videos: seq<VideoData>, updates: seq<UpdateItem>, authorized: bool,
                       accept: UpdateVideoRequest -> bool): BatchState
  {
    Run(BatchState(videos, [], [], []), updates, authorized, accept)
  }

  // ------------------------------------------------------ reference lists

  /** The successful entries of a list of results, in order. */
  function Successes(rs: seq<ItemResult>): seq<SuccessEntry>
  {
    if |rs| == 0 then []
    else Successes(rs[..|rs| - 1]) + (if rs[|rs| - 1].Succeeded? then [rs[|rs| - 1].ok] else [])
  }

  function Failures(rs: seq<ItemResult>): seq<FailureEntry>
  {
    if |rs| == 0 then []
    else Failures(rs[..|rs| - 1]) + (if rs[|rs| - 1].Failed? then [rs[|rs| - 1].err] else [])
  }

  function Results(updates: seq<UpdateItem>, authorized: bool, accept: UpdateVideoRequest -> bool): (rs: seq<ItemResult>)
    ensures |rs| == |updates|
    ensures forall i :: 0 <= i < |updates| ==> rs[i] == Classify(updates[i], authorized, accept)
  {
    seq(|updates|, i requires 0 <= i < |updates| => Classify(updates[i], authorized, accept))
  }

  /** Each result is counted exactly once. */
  lemma {:induction false} PartitionCounts(rs: seq<ItemResult>)
    ensures |Successes(rs)| + |Failures(rs)| == |rs|
  {
    if |rs| > 0 {
      PartitionCounts(rs[..|rs| - 1]);
    }
  }

  /** The requests sent: one per valid request, in order, and none at all
      without an authenticated client. */
  function SentFor(updates: seq<UpdateItem>, authorized: bool): seq<UpdateVideoRequest>
  {
    if |updates| == 0 || !authorized then []
    else
      var u := updates[|updates| - 1];
      SentFor(updates[..|updates| - 1], authorized) +
        (if ValidItem(u) then [BuildRequest(u.videoId.value, u.title, u.description, u.privacyStatus, u.categoryId)] else [])
  }

  /** The batch classifies each request on its own: the lists are the
      successful and failed results in input order, the catalog is the
      starting one with every success applied in turn, and only valid
      requests reach the API. */
  lemma {:induction false} BatchMatchesClassification(videos: seq<VideoData>, updates: seq<UpdateItem>, authorized: bool,
                                                      accept: UpdateVideoRequest -> bool)
    ensures var s := BatchUpdate(videos, updates, authorized, accept);
      var rs := Results(updates, authorized, accept);
      && s.successful == Successes(rs)
      && s.failed == Failures(rs)
      && s.sent == SentFor(updates, authorized)
  {
    if |updates| > 0 {
      var n := |updates| - 1;
      BatchMatchesClassification(videos, updates[..n], authorized, accept);
      var rs := Results(updates, authorized, accept);
      assert rs[..n] == Results(updates[..n], authorized, accept);
    }
  }

  /** The summary: `total` is the number of requests, which is the number of
      successful plus failed ones, and `success` holds iff at least one
      request succeeded. */
  lemma BatchSummary(videos: seq<VideoData>, updates: seq<UpdateItem>, authorized: bool,
                     accept: UpdateVideoRequest -> bool)
    ensures var r := Respond(BatchUpdate(videos, updates, authorized, accept), |updates|);
      && r.summary.total == |updates| == r.summary.successful + r.summary.failed
      && r.summary.successful == |r.successful| && r.summary.failed == |r.failed|
      && (r.success <==> exists i :: 0 <= i < |updates| && Classify(updates[i], authorized, accept).Succeeded?)
  {
    var rs := Results(updates, authorized, accept);
    BatchMatchesClassification(videos, updates, authorized, accept);
    PartitionCounts(rs);
    SuccessesNonEmpty(rs);
  }

  lemma {:induction false} SuccessesNonEmpty(rs: seq<ItemResult>)
    ensures |Successes(rs)| > 0 <==> exists i :: 0 <= i < |rs| && rs[i].Succeeded?
  {
    if |rs| > 0 {
      var n := |rs| - 1;
      SuccessesNonEmpty(rs[..n]);
      if exists i :: 0 <= i < |rs| && rs[i].Succeeded? {
        var i :| 0 <= i < |rs| && rs[i].Succeeded?;
        if i < n {
          assert rs[..n][i] == rs[i];
        }
      }
    }
  }

  /** Without an authenticated client nothing is sent, nothing succeeds and
      the catalog is untouched. */
  lemma {:induction false} UnauthorizedBatchFails(videos: seq<VideoData>, updates: seq<UpdateItem>,
                                                  accept: UpdateVideoRequest -> bool)
    ensures var s := BatchUpdate(videos, updates, false, accept);
      && s.videos == videos && s.successful == [] && s.sent == []
      && |s.failed| == |updates|
  {
    if |updates| > 0 {
      UnauthorizedBatchFails(videos, updates[..|updates| - 1], accept);
    }
  }

  /** The catalog keeps its length and its ids; a record whose id no
      successful request names keeps all its fields. */
  lemma {:induction false} BatchTouchesOnlySucceededRecords(videos: seq<VideoData>, updates: seq<UpdateItem>,
                                                            authorized: bool, accept: UpdateVideoRequest -> bool)
    ensures var s := BatchUpdate(videos, updates, authorized, accept);
      && |s.videos| == |videos|
      && (forall j :: 0 <= j < |videos| ==> s.videos[j].id == videos[j].id)
      && (forall j :: 0 <= j < |videos| && (forall e :: e in s.successful ==> e.videoId != videos[j].id) ==>
            s.videos[j] == videos[j])
  {
    if |updates| > 0 {
      var n := |updates| - 1;
      BatchTouchesOnlySucceededRecords(videos, updates[..n], authorized, accept);
    }
  }

  /** A request that succeeds leaves the first record with its id holding
      exactly the submitted values, even undefined privacy or category. */
  lemma SuccessOverwrites(s: BatchState, u: UpdateItem, authorized: bool, accept: UpdateVideoRequest -> bool)
    requires Classify(u, authorized, accept).Succeeded?
    requires FindIndex(s.videos, u.videoId.value).Some?
    ensures var s' := Step(s, u, authorized, accept);
      var k := FindIndex(s.videos, u.videoId.value).value;
      && s'.videos[k].title == u.title && s'.videos[k].description == u.description
      && s'.videos[k].privacyStatus == u.privacyStatus && s'.videos[k].categoryId == u.categoryId
  {
  }
}
