/** The thumbnail cache: deterministic file names per (video, size, width,
    height), the registry from file name to remote URL, the choice of a
    representative thumbnail, and hit/miss resolution with the filter that
    refuses YouTube's "still processing" placeholder image. */
module Thumbnails {
  import opened Wrappers
  import opened Strings

  /** One entry of the API's `snippet.thumbnails` object, in the order
      `Object.entries` yields them. */
  datatype RemoteThumbnail = RemoteThumbnail(size: string, url: string, width: nat, height: nat)

  /** A thumbnail as the catalog stores it: a `cache://` reference. */
  datatype ThumbnailData = ThumbnailData(url: string, width: nat, height: nat)

  const CacheScheme: string := "cache://"

  /** The cache directory below the user-data directory. */
  const CacheDir: string := "<userData>/cache/thumbnails"

  /** MD5 (hex) of the placeholder image YouTube serves while a video is
      being processed. */
  const PlaceholderMd5: string := "e2ddfee11ae7edcae257da47f3a78a70"

  /** `${videoId}_${size}_${width}_${height}.jpg` */
  function Filename(videoId: string, size: string, width: nat, height: nat): string
  {
    videoId + "_" + size + "_" + NatToString(width) + "_" + NatToString(height) + ".jpg"
  }

  function EntryFilename(videoId: string, e: RemoteThumbnail): string
  {
    Filename(videoId, e.size, e.width, e.height)
  }

  /** `path.join(CACHE_DIR, filename)` */
  function CachePath(filename: string): string
  {
    CacheDir + "/" + filename
  }

  /** The object keys of `thumbnails` are distinct. */
  predicate DistinctSizes(entries: seq<RemoteThumbnail>)
  {
    forall i, j :: 0 <= i < j < |entries| ==> entries[i].size != entries[j].size
  }

  // ------------------------------------------------ createLocalThumbnailUrls

  /** The registry after registering `entries` in order: each entry maps its
      file name to its remote URL. */
  function Register(reg: map<string, string>, videoId: string, entries: seq<RemoteThumbnail>): map<string, string>
  {
    if |entries| == 0 then reg
    else
      var last := entries[|entries| - 1];
      Register(reg, videoId, entries[..|entries| - 1])[EntryFilename(videoId, last) := last.url]
  }

  /** The local thumbnails object: each size maps to its `cache://` URL with
      the width and height copied. */
  function LocalThumbnails(videoId: string, entries: seq<RemoteThumbnail>): map<string, ThumbnailData>
  {
    if |entries| == 0 then map[]
    else
      var last := entries[|entries| - 1];
      LocalThumbnails(videoId, entries[..|entries| - 1])[last.size :=
        ThumbnailData(CacheScheme + EntryFilename(videoId, last), last.width, last.height)]
  }

  /** `a + "_" + d1 == b + "_" + d2` with no `_` in `d1`, `d2` splits at the
      same place. */
  lemma LastUnderscore(a: string, d1: string, b: string, d2: string)
    requires a + "_" + d1 == b + "_" + d2
    requires '_' !in d1 && '_' !in d2
    ensures a == b && d1 == d2
  {
    var x := a + "_" + d1;
    var y := b + "_" + d2;
    SameLengthTail(x, a, d1, b, d2);
    assert |a| == |b|;
    assert a == x[..|a|] && b == y[..|b|];
    assert d1 == x[|a| + 1..] && d2 == y[|b| + 1..];
  }

  /** The part after the last `_` has the same length on both sides. */
  lemma SameLengthTail(x: string, a: string, d1: string, b: string, d2: string)
    requires x == a + "_" + d1 && x == b + "_" + d2
    requires '_' !in d1 && '_' !in d2
    ensures |d1| == |d2|
  {
    if |d1| < |d2| {
      UnderscoreInside(x, a, d1, b, d2);
    } else if |d2| < |d1| {
      UnderscoreInside(x, b, d2, a, d1);
    }
  }

  lemma UnderscoreInside(x: string, a: string, d1: string, b: string, d2: string)
    requires x == a + "_" + d1 && x == b + "_" + d2
    requires |d1| < |d2|
    ensures '_' in d2
  {
    var k := |x| - |d1| - 1;
    assert x[k] == '_';
    assert x[k] == d2[k - |b| - 1];
  }

  lemma DigitsHaveNoUnderscore(n: nat)
    ensures '_' !in NatToString(n)
  {
    var s := NatToString(n);
    forall i | 0 <= i < |s|
      ensures s[i] != '_'
    {
    }
  }

  /** Equal strings with equal prefixes and suffixes have equal middles. */
  lemma Middle(p: string, t1: string, t2: string, q: string)
    requires p + t1 + q == p + t2 + q
    ensures t1 == t2
  {
    var x := p + t1 + q;
    assert |t1| == |t2|;
    assert t1 == x[|p|..|p| + |t1|];
  }

  /** Within one video, a file name determines the size label. */
  lemma FilenameDeterminesSize(videoId: string, s1: string, w1: nat, h1: nat, s2: string, w2: nat, h2: nat)
    requires Filename(videoId, s1, w1, h1) == Filename(videoId, s2, w2, h2)
    ensures s1 == s2
  {
    var p := videoId + "_";
    var u1 := s1 + "_" + NatToString(w1);
    var u2 := s2 + "_" + NatToString(w2);
    var t1 := u1 + "_" + NatToString(h1);
    var t2 := u2 + "_" + NatToString(h2);
    FilenameShape(videoId, s1, w1, h1);
    FilenameShape(videoId, s2, w2, h2);
    Middle(p, t1, t2, ".jpg");
    DigitsHaveNoUnderscore(w1);
    DigitsHaveNoUnderscore(w2);
    DigitsHaveNoUnderscore(h1);
    DigitsHaveNoUnderscore(h2);
    LastUnderscore(u1, NatToString(h1), u2, NatToString(h2));
    LastUnderscore(s1, NatToString(w1), s2, NatToString(w2));
  }

  lemma FilenameShape(videoId: string, s: string, w: nat, h: nat)
    ensures Filename(videoId, s, w, h) == (videoId + "_") + ((s + "_" + NatToString(w)) + "_" + NatToString(h)) + ".jpg"
  {
  }

  /** Registering a video's thumbnails maps each entry's file name to that
      entry's URL and leaves every other registry entry unchanged. */
  lemma RegisterSpec(reg: map<string, string>, videoId: string, entries: seq<RemoteThumbnail>)
    requires DistinctSizes(entries)
    ensures var r := Register(reg, videoId, entries);
      && r.Keys == reg.Keys + (set e | e in entries :: EntryFilename(videoId, e))
      && (forall i :: 0 <= i < |entries| ==> r[EntryFilename(videoId, entries[i])] == entries[i].url)
      && (forall f :: f in reg && (forall e :: e in entries ==> f != EntryFilename(videoId, e)) ==> r[f] == reg[f])
  {
    RegisterKeys(reg, videoId, entries);
    RegisterHits(reg, videoId, entries);
  }

  /** Registering adds exactly the entries' file names as keys, and keys
      that are none of them keep their URL. */
  lemma {:induction false} RegisterKeys(reg: map<string, string>, videoId: string, entries: seq<RemoteThumbnail>)
    ensures var r := Register(reg, videoId, entries);
      && r.Keys == reg.Keys + (set e | e in entries :: EntryFilename(videoId, e))
      && (forall f :: f in reg && (forall e :: e in entries ==> f != EntryFilename(videoId, e)) ==> r[f] == reg[f])
  {
    if |entries| > 0 {
      var n := |entries| - 1;
      RegisterKeys(reg, videoId, entries[..n]);
      assert entries == entries[..n] + [entries[n]];
    }
  }

  /** With distinct sizes, every entry's file name holds that entry's URL. */
  lemma {:induction false} RegisterHits(reg: map<string, string>, videoId: string, entries: seq<RemoteThumbnail>)
    requires DistinctSizes(entries)
    ensures var r := Register(reg, videoId, entries);
      forall i :: 0 <= i < |entries| ==> EntryFilename(videoId, entries[i]) in r && r[EntryFilename(videoId, entries[i])] == entries[i].url
  {
    if |entries| > 0 {
      var n := |entries| - 1;
      var init := entries[..n];
      var last := entries[n];
      RegisterHits(reg, videoId, init);
      var r := Register(reg, videoId, entries);
      forall i | 0 <= i < n
        ensures EntryFilename(videoId, entries[i]) in r && r[EntryFilename(videoId, entries[i])] == entries[i].url
      {
        assert init[i] == entries[i];
        if EntryFilename(videoId, entries[i]) == EntryFilename(videoId, last) {
          FilenameDeterminesSize(videoId, entries[i].size, entries[i].width, entries[i].height,
                                 last.size, last.width, last.height);
        }
      }
    }
  }

  /** The local thumbnails have exactly the sizes of the remote ones, each a
      `cache://` reference to its deterministic file name with width and
      height copied. */
  lemma {:induction false} LocalThumbnailsSpec(videoId: string, entries: seq<RemoteThumbnail>)
    requires DistinctSizes(entries)
    ensures var l := LocalThumbnails(videoId, entries);
      && l.Keys == (set e | e in entries :: e.size)
      && forall i :: 0 <= i < |entries| ==>
           l[entries[i].size] == ThumbnailData(CacheScheme + EntryFilename(videoId, entries[i]), entries[i].width, entries[i].height)
  {
    if |entries| > 0 {
      var n := |entries| - 1;
      LocalThumbnailsSpec(videoId, entries[..n]);
      assert entries == entries[..n] + [entries[n]];
      forall i | 0 <= i < n
        ensures entries[..n][i] == entries[i]
      {
      }
    }
  }

  // ----------------------------------------------- representative thumbnail

  const PreferenceOrder: seq<string> := ["medium", "high", "default", "standard"]

  /** The URL of the first size of `order` present in `local`, or "". */
  function PickFrom(order: seq<string>, local: map<string, ThumbnailData>): string
  {
    if |order| == 0 then ""
    else if order[0] in local then local[order[0]].url
    else PickFrom(order[1..], local)
  }

  /** `thumbnail_url`: the first present of medium, high, default, standard. */
  function RepresentativeUrl(local: map<string, ThumbnailData>): string
  {
    PickFrom(PreferenceOrder, local)
  }

  /** The pick is the URL of the first listed size present, and "" exactly
      when none is present (and present URLs are non-empty). */
  lemma {:induction false} PickFromSpec(order: seq<string>, local: map<string, ThumbnailData>)
    ensures (forall s :: s in order ==> s !in local) ==> PickFrom(order, local) == ""
    ensures forall i :: 0 <= i < |order| && order[i] in local && (forall j :: 0 <= j < i ==> order[j] !in local) ==>
              PickFrom(order, local) == local[order[i]].url
  {
    if |order| > 0 && order[0] !in local {
      PickFromSpec(order[1..], local);
      forall i | 1 <= i < |order| && order[i] in local && (forall j :: 0 <= j < i ==> order[j] !in local)
        ensures PickFrom(order, local) == local[order[i]].url
      {
        assert order[1..][i - 1] == order[i];
        assert forall j :: 0 <= j < i - 1 ==> order[1..][j] == order[j + 1];
      }
    }
  }

  /** With only `default` and `standard` present, `default` is chosen; with
      none of the four present the URL is "". */
  lemma DefaultBeatsStandard(local: map<string, ThumbnailData>)
    requires "medium" !in local && "high" !in local && "default" in local
    ensures RepresentativeUrl(local) == local["default"].url
  {
    PickFromSpec(PreferenceOrder, local);
    assert PreferenceOrder[2] == "default";
  }

  // -------------------------------------------------------------- resolve

  /** What fetching a remote URL gives: a network error, or the whole body. */
  datatype Download = NetworkError | Body(bytes: seq<bv8>)

  /** The result of `getThumbnailPath`: the path (or null), the cache
      directory afterwards, and the URL downloaded, if any. */
  datatype Resolution = Resolution(path: Option<string>, cache: map<string, seq<bv8>>, downloaded: Option<string>)

  /** `downloadThumbnail(url, filename)`: the body is written to the cache
      unless the request fails or its MD5 is the placeholder's. */
  function DownloadInto(cache: map<string, seq<bv8>>, filename: string, d: Download, md5: seq<bv8> -> string): (r: (bool, map<string, seq<bv8>>))
  {
    match d
    case NetworkError => (false, cache)
    case Body(bytes) =>
      if md5(bytes) == PlaceholderMd5 then (false, cache) else (true, cache[filename := bytes])
  }

  /** `getThumbnailPath(filename)`: a file already in the cache is returned
      as is; otherwise the file is downloaded when the registry knows a URL
      for it. `fetch` is the network, `md5` the hash function. */
  function Resolve(cache: map<string, seq<bv8>>, registry: map<string, string>, filename: string,
                   fetch: string -> Download, md5: seq<bv8> -> string): (r: Resolution)
    ensures r.cache.Keys <= cache.Keys + {filename}
    ensures forall f :: f in cache && f != filename ==> f in r.cache && r.cache[f] == cache[f]
  {
    if filename in cache then Resolution(Some(CachePath(filename)), cache, None)
    else if filename in registry && registry[filename] != "" then
      var url := registry[filename];
      var (ok, cache') := DownloadInto(cache, filename, fetch(url), md5);
      Resolution(if ok then Some(CachePath(filename)) else None, cache', Some(url))
    else Resolution(None, cache, None)
  }

  /** A cache hit downloads nothing and changes nothing. */
  lemma HitDoesNotDownload(cache: map<string, seq<bv8>>, registry: map<string, string>, filename: string,
                           fetch: string -> Download, md5: seq<bv8> -> string)
    requires filename in cache
    ensures Resolve(cache, registry, filename, fetch, md5) == Resolution(Some(CachePath(filename)), cache, None)
  {
  }

  /** A miss downloads exactly when the registry has a URL for the file, and
      otherwise returns null. */
  lemma MissDownloadsOnlyKnownUrls(cache: map<string, seq<bv8>>, registry: map<string, string>, filename: string,
                                   fetch: string -> Download, md5: seq<bv8> -> string)
    requires filename !in cache
    ensures var r := Resolve(cache, registry, filename, fetch, md5);
      && (r.downloaded.Some? <==> filename in registry && registry[filename] != "")
      && (r.downloaded.Some? ==> r.downloaded.value == registry[filename])
      && (r.downloaded.None? ==> r.path.None? && r.cache == cache)
      && (r.path.Some? <==> filename in r.cache)
  {
  }

  /** A placeholder download writes nothing and reports failure, so the
      next resolution of the same file downloads again (no negative caching). */
  lemma PlaceholderIsNeverCached(cache: map<string, seq<bv8>>, registry: map<string, string>, filename: string,
                                 fetch: string -> Download, md5: seq<bv8> -> string)
    requires filename !in cache && filename in registry && registry[filename] != ""
    requires fetch(registry[filename]).Body? && md5(fetch(registry[filename]).bytes) == PlaceholderMd5
    ensures var r := Resolve(cache, registry, filename, fetch, md5);
      && r.path.None? && r.cache == cache
      && Resolve(r.cache, registry, filename, fetch, md5).downloaded == Some(registry[filename])
  {
  }

  /** Any other body is stored under the file name and its path returned. */
  lemma GoodDownloadIsCached(cache: map<string, seq<bv8>>, registry: map<string, string>, filename: string,
                             fetch: string -> Download, md5: seq<bv8> -> string)
    requires filename !in cache && filename in registry && registry[filename] != ""
    requires fetch(registry[filename]).Body? && md5(fetch(registry[filename]).bytes) != PlaceholderMd5
    ensures var r := Resolve(cache, registry, filename, fetch, md5);
      && r.path == Some(CachePath(filename))
      && r.cache == cache[filename := fetch(registry[filename]).bytes]
  {
  }
}
