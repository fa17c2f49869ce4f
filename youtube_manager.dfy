/** The main-process manager of the YouTube session: its client, its
    catalog of videos, the thumbnail registry and cache directory, and the
    category cache, updated in place by its operations. Each operation is
    proved against the function that specifies it. */
module YouTube {
  import opened Wrappers
  import opened Json
  import opened PortProbe
  import opened OAuthCallback
  import opened Thumbnails
  import opened Catalog
  import opened VideoUpdate
  import opened Categories
  import opened Auth

  class YouTubeManager {
    var client: OAuthClient
    /** Whether the API handle (`this.youtube`) exists. */
    var authorized: bool
    /** The token file in the user-data directory. */
    var tokenFile: TokenFile
    var videos: seq<VideoData>
    /** File name to remote URL (`thumbnailUrls`). */
    var thumbnailUrls: map<string, string>
    var videoCategories: map<string, Category>
    /** The files of the thumbnail cache directory, by file name. */
    var cacheFiles: map<string, seq<bv8>>

    function State(): AuthState
      reads this
    {
      AuthState(client, authorized, tokenFile)
    }

    /** A new manager over the token file and cache directory found on
        disk. */
    constructor(tokenFile: TokenFile, cacheFiles: map<string, seq<bv8>>)
      ensures State() == AuthState(EmptyClient, false, tokenFile)
      ensures videos == [] && thumbnailUrls == map[] && videoCategories == map[] && this.cacheFiles == cacheFiles
    {
      client := EmptyClient;
      authorized := false;
      this.tokenFile := tokenFile;
      videos := [];
      thumbnailUrls := map[];
      videoCategories := map[];
      this.cacheFiles := cacheFiles;
    }

    // ------------------------------------------------ authentication

    /** `authenticate` */
    method Authenticate(w: AuthWorld) returns (r: AuthResult)
      modifies this`client, this`authorized, this`tokenFile
      ensures (r, State()) == Auth.Authenticate(old(State()), w)
    {
      if w.credentials.Missing? {
        return AuthFailed(CredentialsNotFound);
      }
      if w.credentials.Unparsable? {
        return AuthFailed(CredentialsInvalid);
      }
      var doc := w.credentials.doc;
      if doc == JNull {
        return AuthFailed(NullCredentials);
      }
      if !Credentials.HasRequiredFields(doc) {
        return AuthFailed(CredentialsMissingFields);
      }
      client := ClientFor(doc);
      if tokenFile.UnparsableTokenFile? {
        return AuthFailed(TokenFileInvalid);
      }
      var stored := JNull;
      if tokenFile.TokenFileOf? {
        stored := tokenFile.doc;
        client := client.(credentials := Some(stored));
      }
      match TokenDecision(stored, w.tokenValid, w.refreshed) {
        case KeepStored =>
        case UseRefreshed(t) =>
          client := client.(credentials := Some(t));
          tokenFile := TokenFileOf(t);
        case Reauthorize =>
          var result, tokens := GetNewToken(w);
          if result != AuthSucceeded {
            return result;
          }
      }
      authorized := true;
      r := AuthSucceeded;
    }

    /** `getNewToken` */
    method GetNewToken(w: AuthWorld) returns (result: AuthResult, tokens: Option<JsonValue>)
      modifies this`client, this`tokenFile
      ensures NewToken(result, tokens, State()) == Auth.GetNewToken(old(State()), w)
    {
      var probe := FindAvailablePort(BasePort, w.bindFails);
      if probe.Err? {
        return AuthFailed(NoFreePort), None;
      }
      var port := probe.value;
      client := OAuthClient(client.clientId, client.clientSecret, Some(JString(RedirectUri(port))), None);
      var outcome := StartCallbackServer(w.listenOk, w.requests, w.exchange);
      match outcome {
        case Pending =>
          result, tokens := StillWaiting, None;
        case Rejected(e) =>
          result, tokens := AuthFailed(AuthorizationFailed(e)), None;
        case Resolved(t) =>
          var j := TokenJson(t);
          client := client.(credentials := Some(j));
          tokenFile := TokenFileOf(j);
          result, tokens := AuthSucceeded, Some(j);
      }
    }

    // ------------------------------------------------ thumbnails

    /** `createLocalThumbnailUrls`: registers every entry's file name and
        builds the local thumbnails object. */
    method CreateLocalThumbnailUrls(videoId: string, entries: seq<RemoteThumbnail>)
      returns (local: map<string, ThumbnailData>)
      modifies this`thumbnailUrls
      ensures thumbnailUrls == Register(old(thumbnailUrls), videoId, entries)
      ensures local == LocalThumbnails(videoId, entries)
    {
      local := map[];
      var i := 0;
      while i < |entries|
        invariant 0 <= i <= |entries|
        invariant thumbnailUrls == Register(old(thumbnailUrls), videoId, entries[..i])
        invariant local == LocalThumbnails(videoId, entries[..i])
      {
        var e := entries[i];
        var filename := EntryFilename(videoId, e);
        thumbnailUrls := thumbnailUrls[filename := e.url];
        local := local[e.size := ThumbnailData(CacheScheme + filename, e.width, e.height)];
        assert entries[..i + 1][..i] == entries[..i];
        i := i + 1;
      }
      assert entries[..i] == entries;
    }

    /** `downloadThumbnail(url, filename)`; `fetch` is the network and `md5`
        the hash. */
    method DownloadThumbnail(url: string, filename: string, fetch: string -> Download, md5: seq<bv8> -> string)
      returns (ok: bool)
      modifies this`cacheFiles
      ensures (ok, cacheFiles) == DownloadInto(old(cacheFiles), filename, fetch(url), md5)
    {
      var d := fetch(url);
      if d.NetworkError? {
        return false;
      }
      if md5(d.bytes) == PlaceholderMd5 {
        return false;
      }
      cacheFiles := cacheFiles[filename := d.bytes];
      ok := true;
    }

    /** `getThumbnailPath(filename)` */
    method GetThumbnailPath(filename: string, fetch: string -> Download, md5: seq<bv8> -> string)
      returns (path: Option<string>)
      modifies this`cacheFiles
      ensures var res := Resolve(old(cacheFiles), thumbnailUrls, filename, fetch, md5);
        path == res.path && cacheFiles == res.cache
    {
      if filename in cacheFiles {
        return Some(CachePath(filename));
      }
      if filename in thumbnailUrls && thumbnailUrls[filename] != "" {
        var ok := DownloadThumbnail(thumbnailUrls[filename], filename, fetch, md5);
        if ok {
          return Some(CachePath(filename));
        }
      }
      path := None;
    }

    // ------------------------------------------------ catalog

    /** `getChannelVideos(channelId, maxResults)`: the catalog is replaced
        only when the listing gets past pagination. */
    method GetChannelVideos(channelId: Option<string>, maxResults: int,
                            lookupUploads: Option<string> -> Option<string>, pages: seq<PageResponse>,
                            fetch: seq<string> -> Option<seq<VideoDetail>>)
      returns (result: seq<VideoData>)
      modifies this`videos, this`thumbnailUrls
      ensures var spec := ListChannelVideos(authorized, old(thumbnailUrls), channelId, maxResults, lookupUploads, pages, fetch);
        && (spec.None? ==> result == [] && videos == old(videos) && thumbnailUrls == old(thumbnailUrls))
        && (spec.Some? ==> result == spec.value.videos && videos == result && thumbnailUrls == spec.value.registry)
    {
      if !authorized {
        return [];
      }
      var uploads := lookupUploads(ChannelArg(channelId));
      if uploads.None? {
        return [];
      }
      var items, requests, failed := FetchPlaylistItems(uploads.value, maxResults, pages);
      if failed {
        return [];
      }
      var ids := VideoIds(items);
      var idSet := (set id | id in ids);
      var chunks := Chunks(ids);
      var acc := Acc([], thumbnailUrls);
      result := [];
      var k := 0;
      while k < |chunks|
        invariant 0 <= k <= |chunks|
        invariant Acc(result, thumbnailUrls) == AddChunks(acc, chunks[..k], idSet, fetch)
      {
        var details := fetch(chunks[k]);
        if details.Some? {
          result := AppendDetails(result, details.value, idSet);
        }
        assert chunks[..k + 1][..k] == chunks[..k];
        k := k + 1;
      }
      assert chunks[..k] == chunks;
      videos := result;
    }

    /** The loop over one slice's detail items: each kept item registers its
        thumbnails and appends its record. */
    method AppendDetails(sofar: seq<VideoData>, ds: seq<VideoDetail>, idSet: set<string>)
      returns (result: seq<VideoData>)
      modifies this`thumbnailUrls
      ensures Acc(result, thumbnailUrls) == AddDetails(Acc(sofar, old(thumbnailUrls)), ds, idSet)
    {
      result := sofar;
      var j := 0;
      while j < |ds|
        invariant 0 <= j <= |ds|
        invariant Acc(result, thumbnailUrls) == AddDetails(Acc(sofar, old(thumbnailUrls)), ds[..j], idSet)
      {
        var d := ds[j];
        if d.id in idSet && d.snippet.Some? {
          var local := CreateLocalThumbnailUrls(d.id, d.snippet.value.thumbnails);
          result := result + [Normalize(d, local)];
        }
        assert ds[..j + 1][..j] == ds[..j];
        j := j + 1;
      }
      assert ds[..j] == ds;
    }

    /** `updateVideo`; it changes nothing in the manager. */
    method UpdateVideo(videoId: string, title: Option<string>, description: Option<string>,
                       privacyStatus: Option<string>, categoryId: Option<string>,
                       accept: UpdateVideoRequest -> bool)
      returns (attempt: UpdateAttempt)
      ensures attempt == VideoUpdate.UpdateVideo(authorized, videoId, title, description, privacyStatus, categoryId, accept)
    {
      if !authorized {
        return UpdateAttempt(false, None);
      }
      var request := BuildRequest(videoId, title, description, privacyStatus, categoryId);
      attempt := UpdateAttempt(accept(request), Some(request));
    }

    // ------------------------------------------------ categories

    /** `getVideoCategories`; `country` is what `getChannelInfo` reports and
        `locale` the system locale. */
    method GetVideoCategories(country: Option<string>, locale: string, fetch: (string, string) -> CategoryFetch)
      returns (categories: map<string, Category>)
      modifies this`videoCategories
      ensures var spec := Categories.GetVideoCategories(authorized, old(videoCategories), country, locale, fetch);
        categories == spec.categories && videoCategories == spec.cache
    {
      if !authorized {
        return map[];
      }
      if |videoCategories| > 0 {
        return videoCategories;
      }
      var response := fetch(RegionCode(country, locale), HlLocale(locale));
      if response.FetchFailed? {
        return map[];
      }
      categories := map[];
      if response.Items? {
        var items := response.items;
        var i := 0;
        while i < |items|
          invariant 0 <= i <= |items|
          invariant CategoryMap(items[..i]) == Some(categories)
        {
          var item := items[i];
          assert items[..i + 1][..i] == items[..i];
          if item.snippet.None? {
            return map[];
          }
          if item.snippet.value.assignable {
            categories := categories[item.id := Category(item.id, item.snippet.value.title)];
          }
          i := i + 1;
        }
        assert items[..i] == items;
      }
      videoCategories := categories;
    }
  }
}
