# yt-batch-manager, modelled in Dafny

yt-batch-manager is a desktop application for editing the titles and
descriptions of a YouTube channel's videos in bulk. This project models the
core of it and proves properties of that model:

- the main process's `YouTubeManager`:
  - authentication: validating the client-secret file, the stored-token
    lifecycle, the loopback-port probe and the one-shot OAuth callback
    listener;
  - the paginated channel listing and its normalisation into `VideoData`;
  - the thumbnail registry and cache;
  - single video updates;
  - the video-category cache;
- the `ElectronApp` parts that hold logic:
  - `getWindowState`, which recovers a saved window position;
  - the `youtube:update-video` and `youtube:update-videos-batch` IPC
    handlers;
- the translation service `I18n`: language scan, fallback loading, system
  language detection, the dotted-key lookup `t` and `{name}` interpolation;
- the renderer's `YouTubeBatchManager` state:
  - the edited-video list and what a field edit, a single save and "save
    all" do to it and to the catalog records;
  - the infinite-scroll page window;
  - find-in-fields.

Each stateful object is a class whose methods are proved against the
functions that specify them:

| class | what its fields hold |
|---|---|
| `YouTube.YouTubeManager` | the client, the token file, the catalog, the thumbnail registry, the cache directory, the category cache |
| `I18nState.I18n` | the language list, the fallback, the current language, the loaded translations |
| `Renderer.YouTubeBatchManager` | the edited list, the catalog records as shared `Video` objects, the rendered window, the find state |
| `OAuthCallback.CallbackServer` | the listener's state |

Pure logic is written as functions with lemmas.

Everything outside the process is a parameter of the operation that uses it:

- the file system: snapshots of files and directory listings;
- the Google APIs: response sequences, or functions from request to answer;
- the browser's requests to the callback listener;
- the screen;
- the DOM input values: a map from video id to the two input values;
- MD5;
- `toLowerCase`.

## Model

| member | source | states |
|---|---|---|
| Credentials.CheckCredentials | src/main.ts:122-153 | not-found exactly for a missing file; invalid exactly for unparsable text or a `null` document (whose property read throws inside the same `try`); valid only for a parsed object |
| Credentials.ValidIff | src/main.ts:137-145 | the check succeeds exactly when `installed` is an object whose `client_secret`, `client_id` and `redirect_uris` are all present and truthy |
| Credentials.RemovingAFieldFails | src/main.ts:137-143 | removing any one required field, or `installed` itself, from a valid file makes the check report missing fields |
| Credentials.WellFormedFileIsValid | src/main.ts:137-145 | a file in the documented shape passes the check |
| Credentials.EmptyRedirectListAccepted | src/main.ts:137 | an empty `redirect_uris` array passes too, since an array is truthy |
| PortProbe.TryPort | src/main.ts:325-337 | a probe from `port` succeeds with the first bindable port at or after it, every port before that being unbindable; it rejects with "No available port found" only when every port up to start + 100 is unbindable |
| PortProbe.FindAvailablePort | src/main.ts:323-340 | the answer is the first bindable port in `start .. start + 100`; it fails exactly when all 101 ports are unbindable |
| PortProbe.ProbeIsLocal | src/main.ts:323-340 | the answer depends only on the 101 ports it may try |
| OAuthCallback.Dispatch | src/main.ts:344-376 | a request settles the promise exactly when its path is `/callback`, and then never leaves it pending; other paths get 404 |
| OAuthCallback.StepKeepsConsistent | src/main.ts:344-376 | the listener is closed exactly when the promise has settled, and is closed at most once |
| OAuthCallback.RunDecidedByFirstCallback | src/main.ts:342-387 | from a fresh listener, every request before the first `/callback` one gets a 404; the first `/callback` request alone settles the outcome and closes the listener once; later requests get no answer; with no `/callback` request the promise stays pending |
| OAuthCallback.ErrorBeforeCode | src/main.ts:353-358 | an `error` parameter rejects even when a `code` is present |
| OAuthCallback.CodeExchanged | src/main.ts:360-367 | a `code` without `error` resolves with the tokens the token endpoint returns for that code |
| OAuthCallback.CallbackServer.Listen | src/main.ts:379-381 | a new listener is open, pending, has answered nothing |
| OAuthCallback.CallbackServer.Handle | src/main.ts:344-377 | the listener after handling a request is the reference step applied to the state before it |
| OAuthCallback.CallbackServer.Close | src/main.ts:355 | closing stops listening and counts one close; outcome and responses are kept |
| OAuthCallback.StartCallbackServer | src/main.ts:342-387 | a listen error rejects; otherwise the outcome is that of the requests in arrival order, pending exactly when none is to `/callback` |
| Auth.TokenLifecycle | src/main.ts:258-287 | the stored tokens are kept exactly when a truthy access token passes the token-info check; replaced by the refreshed tokens exactly when it fails, a refresh token exists and the refresh succeeds; in every other case, a missing token file included, a new authorization starts |
| Auth.TokenJson | src/main.ts:314-318 | the persisted tokens hold `access_token` and `refresh_token` exactly when the token has them |
| Auth.TokenJsonRoundTrip | src/main.ts:258-263 | tokens read back from the file have the same access token, and a refresh token exactly when one was written |
| Auth.GetNewToken | src/main.ts:300-321 | on success, the tokens are set on the client and written to the token file; on failure or while waiting, the token file is untouched; the API handle is never changed here |
| Auth.NewTokenUsesProbedPort | src/main.ts:300-313 | the redirect URI names the probed port (at least 5000), the client keeps its id and secret, and the authorization stays pending exactly when nobody reaches `/callback` |
| Auth.Authenticate | src/main.ts:226-298 | a credential-file failure changes nothing; success leaves an API handle and a token file whose document is the client's credentials; failure never creates the handle |
| Auth.WithStoredTokens | src/main.ts:258-290 | the token branch alone: success authorizes with persisted tokens set on the client; failure leaves the handle as it was |
| Auth.AuthenticateAgreesWithCheck | src/main.ts:228-254 | `authenticate` reports the three credential-file errors exactly when `checkCredentials` does; a `null` document fails through the exception its property read raises |
| Auth.PersistedTokensAreReused | src/main.ts:258-276 | after a successful authentication, the next one with the same client-secret file keeps the persisted tokens when the token-info check accepts them |
| Thumbnails.FilenameDeterminesSize | src/main.ts:424 | two thumbnails of one video with the same cache file name have the same size name |
| Thumbnails.RegisterSpec | src/main.ts:419-436 | registering maps each entry's file name to its URL, adds exactly those names and keeps every other entry |
| Thumbnails.LocalThumbnailsSpec | src/main.ts:419-436 | the local map has exactly the entry sizes as keys, each holding `cache://<file name>` with the entry's width and height |
| Thumbnails.PickFromSpec | src/main.ts:568-574 | the representative URL is that of the first preferred size present, and "" when none is |
| Thumbnails.DefaultBeatsStandard | src/main.ts:569 | without `medium` and `high`, `default` is chosen even when `standard` is present |
| Thumbnails.Resolve | src/main.ts:691-705 | resolving a file can only add that file to the cache and keeps every other cached file |
| Thumbnails.HitDoesNotDownload | src/main.ts:692-695 | a cached file is returned without a download |
| Thumbnails.MissDownloadsOnlyKnownUrls | src/main.ts:697-704 | a miss downloads exactly when the registry has a non-empty URL for the file, and that URL; otherwise the answer is `null` and the cache is unchanged |
| Thumbnails.PlaceholderIsNeverCached | src/main.ts:401-406 | a body whose MD5 is the placeholder's is not cached, so the next request downloads again |
| Thumbnails.GoodDownloadIsCached | src/main.ts:407-409 | any other body is cached under the file name and its path is returned |
| Catalog.PaginateSpec | src/main.ts:498-513 | each page request asks for min(50, maxResults − collected) with the previous page's token; a run holds exactly the items of the pages it requested; it stops because `maxResults` was reached or no token came back; a failing run asked for one page more than the API answered |
| Catalog.PaginateBounded | src/main.ts:501-513 | when no page holds more items than its request asked for, the listing holds at most `maxResults` items |
| Catalog.FourPagesOfFifty | src/main.ts:466-513 | with the default 200 and four full pages, exactly four requests are made and 200 items kept |
| Catalog.FetchPlaylistItems | src/main.ts:498-513 | the loop's items, requests and failure are those of the pagination function |
| Catalog.VideoIds | src/main.ts:518-535 | the id list holds exactly the non-empty `resourceId.videoId`s of the items |
| Catalog.ChunksSpec | src/main.ts:539-540 | the detail requests are non-empty slices of at most 50 ids that cover the id list in order; there are ceil(n / 50) of them |
| Catalog.ChunkAt | src/main.ts:539-540 | slice k is `ids[50k .. 50k + 50]`, clipped to the list |
| Catalog.Normalize | src/main.ts:564-606 | a record keeps the detail's id and local thumbnails and takes the representative thumbnail URL; title, description and `publishedAt` default to ""; `categoryId` is passed through; privacy is the truthy status or "unknown"; each count is the truthy count or "0"; duration, upload and processing status are kept when truthy and absent otherwise; progress is present exactly when the detail has one |
| Catalog.FailedChunkSkipped | src/main.ts:616-619 | a failed detail request contributes nothing and does not stop later slices |
| Catalog.KeptMembers | src/main.ts:550-563 | a detail item is kept exactly when its id is one of the playlist's and it has a snippet |
| Catalog.AddDetailVideos | src/main.ts:550-610 | one detail item appends its record exactly when it is kept, and nothing otherwise; the registry only grows |
| Catalog.AddDetailsSpec | src/main.ts:550-614 | a slice's detail loop appends exactly the records of its kept items, in their order, to what was there; the registry only grows |
| Catalog.AddChunkVideos | src/main.ts:539-620 | one slice appends the records of its kept items when its request answers, and nothing when it fails |
| Catalog.AddChunksSpec | src/main.ts:539-620 | over all slices, the listing is exactly the records of the kept items of the answered slices, in slice order then item order; the registry only grows |
| Catalog.ListingComesFromPlaylist | src/main.ts:515-621 | every record of a listing belongs to a video of the playlist |
| Catalog.ListingIsComplete | src/main.ts:515-621 | conversely, every kept item of every answered slice has its record in the listing |
| Catalog.ListChannelVideos | src/main.ts:466-626 | there is no listing exactly when the API handle is missing, the uploads lookup gives nothing or a page request fails; otherwise the listing is exactly the records of the kept items of the answered detail slices of the paginated ids, each from the uploads playlist, and the registry only grows |
| VideoUpdate.Parts | src/main.ts:634-649 | `part` starts with `snippet` and holds `status` exactly when a privacy status is given |
| VideoUpdate.BuildRequest | src/main.ts:634-649 | the request carries the id, title, description and category as given, and a privacy status exactly when one is given |
| VideoUpdate.PartArgument | src/main.ts:651-654 | the comma-joined `part` string splits back into the part list |
| VideoUpdate.UpdateVideo | src/main.ts:628-661 | without an API handle nothing is sent and the update fails; otherwise the built request is sent, and it succeeds exactly when the API accepts it |
| Categories.RegionCode | src/main.ts:719-728 | the channel's country wins when it has one |
| Categories.RegionFromLocale | src/main.ts:719-728 | without a country, "lang-REGION…" gives REGION, and a locale without `-` gives "US" |
| Categories.HlLocale | src/main.ts:730 | the display language is the locale with its first `-` replaced by `_`, or "en_US" for an empty locale |
| Categories.CategoryMap | src/main.ts:738-749 | the categories are exactly the assignable items, keyed by id; an item without a snippet aborts the whole list |
| Categories.CategoryMapLastWins | src/main.ts:740-749 | with repeated ids the last assignable item wins |
| Categories.GetVideoCategories | src/main.ts:707-757 | without an API handle the answer is empty; a non-empty cache is answered as is; otherwise one request is made with the region and display language above: its assignable categories become both the answer and the cache; a failed request, or an item without a snippet, answers `{}` and keeps the cache; a response without items answers `{}` and caches `{}` |
| Categories.CacheIsSticky | src/main.ts:713-715 | once a non-empty list is cached, later calls answer it without a request |
| Categories.EmptyAnswerIsRefetched | src/main.ts:713-715 | an empty answer is cached but does not prevent the next request |
| WindowGeometry.HalfRounded | src/main.ts:933-934 | `Math.round(n / 2)`: twice the result is n or n + 1 |
| WindowGeometry.Clamp | src/main.ts:940-941 | width is at least 360 and height at least 600; everything else is kept |
| WindowGeometry.RecoveredStateSpec | src/main.ts:894-944 | a recovered state is at least 360 × 600 and keeps `isMaximized`; a position that overlaps a display, or an unavailable screen module, keeps x and y; any other position is centred on the primary work area |
| WindowGeometry.RecoveryStableOnValidPosition | src/main.ts:911-927 | recovering an already recovered, visible state changes nothing |
| WindowGeometry.GetWindowState | src/main.ts:894-944 | the method computes the recovered state |
| YouTube.YouTubeManager.constructor | src/main.ts:102-112 | a new manager has an empty client, no API handle, an empty catalog, registry and category cache |
| YouTube.YouTubeManager.Authenticate | src/main.ts:226-298 | the answer and the new client, handle and token file are those of the `authenticate` function |
| YouTube.YouTubeManager.GetNewToken | src/main.ts:300-321 | the answer and the new client and token file are those of the `getNewToken` function |
| YouTube.YouTubeManager.CreateLocalThumbnailUrls | src/main.ts:419-436 | the registry is the old one with the video's entries registered; the answer is the local thumbnail map |
| YouTube.YouTubeManager.DownloadThumbnail | src/main.ts:389-417 | a network error or the placeholder body answers false and writes nothing; any other body is written under the file name |
| YouTube.YouTubeManager.GetThumbnailPath | src/main.ts:691-705 | the path and the new cache are those of the resolution function |
| YouTube.YouTubeManager.GetChannelVideos | src/main.ts:466-626 | when the listing function gives `None`, the answer is `[]` and catalog and registry are left as they were; otherwise both are replaced by the listing function's result, and the answer is the new catalog |
| YouTube.YouTubeManager.AppendDetails | src/main.ts:550-613 | the loop over one slice's detail items leaves the catalog and registry exactly as the per-item rule (skip ids outside the playlist and items without a snippet, otherwise register thumbnails and append the record) applied in order gives |
| YouTube.YouTubeManager.UpdateVideo | src/main.ts:628-661 | the answer is the update function's, and no state changes |
| YouTube.YouTubeManager.GetVideoCategories | src/main.ts:707-757 | the answer and the new cache are those of the category function |
| IpcHandlers.UpdateVideoHandler | src/main.ts:987-1006 | the handler reports the update's success; on success the first record with the id takes all four submitted values, and every other record is kept |
| IpcHandlers.UpdateVideosBatch | src/main.ts:1008-1062 | the response and the new catalog are those of the batch function over the old catalog, and the requests sent are its requests |
| Batch.FindIndex | src/main.ts:1030 | the position of the first record with the id, or none |
| Batch.ApplyEdit | src/main.ts:1029-1036 | the first record with the id takes the four values, undefined ones included; every other record and every id is kept |
| Batch.Classify | src/main.ts:1014-1052 | a request without a truthy id, or with an undefined title or description, fails with "Missing required fields", under `unknown` when the id is missing; a valid one succeeds exactly when the update succeeds, and otherwise fails with "YouTube API update failed" |
| Batch.PartitionCounts | src/main.ts:1055-1061 | every request is counted exactly once, as a success or as a failure |
| Batch.BatchMatchesClassification | src/main.ts:1014-1053 | the result lists are the successes and failures of classifying each request alone, in input order; exactly the valid requests reach the API |
| Batch.BatchSummary | src/main.ts:1055-1061 | `total` is the number of requests and equals successful + failed; `success` holds exactly when some request succeeded |
| Batch.UnauthorizedBatchFails | src/main.ts:1014-1053 | without an API handle nothing is sent, every request fails and the catalog is untouched |
| Batch.BatchTouchesOnlySucceededRecords | src/main.ts:1027-1036 | the catalog keeps its length and ids; a record no successful request names is unchanged |
| Batch.SuccessOverwrites | src/main.ts:1030-1036 | after a successful request, the first record with its id holds exactly the submitted values |
| I18nState.LanguagesIn | src/i18n/i18n.ts:45-48 | the languages are exactly the `.json` file names with the first `.json` removed |
| I18nState.ScannedSpec | src/i18n/i18n.ts:39-65 | the list is sorted and holds exactly the listed languages; an unreadable directory gives `["en"]`; the fallback is kept when listed and is otherwise the first language; a non-empty list always holds the fallback |
| I18nState.LoadedSpec | src/i18n/i18n.ts:139-157 | the language's file when it loads, else the fallback's, else the translations as they were |
| I18nState.EnvLanguage | src/i18n/i18n.ts:80 | the first of LANG, LANGUAGE, LC_ALL that is set and non-empty |
| I18nState.DetectedLanguage | src/i18n/i18n.ts:67-108 | the detected language is available or is the fallback, and is the fallback before the app is ready |
| I18nState.LocaleDecides | src/i18n/i18n.ts:92-103 | a non-blank locale decides alone: its lowercased code before `-` is chosen exactly when available |
| I18nState.LocaleRegionIsDropped | src/i18n/i18n.ts:92 | the locale "de-AT" selects "de" |
| I18nState.BlankLocaleUsesEnvironment | src/i18n/i18n.ts:76-90 | a blank locale defers to the environment value's code, chosen exactly when available |
| I18nState.EnvCodeDropsRegionAndEncoding | src/i18n/i18n.ts:82 | "fr_CA.UTF-8" names "fr" |
| I18nState.EnvironmentCodeIsStripped | src/i18n/i18n.ts:76-90 | with an empty locale, LANG "fr_CA.UTF-8" selects "fr" |
| I18nState.I18n.constructor | src/i18n/i18n.ts:20-23 | a new service has scanned the directory and loaded the fallback language |
| I18nState.I18n.ScanAvailableLanguages | src/i18n/i18n.ts:39-65 | the list and the fallback are those of the scan function, and the list stays sorted |
| I18nState.I18n.RefreshAvailableLanguages | src/i18n/i18n.ts:131-133 | a refresh is a scan |
| I18nState.I18n.LoadLanguage | src/i18n/i18n.ts:139-157 | the translations are those of the load function |
| I18nState.I18n.Initialize | src/i18n/i18n.ts:25-37 | a second call changes nothing; the first switches to the detected language and loads it |
| I18nState.I18n.SetLanguage | src/i18n/i18n.ts:110-118 | an available language is switched to and loaded; any other changes nothing |
| I18nState.I18n.GetAvailableLanguages | src/i18n/i18n.ts:120-122 | the answer is the sorted list |
| I18nState.I18n.AddAvailableLanguage | src/i18n/i18n.ts:124-129 | a listed language changes nothing; a new one is inserted in sorted position, and nothing else changes |
| I18nState.AddKeepsDistinct | src/i18n/i18n.ts:124-129 | adding keeps the list free of repeats and makes the language listed |
| Translation.WalkAppend | src/i18n/i18n.ts:163-170 | walking a dotted key is walking its prefix, then the rest |
| Translation.PlaceholderAt | src/i18n/i18n.ts:185 | a placeholder match is `{`, word characters, `}` |
| Translation.PlaceholderAtIsTheMatch | src/i18n/i18n.ts:185 | a prefix of the text matches `\{(\w+)\}` exactly when it is the one measured; a measure of 0 means no prefix matches |
| Translation.InterpolateStrayBrace | src/i18n/i18n.ts:184-188 | a `{` that opens no placeholder is copied and scanning goes on after it |
| Translation.StrayBracesKept | src/i18n/i18n.ts:184-188 | `{}` and `{a b}` come back verbatim |
| Translation.InterpolateNoParams | src/i18n/i18n.ts:184-188 | with no parameters a template comes back unchanged |
| Translation.InterpolatePlainPrefix | src/i18n/i18n.ts:184-188 | text without `{` is copied as is |
| Translation.InterpolatePlaceholder | src/i18n/i18n.ts:184-188 | `{name}` becomes its parameter, or stays verbatim without one, and scanning resumes after it |
| Translation.Translate | src/i18n/i18n.ts:159-182 | whenever the walk does not end at a string, the key itself is returned |
| Translation.TranslateSpec | src/i18n/i18n.ts:159-182 | a string found is returned verbatim without parameters and interpolated with them; a missing key gives the key |
| Translation.TranslateNested | src/i18n/i18n.ts:159-182 | "a.b" finds `{ a: { b: s } }`; an empty parameter object changes nothing |
| Translation.MissingSegmentGivesKey | src/i18n/i18n.ts:163-170 | a key whose first segment is missing translates to itself |
| Strings.SplitJoin | src/i18n/i18n.ts:160 | `split` then `join` with the same separator gives the string back; no piece holds the separator |
| Strings.IndexOf | src/renderer.ts:1034-1113 | `indexOf` gives the first occurrence, or −1 exactly when there is none |
| Strings.RemoveFirst | src/i18n/i18n.ts:47 | `replace` with a string pattern removes only its first occurrence |
| Strings.TrimEmptyIff | src/i18n/i18n.ts:76 | a string trims to "" exactly when it is all white space |
| Strings.Sort | src/i18n/i18n.ts:48 | `sort` gives a sorted permutation |
| Strings.SortedUnique | src/i18n/i18n.ts:124-129 | two sorted permutations of one list are equal |
| ChangeTracking.FirstIndexOf | src/renderer.ts:322 | `findIndex`: the first position of the id, or the length when absent |
| ChangeTracking.Add | src/renderer.ts:184 | `Set.add`: the id is listed afterwards; the order and everything else are kept; no repeats appear |
| ChangeTracking.Remove | src/renderer.ts:193 | `Set.delete`: only the id is dropped |
| ChangeTracking.OneFieldEditAsWritten | src/renderer.ts:717-737 | each field handler as written lists the id exactly when its own field differs from the record's, and leaves every other id as it was |
| ChangeTracking.TitleEditForgetsDescription | src/renderer.ts:717-726 | see Findings: a row with a pending description edit is unlisted by a title edit back to the record's value |
| ChangeTracking.DescriptionEditForgetsTitle | src/renderer.ts:728-737 | see Findings: the mirror image |
| ChangeTracking.FieldEdit | src/renderer.ts:717-737 | corrected edit: the id is listed exactly when either input differs from the record; no other id changes |
| ChangeTracking.FieldEditAgreesWhenOtherFieldClean | src/renderer.ts:717-737 | the as-written title handler agrees with the corrected one whenever the description matches the record, and the description handler whenever the title does |
| ChangeTracking.StillChanged | src/renderer.ts:214-226 | a row is still changed only when it has inputs and a record, and differs from both the saved values and the record; typing nothing since the save makes it clean |
| ChangeTracking.ProcessedFrom | src/renderer.ts:309-346 | the processed ids are those listed that were sent, each once |
| ChangeTracking.ProcessedSpec | src/renderer.ts:309-346 | with reported successes, the sent ones among them are processed; with none, exactly the edited list is, in its order |
| ChangeTracking.EditsFor | src/renderer.ts:270-285 | the values written are exactly the sent values of the processed ids |
| ChangeTracking.Reconcile | src/renderer.ts:322-326 | the first record with an edited id takes the edit |
| ChangeTracking.ReconcileAdd | src/renderer.ts:322-326 | writing one more id changes only the first record with that id, or nothing when no record has it |
| ChangeTracking.ReconcileSpec | src/renderer.ts:322-326 | records of unedited ids keep their fields; writing the same edits again changes nothing more; no edits change nothing |
| Find.MatchOf | src/renderer.ts:1034-1113 | an input matches exactly when its lowercased value contains the lowercased query; the match records the first position of it |
| Find.RowMatches | src/renderer.ts:1034-1113 | a row gives its title match and then its description match |
| Find.FindMatchesSpec | src/renderer.ts:1034-1113 | every matching input of a rendered row is found, and everything found is one |
| Find.FindMatchesOrdered | src/renderer.ts:1078-1090 | with distinct row ids the matches are strictly ordered by row position, then title before description, so they are what the sort produces |
| Find.NextIndex | src/renderer.ts:1115-1129 | one step forward, wrapping from the last match to the first |
| Find.PreviousIndex | src/renderer.ts:1131-1145 | one step back, wrapping from the first match, or from no selection, to the last |
| Find.NextPreviousInverse | src/renderer.ts:1115-1145 | next and previous undo each other on a selected match |
| Find.ResultsMessage | src/renderer.ts:1214-1237 | the label is "no results" exactly for 0 matches, "one result" exactly for 1, and "current of total" otherwise |
| Renderer.Slice | src/renderer.ts:608-630 | a page holds at most 20 videos and is empty exactly past the end of the catalog |
| Renderer.Window | src/renderer.ts:608-630 | the rendered videos are a prefix of the catalog, all of it exactly once the pages cover it |
| Renderer.WindowGrows | src/renderer.ts:608-630 | appending the next page to the window gives the next window |
| Renderer.Video.constructor | src/renderer.ts:446-452 | a record object holds the id and values it was built with |
| Renderer.YouTubeBatchManager.constructor | src/renderer.ts:80-96 | an empty edited list, catalog and window, page 0, no find |
| Renderer.YouTubeBatchManager.RecordOf | src/renderer.ts:214-226 | the fields of the first record with the id, or none exactly when no record has it |
| Renderer.YouTubeBatchManager.LoadVideos | src/renderer.ts:446-452 | new record objects with the loaded ids and values replace the catalog; the first page is rendered; a scroll load in progress ends exactly when that page is non-empty; the edited list is kept |
| Renderer.YouTubeBatchManager.RenderVideos | src/renderer.ts:608-709 | a clear empties the window; a non-empty page is appended and the page advances; an empty page changes nothing else |
| Renderer.YouTubeBatchManager.HandleScroll | src/renderer.ts:743-754 | the next page is appended exactly when nothing is loading, some video is unrendered and the bottom is within 1000 pixels; the window is always the first pages of the catalog |
| Renderer.YouTubeBatchManager.MarkChanged | src/renderer.ts:183-190 | the id is added to the edited list |
| Renderer.YouTubeBatchManager.UnmarkChanged | src/renderer.ts:192-199 | the id is removed from the edited list |
| Renderer.YouTubeBatchManager.HandleFieldChange | src/renderer.ts:717-737 | corrected handlers: a row with inputs and a record is listed exactly when either input differs from the record; otherwise nothing changes |
| Renderer.YouTubeBatchManager.Cleared | src/renderer.ts:348-357 | an id is cleared exactly when it was processed, was sent, and its row no longer shows changes |
| Renderer.YouTubeBatchManager.SaveAllChanges | src/renderer.ts:262-373 | with nothing edited, a missing input, a failure or a throw, nothing changes; otherwise the catalog is reconciled with the processed ids' sent values and exactly the cleared ids leave the edited list; unprocessed ids stay; with no typing during the save every processed id leaves |
| Renderer.YouTubeBatchManager.CommitSaved | src/renderer.ts:306-357 | after a successful batch the catalog is reconciled with the values sent for the processed ids (the reported successes, or every edited id when none are reported); exactly the cleared ids leave the edited list; unprocessed ids stay; with no typing during the save every processed id leaves |
| Renderer.YouTubeBatchManager.SetRecord | src/renderer.ts:322-326 | only the one record's fields change |
| Renderer.YouTubeBatchManager.WriteSaved | src/renderer.ts:309-346 | the loop processes the listed sent ids once each and writes their sent values to the first record of each |
| Renderer.YouTubeBatchManager.ClearSaved | src/renderer.ts:348-357 | the loop removes exactly the cleared ids |
| Renderer.YouTubeBatchManager.UpdateVideo | src/renderer.ts:543-593 | on success the first record with the id takes the sent values, and the id leaves the edited list unless its row still shows changes (always, with no typing meanwhile); otherwise nothing changes |
| Renderer.YouTubeBatchManager.UpdateFindResults | src/renderer.ts:1214-1237 | the label for the ordinal; the buttons are enabled exactly with matches |
| Renderer.YouTubeBatchManager.ClearFind | src/renderer.ts:1199-1212 | no matches, no selection, "no results", buttons disabled |
| Renderer.YouTubeBatchManager.PerformFind | src/renderer.ts:1034-1113 | a blank query clears; otherwise the matches are those of the rendered rows, the first is selected, and the label and buttons follow |
| Renderer.YouTubeBatchManager.FindNext | src/renderer.ts:1115-1129 | without text or matches nothing changes; otherwise one step forward, and the label shows the new position |
| Renderer.YouTubeBatchManager.FindPrevious | src/renderer.ts:1131-1145 | the same, one step back |
| Renderer.YouTubeBatchManager.OnFindInput | src/renderer.ts:879-887 | the text is remembered; an empty or blank text clears; any other is searched |
| Renderer.YouTubeBatchManager.OnFindEnter | src/renderer.ts:889-905 | with a non-blank value, existing matches are stepped through (back with Shift), and with none the value is searched |
| Renderer.ShownOrdinalInRange | src/renderer.ts:1214-1237 | a "current of total" label names a position within the matches |

## Left out

- Network, file system, MD5, JSON parsing: each is an input of the operation that uses it.
  - The Google API answers are sequences or functions from request to answer.
  - The token endpoint is a function from code to tokens.
  - The disk is a snapshot.
  - Write failures are not modelled.
- Opening the browser at the authorization URL (`shell.openExternal`) and the `generateAuthUrl` scopes.
- `getChannelInfo`: only its country reaches the model, as a parameter of the category request.
- `selectCredentialsFile`, `saveVideosToFile`, `loadVideosFromFile`, `setupWindowStateTracking`, the other IPC handlers, menus and shortcuts: not part of this model.
- `src/preload.ts` is not part of this model.
- Asynchrony. Each operation is modelled as if it ran alone:
  - the per-video `saveInProgress` set and the `batchSaveInProgress` flag are left out;
  - the order in which the batch handler's requests settle is not modelled;
  - the only concurrent effect modelled is typing while a save waits, as the input values `after`.
- `SaveAllChanges`: when no successes are reported, the source walks the edited list as it is when the reply arrives. The model walks the list that was sent, which differs only if rows were edited meanwhile.
- `SaveAllChanges`, `UpdateVideo`: a missing save button (a `TypeError` before anything is sent) is not modelled. A missing row input is modelled and changes nothing.
- The batch handler's `catch` is not modelled. `updateVideo` catches its own errors, so that `catch` is unreachable in the modelled behaviour.
- JavaScript prototype-chain lookups, such as a video id or translation key named `__proto__` or `constructor`, are not modelled: maps hold only own keys.
- `t` walks nested objects only. The model does not index arrays by a numeric key segment.
- `sort()` and `<` compare UTF-16 code units. The model compares characters, which agrees for the Basic Multilingual Plane.
- `toLowerCase` is a parameter (`lower`, `lowercase`). `path.join` is string concatenation.
- A missing `video-list` element (`renderVideos` then returns at once) is not modelled.
- Theme, status messages, DOM rendering, highlight overlays, textarea sizing, title counters, `showFindBar` and `hideFindBar` are not modelled.
- `sortVideos` and `sortAllVideos`: the catalog is modelled in load order.
- `getCurrentLanguage` is not modelled; it reads one field.
- `Find.FindMatches`: the source collects title matches and description matches in two passes, then stable-sorts them by the rendered position of the row and by field. The model builds the sorted result directly. `Find.FindMatchesOrdered` shows the result is strictly ordered by that key when row ids are distinct. Duplicate row ids in the DOM are not modelled.
- Renderer.YouTubeBatchManager.PerformFind: its ensures states the result as `Find.FindMatches`; membership and order come from `Find.FindMatchesSpec` and `Find.FindMatchesOrdered`, not from the method's own contract.
- Renderer.YouTubeBatchManager.LoadVideos: it does not clear the edited list, exactly as the source does not.
- The results label before the first search is `None`.
- `OAuthCallback.Token` holds only the access and refresh tokens. `JSON.stringify(tokens)` also writes the other fields the token endpoint returns (`expiry_date`, `scope`, `token_type`, `id_token`); `Auth.TokenJson` writes only these two.
- Catalog.ListChannelVideos: a failed page request is modelled as the whole listing answering `[]`, which is what the outer `catch` does; the channel lookup failing and returning no items both give `None`.

## Findings

| source | as written | input that shows it | evidently intended | confidence | as-written member | corrected member |
|---|---|---|---|---|---|---|
| src/renderer.ts:717-737 | `handleTitleChange` lists or unlists the row by comparing the title alone; `handleDescriptionChange` compares the description alone | record `("Title", "old description")`; the description is edited to "new description" (row listed), then a title keystroke leaves the title "Title": the row is unlisted although its description still differs, so "save all" skips it | a row is listed exactly when either input differs from its record, as `hasCurrentChanges` judges rows | not executed | ChangeTracking.TitleEditForgetsDescription | ChangeTracking.FieldEdit |
