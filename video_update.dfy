/** `updateVideo`: the partial update of one video's metadata through
    `videos.update`. The snippet part is always sent; the status part only
    when a privacy status is given. */
module VideoUpdate {
  import opened Wrappers
  import opened Strings

  /** The arguments of one `videos.update` call: the `part` list and the
      request body. `None` fields are `undefined` and are not sent;
      `status` is present exactly when `privacyStatus` is. */
  datatype UpdateVideoRequest = UpdateVideoRequest(
    part: string,
    id: string,
    title: Option<string>,
    description: Option<string>,
    categoryId: Option<string>,
    privacyStatus: Option<string>)

  /** The parts named in the request: `snippet`, then `status` when a
      privacy status is given. */
  function Parts(privacyStatus: Option<string>): (parts: seq<string>)
    ensures |parts| >= 1 && parts[0] == "snippet"
    ensures "status" in parts <==> Given(privacyStatus)
  {
    if Given(privacyStatus) then ["snippet", "status"] else ["snippet"]
  }

  /** The request `updateVideo` sends. */
  function BuildRequest(videoId: string, title: Option<string>, description: Option<string>,
                        privacyStatus: Option<string>, categoryId: Option<string>): (r: UpdateVideoRequest)
    ensures r.id == videoId && r.title == title && r.description == description && r.categoryId == categoryId
    ensures r.privacyStatus.Some? <==> Given(privacyStatus)
    ensures r.privacyStatus.Some? ==> r.privacyStatus == privacyStatus
  {
    UpdateVideoRequest(Join(Parts(privacyStatus), ','), videoId, title, description, categoryId,
                       if Given(privacyStatus) then privacyStatus else None)
  }

  /** The `part` argument lists `snippet` always and `status` exactly when
      the body carries a status; the list reads back by splitting at commas. */
  lemma PartArgument(videoId: string, title: Option<string>, description: Option<string>,
                     privacyStatus: Option<string>, categoryId: Option<string>)
    ensures var r := BuildRequest(videoId, title, description, privacyStatus, categoryId);
      && Split(r.part, ',') == Parts(privacyStatus)
      && Split(r.part, ',')[0] == "snippet"
      && ("status" in Split(r.part, ',') <==> r.privacyStatus.Some?)
  {
    var parts := Parts(privacyStatus);
    assert ',' !in "snippet" && ',' !in "status";
    JoinSplit(parts, ',');
  }

  /** What `updateVideo` did: whether it reports success, and the request
      it sent to the API, if any. */
  datatype UpdateAttempt = UpdateAttempt(ok: bool, sent: Option<UpdateVideoRequest>)

  /** `updateVideo`: without an authenticated client nothing is sent and the
      answer is false; otherwise the request is sent and the answer is
      whether the API accepted it (`accept`). No failure escapes as an
      exception. */
  function UpdateVideo(authorized: bool, videoId: string, title: Option<string>, description: Option<string>,
                       privacyStatus: Option<string>, categoryId: Option<string>,
                       accept: UpdateVideoRequest -> bool): (r: UpdateAttempt)
    ensures !authorized ==> r == UpdateAttempt(false, None)
    ensures authorized ==> r.sent == Some(BuildRequest(videoId, title, description, privacyStatus, categoryId))
    ensures r.ok ==> r.sent.Some? && accept(r.sent.value)
    ensures r.sent.Some? && accept(r.sent.value) ==> r.ok
  {
    if !authorized then UpdateAttempt(false, None)
    else
      var req := BuildRequest(videoId, title, description, privacyStatus, categoryId);
      UpdateAttempt(accept(req), Some(req))
  }
}
