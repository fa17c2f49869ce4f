/** The main-process handlers of the update channels: `youtube:update-video`
    and `youtube:update-videos-batch`. They call `updateVideo` and, on
    success, edit the manager's catalog record in place. */
module IpcHandlers {
  import opened Wrappers
  import opened Catalog
  import opened VideoUpdate
  import opened Batch
  import opened YouTube

  /** `youtube:update-video`: no validation; on success the first catalog
      record with the id gets the four values. `video_id` is declared a
      string by the channel's request type. */
  method UpdateVideoHandler(m: YouTubeManager, videoId: string, title: Option<string>, description: Option<string>,
                            privacyStatus: Option<string>, categoryId: Option<string>,
                            accept: UpdateVideoRequest -> bool)
    returns (success: bool)
    modifies m`videos
    ensures success == VideoUpdate.UpdateVideo(m.authorized, videoId, title, description, privacyStatus, categoryId, accept).ok
    ensures success ==> m.videos == ApplyEdit(old(m.videos), videoId, title, description, privacyStatus, categoryId)
    ensures !success ==> m.videos == old(m.videos)
  {
    var attempt := m.UpdateVideo(videoId, title, description, privacyStatus, categoryId, accept);
    success := attempt.ok;
    if success {
      m.videos := ApplyEdit(m.videos, videoId, title, description, privacyStatus, categoryId);
    }
  }

  /** `youtube:update-videos-batch`: the requests in order, each validated,
      sent, and on success applied to the catalog; `sent` lists the requests
      that reached the API. */
  method UpdateVideosBatch(m: YouTubeManager, updates: seq<UpdateItem>, accept: UpdateVideoRequest -> bool)
    returns (response: BatchResponse, sent: seq<UpdateVideoRequest>)
    modifies m`videos
    ensures var s := BatchUpdate(old(m.videos), updates, m.authorized, accept);
      && response == Respond(s, |updates|)
      && m.videos == s.videos
      && sent == s.sent
  {
    var successful: seq<SuccessEntry> := [];
    var failed: seq<FailureEntry> := [];
    sent := [];
    var i := 0;
    while i < |updates|
      invariant 0 <= i <= |updates|
      invariant BatchState(m.videos, successful, failed, sent) ==
        Run(BatchState(old(m.videos), [], [], []), updates[..i], m.authorized, accept)
    {
      var u := updates[i];
      assert updates[..i + 1][..i] == updates[..i];
      if !ValidItem(u) {
        failed := failed + [FailureEntry(if Given(u.videoId) then u.videoId.value else UnknownId, MissingFieldsError)];
      } else {
        var id := u.videoId.value;
        var attempt := m.UpdateVideo(id, u.title, u.description, u.privacyStatus, u.categoryId, accept);
        if attempt.sent.Some? {
          sent := sent + [attempt.sent.value];
        }
        if attempt.ok {
          m.videos := ApplyEdit(m.videos, id, u.title, u.description, u.privacyStatus, u.categoryId);
          successful := successful + [SuccessEntry(id, u.title.value)];
        } else {
          failed := failed + [FailureEntry(id, ApiFailedError)];
        }
      }
      i := i + 1;
    }
    assert updates[..i] == updates;
    response := BatchResponse(|successful| > 0, successful, failed, Summary(|updates|, |successful|, |failed|));
  }
}
