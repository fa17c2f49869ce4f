/** The renderer's view-model (`YouTubeBatchManager`) with the page
    abstracted away: the edited-video list, the infinite-scroll window over
    the catalog, and find-in-fields. The values the user has typed into a
    row's title and description inputs are passed in as a map from video id
    to `Fields`; a video without rendered inputs is absent from it. */
module Renderer {
  import opened Wrappers
  import opened Strings
  import opened ChangeTracking
  import opened Find

  /** `state.videosPerPage` */
  const VideosPerPage: nat := 20

  /** `handleScroll` loads more once the bottom is this close (pixels). */
  const ScrollMargin: int := 1000

  /** A catalog record as the renderer holds it: one JavaScript object shared
      by `allVideos` and `displayedVideos` and edited in place after a save. */
  class Video {
    const id: string
    var title: string
    var description: string

    constructor(id: string, fields: Fields)
      ensures this.id == id && title == fields.title && description == fields.description
    {
      this.id := id;
      title := fields.title;
      description := fields.description;
    }
  }

  /** A record as it arrives over IPC. */
  datatype VideoRecord = VideoRecord(id: string, fields: Fields)

  function IdsOf(videos: seq<Video>): (r: seq<string>)
    ensures |r| == |videos| && forall k :: 0 <= k < |videos| ==> r[k] == videos[k].id
  {
    seq(|videos|, k requires 0 <= k < |videos| => videos[k].id)
  }

  function FieldsOf(videos: seq<Video>): (r: seq<Fields>)
    reads set v | v in videos
    ensures |r| == |videos|
    ensures forall k :: 0 <= k < |videos| ==> r[k] == Fields(videos[k].title, videos[k].description)
  {
    seq(|videos|, k requires 0 <= k < |videos| reads set v | v in videos => Fields(videos[k].title, videos[k].description))
  }

  /** No object is listed twice. */
  predicate Injective(videos: seq<Video>)
  {
    forall i, j :: 0 <= i < j < |videos| ==> videos[i] != videos[j]
  }

  // ------------------------------------------------------------ paging

  function Clip(n: nat, len: nat): nat
  {
    if n < len then n else len
  }

  /** `allVideos.slice(page * per, page * per + per)` */
  function Slice<T>(all: seq<T>, page: nat): (r: seq<T>)
    ensures |r| <= VideosPerPage
    ensures |r| == 0 <==> page * VideosPerPage >= |all|
  {
    all[Clip(page * VideosPerPage, |all|)..Clip(page * VideosPerPage + VideosPerPage, |all|)]
  }

  /** The videos rendered once `page` pages have been appended from the
      start. */
  function Window<T>(all: seq<T>, page: nat): (r: seq<T>)
    ensures r <= all
    ensures |r| == |all| <==> page * VideosPerPage >= |all|
  {
    all[..Clip(page * VideosPerPage, |all|)]
  }

  /** Appending the next page's slice to the window gives the next window;
      an empty slice means the window already covers the catalog. */
  lemma WindowGrows<T>(all: seq<T>, page: nat)
    ensures Window(all, page) + Slice(all, page) == Window(all, page + 1)
    ensures |Slice(all, page)| == 0 ==> Window(all, page) == all
  {
    var a := Clip(page * VideosPerPage, |all|);
    var b := Clip(page * VideosPerPage + VideosPerPage, |all|);
    assert all[..a] + all[a..b] == all[..b];
  }

  /** How a successful or failed call to the main process ended. */
  datatype CallOutcome = Threw | Failed | Succeeded

  /** What `updateVideosBatch` resolved to: it threw, reported failure, or
      succeeded listing the ids that were updated (possibly none). */
  datatype BatchOutcome = BatchThrew | BatchFailed | BatchSucceeded(successIds: seq<string>)

  class YouTubeBatchManager {
    /** `state.changedVideos`, a set kept in insertion order. */
    var changedVideos: seq<string>
    var allVideos: seq<Video>
    var displayedVideos: seq<Video>
    var currentPage: nat
    var isLoading: bool
    var currentSearchText: string
    var searchMatches: seq<SearchMatch>
    var currentMatchIndex: int
    /** The results label (`None` until the first update) and whether the
        next/previous buttons are enabled. */
    var findMessage: Option<FindMessage>
    var navigationEnabled: bool

    /** The edited list has no repeats, each record object is listed once,
        the rendered rows are the first pages of the catalog, and the find
        cursor is a match's position or -1 with no matches. */
    predicate Valid()
      reads this
    {
      && Distinct(changedVideos)
      && Injective(allVideos)
      && displayedVideos == Window(allVideos, currentPage)
      && ((|searchMatches| == 0 && currentMatchIndex == -1) || 0 <= currentMatchIndex < |searchMatches|)
    }

    constructor()
      ensures Valid()
      ensures changedVideos == [] && allVideos == [] && displayedVideos == [] && currentPage == 0
      ensures !isLoading && currentSearchText == "" && searchMatches == [] && currentMatchIndex == -1
      ensures findMessage == None && !navigationEnabled
    {
      changedVideos := [];
      allVideos := [];
      displayedVideos := [];
      currentPage := 0;
      isLoading := false;
      currentSearchText := "";
      searchMatches := [];
      currentMatchIndex := -1;
      findMessage := None;
      navigationEnabled := false;
    }

    // ---------------------------------------------------------- records

    /** The fields of the first record with the id (`allVideos.find`). */
    function RecordOf(id: string): (r: Option<Fields>)
      reads this`allVideos, set v | v in allVideos
      ensures r.Some? <==> id in IdsOf(allVideos)
      ensures r.Some? ==> r.value == FieldsOf(allVideos)[FirstIndexOf(IdsOf(allVideos), id)]
    {
      var k := FirstIndexOf(IdsOf(allVideos), id);
      if k < |allVideos| then Some(Fields(allVideos[k].title, allVideos[k].description)) else None
    }

    /** `hasCurrentChanges(id, saved…)` against the inputs as they are now. */
    function HasCurrentChanges(id: string, saved: Fields, inputs: map<string, Fields>): bool
      reads this`allVideos, set v | v in allVideos
    {
      StillChanged(if id in inputs then Some(inputs[id]) else None, saved, RecordOf(id))
    }

    /** A load from the main process: fresh record objects replace the
        catalog (`result.videos`), then the first page is rendered from a
        cleared list. The edited list is kept; rendering a non-empty first
        page ends any scroll load in progress. */
    method LoadVideos(records: seq<VideoRecord>)
      requires Valid()
      modifies this`allVideos, this`displayedVideos, this`currentPage, this`isLoading
      ensures Valid()
      ensures IdsOf(allVideos) == seq(|records|, k requires 0 <= k < |records| => records[k].id)
      ensures FieldsOf(allVideos) == seq(|records|, k requires 0 <= k < |records| => records[k].fields)
      ensures forall v :: v in allVideos ==> fresh(v)
      ensures currentPage == (if |records| == 0 then 0 else 1)
      ensures displayedVideos == allVideos[..Clip(VideosPerPage, |records|)]
      ensures isLoading == (old(isLoading) && |records| == 0)
    {
      var videos: seq<Video> := [];
      var i := 0;
      while i < |records|
        invariant 0 <= i <= |records|
        invariant |videos| == i && Injective(videos)
        invariant isLoading == old(isLoading)
        invariant forall v :: v in videos ==> fresh(v)
        invariant forall k :: 0 <= k < i ==> videos[k].id == records[k].id
        invariant forall k :: 0 <= k < i ==> Fields(videos[k].title, videos[k].description) == records[k].fields
      {
        var v := new Video(records[i].id, records[i].fields);
        videos := videos + [v];
        i := i + 1;
      }
      allVideos := videos;
      currentPage := 0;
      RenderVideos(true);
      WindowGrows(allVideos, 0);
    }

    // ---------------------------------------------------------- paging

    /** `renderVideos(clear)`: a clear empties the rendered list first;
        then the current page's slice is appended and the page advances.
        An empty slice leaves everything else as it was, `isLoading`
        included. */
    method RenderVideos(clear: bool)
      modifies this`displayedVideos, this`currentPage, this`isLoading
      ensures var start := if clear then [] else old(displayedVideos);
        var add := Slice(allVideos, old(currentPage));
        && (|add| == 0 ==> displayedVideos == start && currentPage == old(currentPage) && isLoading == old(isLoading))
        && (|add| > 0 ==> displayedVideos == start + add && currentPage == old(currentPage) + 1 && !isLoading)
    {
      if clear {
        displayedVideos := [];
      }
      var add := Slice(allVideos, currentPage);
      if |add| == 0 {
        return;
      }
      displayedVideos := displayedVideos + add;
      currentPage := currentPage + 1;
      isLoading := false;
    }

    /** `handleScroll`: nothing while a page is loading or once every video
        is rendered; otherwise the next page is appended when the bottom of
        the document is within the margin. */
    method HandleScroll(scrollTop: int, windowHeight: int, documentHeight: int)
      requires Valid()
      modifies this`displayedVideos, this`currentPage, this`isLoading
      ensures Valid()
      ensures var loads := !old(isLoading) && |old(displayedVideos)| < |allVideos|
                           && scrollTop + windowHeight >= documentHeight - ScrollMargin;
        && (loads ==> displayedVideos == old(displayedVideos) + Slice(allVideos, old(currentPage))
                      && |displayedVideos| > |old(displayedVideos)|
                      && currentPage == old(currentPage) + 1 && !isLoading)
        && (!loads ==> displayedVideos == old(displayedVideos) && currentPage == old(currentPage)
                       && isLoading == old(isLoading))
    {
      if isLoading || |displayedVideos| >= |allVideos| {
        return;
      }
      if scrollTop + windowHeight >= documentHeight - ScrollMargin {
        isLoading := true;
        WindowGrows(allVideos, currentPage);
        RenderVideos(false);
      }
    }

    // ---------------------------------------------------------- edits

    method MarkChanged(id: string)
      requires Valid()
      modifies this`changedVideos
      ensures Valid()
      ensures changedVideos == Add(old(changedVideos), id)
    {
      changedVideos := Add(changedVideos, id);
    }

    method UnmarkChanged(id: string)
      requires Valid()
      modifies this`changedVideos
      ensures Valid()
      ensures changedVideos == Remove(old(changedVideos), id)
    {
      changedVideos := Remove(changedVideos, id);
    }

    /** `handleTitleChange` and `handleDescriptionChange`, with the
        comparison both of them evidently intend: the row is listed exactly
        when either input differs from its record. Nothing happens when the
        row has no inputs or no record. */
    method HandleFieldChange(id: string, inputs: map<string, Fields>)
      requires Valid()
      modifies this`changedVideos
      ensures Valid()
      ensures id in inputs && RecordOf(id).Some? ==>
        changedVideos == FieldEdit(old(changedVideos), id, inputs[id], RecordOf(id).value)
        && (id in changedVideos <==> inputs[id] != RecordOf(id).value)
      ensures !(id in inputs && RecordOf(id).Some?) ==> changedVideos == old(changedVideos)
    {
      var original := RecordOf(id);
      if id in inputs && original.Some? {
        if inputs[id] != original.value {
          MarkChanged(id);
        } else {
          UnmarkChanged(id);
        }
      }
    }

    /** The ids a save clears from the edited list: those processed whose
        row no longer shows changes. */
    function Cleared(processed: seq<string>, inputs: map<string, Fields>, after: map<string, Fields>): (r: set<string>)
      reads this`allVideos, set v | v in allVideos
      ensures forall id :: id in r <==> id in processed && id in inputs && !HasCurrentChanges(id, inputs[id], after)
      decreases |processed|
    {
      if |processed| == 0 then {}
      else
        var id := processed[|processed| - 1];
        Cleared(processed[..|processed| - 1], inputs, after)
          + (if id in inputs && !HasCurrentChanges(id, inputs[id], after) then {id} else {})
    }

    /** `saveAllChanges`: the inputs of every edited row are sent in one
        batch (`inputs`, a missing input is a `TypeError` before anything is
        sent); `after` holds the inputs when the reply arrives. On success
        each processed id's first record takes the values sent, and a
        processed id leaves the edited list unless its row still shows
        changes. Failure or a throw changes nothing. */
    method SaveAllChanges(inputs: map<string, Fields>, outcome: BatchOutcome, after: map<string, Fields>)
      requires Valid()
      modifies this`changedVideos, set v | v in allVideos
      ensures Valid()
      ensures var proceeds := |old(changedVideos)| > 0 && (forall id :: id in old(changedVideos) ==> id in inputs)
                              && outcome.BatchSucceeded?;
        && (!proceeds ==> changedVideos == old(changedVideos) && FieldsOf(allVideos) == old(FieldsOf(allVideos)))
        && (proceeds ==>
              var processed := Processed(old(changedVideos), outcome.successIds);
              && FieldsOf(allVideos) == Reconcile(IdsOf(allVideos), old(FieldsOf(allVideos)), EditsFor(processed, inputs))
              && changedVideos == RemoveAll(old(changedVideos), Cleared(processed, inputs, after))
              && (forall id :: id in old(changedVideos) && id !in processed ==> id in changedVideos)
              && (after == inputs ==> forall id :: id in processed ==> id !in changedVideos))
    {
      if |changedVideos| == 0 {
        return;
      }
      if exists id :: id in changedVideos && id !in inputs {
        return;
      }
      if !outcome.BatchSucceeded? {
        return;
      }
      CommitSaved(outcome.successIds, inputs, after);
    }

    /** The reply of a successful batch: the listed ids (every edited id
        when the list is empty) are written back and then cleared. */
    method CommitSaved(successIds: seq<string>, inputs: map<string, Fields>, after: map<string, Fields>)
      requires Valid() && forall id :: id in changedVideos ==> id in inputs
      modifies this`changedVideos, set v | v in allVideos
      ensures Valid()
      ensures var processed := Processed(old(changedVideos), successIds);
        && FieldsOf(allVideos) == Reconcile(IdsOf(allVideos), old(FieldsOf(allVideos)), EditsFor(processed, inputs))
        && changedVideos == RemoveAll(old(changedVideos), Cleared(processed, inputs, after))
        && (forall id :: id in old(changedVideos) && id !in processed ==> id in changedVideos)
        && (after == inputs ==> forall id :: id in processed ==> id !in changedVideos)
    {
      var list := if |successIds| > 0 then successIds else changedVideos;
      var processed := WriteSaved(list, inputs);
      ProcessedSpec(old(changedVideos), successIds);
      ClearSaved(processed, inputs, after);
      forall id | after == inputs && id in processed
        ensures id !in changedVideos
      {
        assert id in Cleared(processed, inputs, after);
      }
    }

    /** `allVideos[k].title = …; allVideos[k].description = …` */
    method SetRecord(k: nat, f: Fields)
      requires k < |allVideos| && Injective(allVideos)
      modifies allVideos[k]
      ensures FieldsOf(allVideos) == old(FieldsOf(allVideos))[k := f]
    {
      allVideos[k].title := f.title;
      allVideos[k].description := f.description;
    }

    /** The first loop of a successful save: each listed id that was sent
        is processed once, in first-seen order, and its first record takes
        the values sent. */
    method WriteSaved(list: seq<string>, inputs: map<string, Fields>) returns (processed: seq<string>)
      requires Injective(allVideos) && forall id :: id in changedVideos ==> id in inputs
      modifies set v | v in allVideos
      ensures processed == ProcessedFrom(list, changedVideos)
      ensures FieldsOf(allVideos) == Reconcile(IdsOf(allVideos), old(FieldsOf(allVideos)), EditsFor(processed, inputs))
    {
      var ids := IdsOf(allVideos);
      ghost var before := FieldsOf(allVideos);
      processed := [];
      var i := 0;
      while i < |list|
        invariant 0 <= i <= |list|
        invariant processed == ProcessedFrom(list[..i], changedVideos)
        invariant FieldsOf(allVideos) == Reconcile(ids, before, EditsFor(processed, inputs))
      {
        var id := list[i];
        ProcessedFromStep(list, i, changedVideos);
        if id in changedVideos {
          ReconcileAdd(ids, before, EditsFor(processed, inputs), id, inputs[id]);
          EditsForAdd(processed, id, inputs);
          processed := Add(processed, id);
          var k := FirstIndexOf(ids, id);
          if k < |allVideos| {
            SetRecord(k, inputs[id]);
          }
        }
        i := i + 1;
      }
      assert list[..i] == list;
    }

    /** The second loop of a successful save: each processed id whose row
        no longer shows changes leaves the edited list. */
    method ClearSaved(processed: seq<string>, inputs: map<string, Fields>, after: map<string, Fields>)
      requires Distinct(changedVideos) && forall id :: id in processed ==> id in inputs
      modifies this`changedVideos
      ensures changedVideos == RemoveAll(old(changedVideos), Cleared(processed, inputs, after))
    {
      var remaining := changedVideos;
      RemoveNothing(remaining);
      assert Cleared(processed[..0], inputs, after) == {};
      var c := 0;
      while c < |processed|
        invariant 0 <= c <= |processed|
        invariant changedVideos == old(changedVideos)
        invariant remaining == RemoveAll(changedVideos, Cleared(processed[..c], inputs, after))
      {
        var id := processed[c];
        ghost var done := Cleared(processed[..c], inputs, after);
        ClearedStep(processed, c, inputs, after);
        if !HasCurrentChanges(id, inputs[id], after) {
          RemoveStep(changedVideos, done, id);
          remaining := Remove(remaining, id);
        }
        c := c + 1;
      }
      assert processed[..c] == processed;
      changedVideos := remaining;
    }

    /** One more processed id adds itself to the cleared set exactly when
        its row no longer shows changes. */
    lemma ClearedStep(processed: seq<string>, c: nat, inputs: map<string, Fields>, after: map<string, Fields>)
      requires c < |processed| && processed[c] in inputs
      ensures var id := processed[c];
        && (!HasCurrentChanges(id, inputs[id], after) ==> Cleared(processed[..c + 1], inputs, after) == Cleared(processed[..c], inputs, after) + {id})
        && (HasCurrentChanges(id, inputs[id], after) ==> Cleared(processed[..c + 1], inputs, after) == Cleared(processed[..c], inputs, after))
    {
      assert processed[..c + 1][..c] == processed[..c];
    }

    /** `updateVideo(id)`: the row's inputs are sent; on success the first
        record with the id takes them, and the id leaves the edited list
        unless the row still shows changes when the reply arrives. */
    method UpdateVideo(id: string, inputs: map<string, Fields>, outcome: CallOutcome, after: map<string, Fields>)
      requires Valid()
      modifies this`changedVideos, set v | v in allVideos
      ensures Valid()
      ensures var proceeds := id in inputs && outcome == Succeeded;
        && (!proceeds ==> changedVideos == old(changedVideos) && FieldsOf(allVideos) == old(FieldsOf(allVideos)))
        && (proceeds ==>
              && FieldsOf(allVideos) == Reconcile(IdsOf(allVideos), old(FieldsOf(allVideos)), map[id := inputs[id]])
              && (HasCurrentChanges(id, inputs[id], after) ==> changedVideos == old(changedVideos))
              && (!HasCurrentChanges(id, inputs[id], after) ==> changedVideos == Remove(old(changedVideos), id))
              && (after == inputs ==> id !in changedVideos))
    {
      if id !in inputs || outcome != Succeeded {
        return;
      }
      var saved := inputs[id];
      var ids := IdsOf(allVideos);
      ghost var before := FieldsOf(allVideos);
      ReconcileAdd(ids, before, map[], id, saved);
      ReconcileSpec(ids, before, map[]);
      var k := FirstIndexOf(ids, id);
      if k < |allVideos| {
        SetRecord(k, saved);
      }
      if !HasCurrentChanges(id, saved, after) {
        changedVideos := Remove(changedVideos, id);
      }
    }

    // ---------------------------------------------------------- find

    /** `updateFindResults`: the label for the ordinal of `total`, and the
        buttons enabled exactly when there is something to step through. */
    method UpdateFindResults(ordinal: int, total: nat)
      modifies this`findMessage, this`navigationEnabled
      ensures findMessage == Some(ResultsMessage(ordinal, total))
      ensures navigationEnabled <==> total > 0
    {
      findMessage := Some(ResultsMessage(ordinal, total));
      navigationEnabled := total > 0;
    }

    /** `clearFind` */
    method ClearFind()
      requires Valid()
      modifies this`searchMatches, this`currentMatchIndex, this`findMessage, this`navigationEnabled
      ensures Valid()
      ensures searchMatches == [] && currentMatchIndex == -1
      ensures findMessage == Some(NoResults) && !navigationEnabled
    {
      searchMatches := [];
      currentMatchIndex := -1;
      UpdateFindResults(0, 0);
    }

    /** `performFind(text)` over the rendered rows in page order: a blank
        query clears; otherwise the matches are exactly the inputs whose
        lowercased value contains the lowercased query, ordered by row and
        title before description, and the first is selected. */
    method PerformFind(text: string, rows: seq<Row>, lower: string -> string)
      requires Valid()
      modifies this`searchMatches, this`currentMatchIndex, this`findMessage, this`navigationEnabled
      ensures Valid()
      ensures IsBlank(text) ==> searchMatches == [] && currentMatchIndex == -1 && findMessage == Some(NoResults)
      ensures !IsBlank(text) ==>
        && searchMatches == FindMatches(rows, text, lower)
        && currentMatchIndex == (if |searchMatches| > 0 then 0 else -1)
        && findMessage == Some(ResultsMessage(if |searchMatches| > 0 then 1 else 0, |searchMatches|))
      ensures navigationEnabled <==> |searchMatches| > 0
    {
      if IsBlank(text) {
        ClearFind();
        return;
      }
      var matches: seq<SearchMatch> := [];
      var i := 0;
      while i < |rows|
        invariant 0 <= i <= |rows|
        invariant matches == FindMatches(rows[..i], text, lower)
      {
        FindMatchesStep(rows, i, text, lower);
        matches := matches + RowMatches(rows[i], text, lower);
        i := i + 1;
      }
      assert rows[..i] == rows;
      searchMatches := matches;
      currentMatchIndex := if |matches| > 0 then 0 else -1;
      UpdateFindResults(if |matches| > 0 then 1 else 0, |matches|);
    }

    /** `findNext`: one step forward with wrap-around; nothing without a
        search text or matches. */
    method FindNext()
      requires Valid()
      modifies this`currentMatchIndex, this`findMessage, this`navigationEnabled
      ensures Valid()
      ensures currentSearchText == "" || |searchMatches| == 0 ==>
        currentMatchIndex == old(currentMatchIndex) && findMessage == old(findMessage)
        && navigationEnabled == old(navigationEnabled)
      ensures currentSearchText != "" && |searchMatches| > 0 ==>
        && currentMatchIndex == NextIndex(old(currentMatchIndex), |searchMatches|)
        && findMessage == Some(ResultsMessage(currentMatchIndex + 1, |searchMatches|))
        && navigationEnabled
    {
      if currentSearchText == "" || |searchMatches| == 0 {
        return;
      }
      currentMatchIndex := NextIndex(currentMatchIndex, |searchMatches|);
      UpdateFindResults(currentMatchIndex + 1, |searchMatches|);
    }

    /** `findPrevious`: one step back, to the last match from the first or
        from no selection; same guard as `findNext`. */
    method FindPrevious()
      requires Valid()
      modifies this`currentMatchIndex, this`findMessage, this`navigationEnabled
      ensures Valid()
      ensures currentSearchText == "" || |searchMatches| == 0 ==>
        currentMatchIndex == old(currentMatchIndex) && findMessage == old(findMessage)
        && navigationEnabled == old(navigationEnabled)
      ensures currentSearchText != "" && |searchMatches| > 0 ==>
        && currentMatchIndex == PreviousIndex(old(currentMatchIndex), |searchMatches|)
        && findMessage == Some(ResultsMessage(currentMatchIndex + 1, |searchMatches|))
        && navigationEnabled
    {
      if currentSearchText == "" || |searchMatches| == 0 {
        return;
      }
      currentMatchIndex := PreviousIndex(currentMatchIndex, |searchMatches|);
      UpdateFindResults(currentMatchIndex + 1, |searchMatches|);
    }

    /** The find box's `input` event: the text is remembered, then searched
        for, or the find is cleared when the box is empty. */
    method OnFindInput(value: string, rows: seq<Row>, lower: string -> string)
      requires Valid()
      modifies this`currentSearchText, this`searchMatches, this`currentMatchIndex, this`findMessage,
        this`navigationEnabled
      ensures Valid()
      ensures currentSearchText == value
      ensures value == "" || IsBlank(value) ==> searchMatches == [] && currentMatchIndex == -1
      ensures !IsBlank(value) ==> searchMatches == FindMatches(rows, value, lower)
    {
      currentSearchText := value;
      if value != "" {
        PerformFind(value, rows, lower);
      } else {
        ClearFind();
      }
    }

    /** Enter in the find box: with a non-blank value, step through the
        existing matches (back with Shift), or search when there are
        none. */
    method OnFindEnter(value: string, shift: bool, rows: seq<Row>, lower: string -> string)
      requires Valid()
      modifies this`searchMatches, this`currentMatchIndex, this`findMessage, this`navigationEnabled
      ensures Valid()
      ensures IsBlank(value) ==> searchMatches == old(searchMatches) && currentMatchIndex == old(currentMatchIndex)
      ensures !IsBlank(value) && |old(searchMatches)| > 0 ==> searchMatches == old(searchMatches)
      ensures !IsBlank(value) && |old(searchMatches)| > 0 && currentSearchText != "" ==>
        currentMatchIndex == (if shift then PreviousIndex(old(currentMatchIndex), |searchMatches|)
                              else NextIndex(old(currentMatchIndex), |searchMatches|))
      ensures !IsBlank(value) && |old(searchMatches)| == 0 ==> searchMatches == FindMatches(rows, value, lower)
    {
      if IsBlank(value) {
        return;
      }
      if |searchMatches| > 0 {
        if shift {
          FindPrevious();
        } else {
          FindNext();
        }
      } else {
        PerformFind(value, rows, lower);
      }
    }
  }

  /** While the manager is valid, a shown "current of total" label names a
      position within the matches. */
  lemma ShownOrdinalInRange(m: YouTubeBatchManager)
    requires m.Valid() && m.findMessage.Some?
    requires m.findMessage.value == ResultsMessage(m.currentMatchIndex + 1, |m.searchMatches|)
    ensures m.findMessage.value.ResultsCount? ==>
      1 <= m.findMessage.value.current <= m.findMessage.value.total == |m.searchMatches|
  {
  }
}
