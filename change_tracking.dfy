/** The renderer's list of edited videos (`changedVideos`, a set kept in
    insertion order), how a field edit updates it, and how the catalog
    records are reconciled after a save. */
module ChangeTracking {
  import opened Wrappers

  /** The title and description of a catalog record, or the current values
      of a rendered row's two inputs. */
  datatype Fields = Fields(title: string, description: string)

  /** No id is listed twice. */
  predicate Distinct(s: seq<string>)
  {
    forall i, j :: 0 <= i < j < |s| ==> s[i] != s[j]
  }

  /** `findIndex(v => v.id === id)`: the first position of `id`, or `|ids|`
      when it is absent. */
  function FirstIndexOf(ids: seq<string>, id: string): (r: nat)
    ensures r <= |ids|
    ensures r < |ids| ==> ids[r] == id
    ensures r == |ids| ==> id !in ids
    ensures forall k :: 0 <= k < r ==> ids[k] != id
  {
    if |ids| == 0 then 0
    else if ids[0] == id then 0
    else 1 + FirstIndexOf(ids[1..], id)
  }

  /** In a list without repeats, an element's first position is its
      position. */
  lemma FirstIndexOfDistinct(ids: seq<string>, k: int)
    requires Distinct(ids) && 0 <= k < |ids|
    ensures FirstIndexOf(ids, ids[k]) == k
  {
  }

  // ------------------------------------------------------------ the set

  /** `changedVideos.add(id)` */
  function Add(changed: seq<string>, id: string): (r: seq<string>)
    ensures Distinct(changed) ==> Distinct(r)
    ensures forall x :: x in r <==> x in changed || x == id
    ensures changed <= r
  {
    if id in changed then changed else changed + [id]
  }

  /** The list without the ids in `drop`, in the same order. */
  function RemoveAll(changed: seq<string>, drop: set<string>): (r: seq<string>)
    ensures forall x :: x in r <==> x in changed && x !in drop
    ensures Distinct(changed) ==> Distinct(r)
    ensures |r| <= |changed|
  {
    if |changed| == 0 then []
    else
      var init := changed[..|changed| - 1];
      var last := changed[|changed| - 1];
      assert changed == init + [last];
      RemoveAll(init, drop) + (if last in drop then [] else [last])
  }

  /** `changedVideos.delete(id)` */
  function Remove(changed: seq<string>, id: string): (r: seq<string>)
    ensures forall x :: x in r <==> x in changed && x != id
    ensures Distinct(changed) ==> Distinct(r)
  {
    RemoveAll(changed, {id})
  }

  lemma RemoveAllSnoc(p: seq<string>, x: string, drop: set<string>)
    ensures RemoveAll(p + [x], drop) == RemoveAll(p, drop) + (if x in drop then [] else [x])
  {
    assert (p + [x])[..|p|] == p;
  }

  /** Removing nothing keeps the list. */
  lemma {:induction false} RemoveNothing(s: seq<string>)
    ensures RemoveAll(s, {}) == s
    decreases |s|
  {
    if |s| > 0 {
      RemoveNothing(s[..|s| - 1]);
      assert s == s[..|s| - 1] + [s[|s| - 1]];
    }
  }

  /** Removing in two rounds is removing the union once. */
  lemma {:induction false} RemoveAllTwice(s: seq<string>, a: set<string>, b: set<string>)
    ensures RemoveAll(RemoveAll(s, a), b) == RemoveAll(s, a + b)
    decreases |s|
  {
    if |s| > 0 {
      var init := s[..|s| - 1];
      var last := s[|s| - 1];
      assert s == init + [last];
      RemoveAllTwice(init, a, b);
      if last in a {
        assert RemoveAll(s, a) == RemoveAll(init, a);
      } else {
        RemoveAllSnoc(RemoveAll(init, a), last, b);
      }
    }
  }

  /** Removing one more id from a filtered list filters by the larger set. */
  lemma RemoveStep(s: seq<string>, done: set<string>, id: string)
    ensures Remove(RemoveAll(s, done), id) == RemoveAll(s, done + {id})
  {
    RemoveAllTwice(s, done, {id});
  }

  // ------------------------------------------------------------ field edits

  /** `handleTitleChange` and `handleDescriptionChange` as written: each
      compares only its own input with the record's value of that field,
      listing the id when they differ and unlisting it when they are equal,
      whatever the other input holds. */
  function OneFieldEditAsWritten(changed: seq<string>, id: string, currentField: string, originalField: string): (r: seq<string>)
    ensures id in r <==> currentField != originalField
    ensures forall x :: x != id ==> (x in r <==> x in changed)
  {
    if currentField != originalField then Add(changed, id) else Remove(changed, id)
  }

  /** A row whose description was edited is unlisted by a title edit that
      leaves the title equal to the record's: the pending description edit
      is no longer part of "save all". */
  lemma TitleEditForgetsDescription()
    ensures var original := Fields("Title", "old description");
      var current := Fields("Title", "new description");
      && current != original
      && "v1" !in OneFieldEditAsWritten(["v1"], "v1", current.title, original.title)
  {
  }

  /** Symmetrically, a description edit back to the record's value unlists a
      row whose title still differs. */
  lemma DescriptionEditForgetsTitle()
    ensures var original := Fields("Title", "description");
      var current := Fields("New title", "description");
      && current != original
      && "v1" !in OneFieldEditAsWritten(["v1"], "v1", current.description, original.description)
  {
  }

  /** An edit to either input of a row, as `hasCurrentChanges` judges rows:
      the id is listed exactly when the row differs from the record in
      either field. Both edit handlers use this. */
  function FieldEdit(changed: seq<string>, id: string, current: Fields, original: Fields): (r: seq<string>)
    ensures Distinct(changed) ==> Distinct(r)
    ensures id in r <==> current != original
    ensures forall x :: x != id ==> (x in r <==> x in changed)
  {
    if current != original then Add(changed, id) else Remove(changed, id)
  }

  /** After any sequence of edits to one row, it is listed exactly when it
      differs from the record; the as-written handlers agree with this only
      when the other field matches the record. */
  lemma FieldEditAgreesWhenOtherFieldClean(changed: seq<string>, id: string, current: Fields, original: Fields)
    ensures current.description == original.description ==>
      OneFieldEditAsWritten(changed, id, current.title, original.title) == FieldEdit(changed, id, current, original)
    ensures current.title == original.title ==>
      OneFieldEditAsWritten(changed, id, current.description, original.description) == FieldEdit(changed, id, current, original)
  {
  }

  /** `hasCurrentChanges`: false when the row's inputs or its record are
      missing; otherwise the row is still changed when its inputs differ
      both from the values just saved and from the record. Typing nothing
      since the save leaves it clean, and once the record holds the saved
      values only new typing counts. */
  function StillChanged(current: Option<Fields>, saved: Fields, original: Option<Fields>): (r: bool)
    ensures r ==> current.Some? && original.Some?
    ensures current == Some(saved) ==> !r
    ensures original == Some(saved) ==> (r <==> current.Some? && current.value != saved)
  {
    match current
    case None => false
    case Some(c) =>
      match original
      case None => false
      case Some(o) => c != saved && c != o
  }

  // ------------------------------------------------------------ save all

  /** The ids a successful save goes through: the reported successes, or
      every changed id when none is reported, keeping those that were sent
      (`savedData` holds exactly the changed ids), each once, in first-seen
      order (`processedVideos`). */
  function ProcessedFrom(ids: seq<string>, changed: seq<string>): (r: seq<string>)
    ensures Distinct(r)
    ensures forall x :: x in r <==> x in ids && x in changed
  {
    if |ids| == 0 then []
    else
      var init := ids[..|ids| - 1];
      var last := ids[|ids| - 1];
      assert ids == init + [last];
      var p := ProcessedFrom(init, changed);
      p + (if last in changed && last !in p then [last] else [])
  }

  /** One more listed id is added when it was sent. */
  lemma ProcessedFromStep(ids: seq<string>, i: nat, changed: seq<string>)
    requires i < |ids|
    ensures ids[i] in changed ==> ProcessedFrom(ids[..i + 1], changed) == Add(ProcessedFrom(ids[..i], changed), ids[i])
    ensures ids[i] !in changed ==> ProcessedFrom(ids[..i + 1], changed) == ProcessedFrom(ids[..i], changed)
  {
    assert ids[..i + 1][..i] == ids[..i];
  }

  function Processed(changed: seq<string>, successIds: seq<string>): seq<string>
  {
    ProcessedFrom(if |successIds| > 0 then successIds else changed, changed)
  }

  /** With reported successes the changed ones among them are processed;
      with none, exactly the changed list is, in its order. */
  lemma ProcessedSpec(changed: seq<string>, successIds: seq<string>)
    requires Distinct(changed)
    ensures |successIds| > 0 ==> forall x :: x in Processed(changed, successIds) <==> x in successIds && x in changed
    ensures |successIds| == 0 ==> Processed(changed, successIds) == changed
  {
    if |successIds| == 0 {
      ProcessedOfDistinct(changed);
    }
  }

  lemma {:induction false} ProcessedOfDistinct(s: seq<string>)
    requires Distinct(s)
    ensures ProcessedFrom(s, s) == s
    decreases |s|
  {
    if |s| > 0 {
      var init := s[..|s| - 1];
      var last := s[|s| - 1];
      assert s == init + [last];
      ProcessedPrefix(init, s);
      ProcessedOfDistinct(init);
      assert last !in init;
    }
  }

  /** Filtering against a longer list that holds everything keeps all. */
  lemma {:induction false} ProcessedPrefix(s: seq<string>, changed: seq<string>)
    requires forall x :: x in s ==> x in changed
    ensures ProcessedFrom(s, changed) == ProcessedFrom(s, s)
    decreases |s|
  {
    if |s| > 0 {
      var init := s[..|s| - 1];
      var last := s[|s| - 1];
      assert s == init + [last];
      ProcessedPrefix(init, changed);
      ProcessedAgainstLonger(init, init, s);
    }
  }

  /** The filter only depends on membership. */
  lemma {:induction false} ProcessedAgainstLonger(ids: seq<string>, a: seq<string>, b: seq<string>)
    requires forall x :: x in ids ==> (x in a <==> x in b)
    ensures ProcessedFrom(ids, a) == ProcessedFrom(ids, b)
    decreases |ids|
  {
    if |ids| > 0 {
      var init := ids[..|ids| - 1];
      assert ids == init + [ids[|ids| - 1]];
      ProcessedAgainstLonger(init, a, b);
    }
  }

  /** The values a save writes, by id. */
  function EditsFor(processed: seq<string>, saved: map<string, Fields>): (e: map<string, Fields>)
    ensures forall id :: id in e <==> id in processed && id in saved
  {
    map id | id in processed && id in saved :: saved[id]
  }

  /** Processing one more id adds its saved values. */
  lemma EditsForAdd(processed: seq<string>, id: string, saved: map<string, Fields>)
    requires id in saved
    ensures EditsFor(Add(processed, id), saved) == EditsFor(processed, saved)[id := saved[id]]
  {
  }

  /** The catalog's fields after a save: the first record with an edited id
      takes the edit (`findIndex`), every other record keeps its fields. */
  function Reconcile(ids: seq<string>, before: seq<Fields>, edits: map<string, Fields>): (r: seq<Fields>)
    requires |ids| == |before|
    ensures |r| == |before|
    ensures forall id :: id in edits && id in ids ==> r[FirstIndexOf(ids, id)] == edits[id]
  {
    seq(|before|, k requires 0 <= k < |before| =>
      if ids[k] in edits && FirstIndexOf(ids, ids[k]) == k then edits[ids[k]] else before[k])
  }

  /** Writing one more edit only changes the first record with its id, and
      changes nothing when no record has it. */
  lemma ReconcileAdd(ids: seq<string>, before: seq<Fields>, edits: map<string, Fields>, id: string, f: Fields)
    requires |ids| == |before|
    ensures FirstIndexOf(ids, id) < |ids| ==>
      Reconcile(ids, before, edits[id := f]) == Reconcile(ids, before, edits)[FirstIndexOf(ids, id) := f]
    ensures FirstIndexOf(ids, id) == |ids| ==>
      Reconcile(ids, before, edits[id := f]) == Reconcile(ids, before, edits)
  {
    var k := FirstIndexOf(ids, id);
    forall j | 0 <= j < |ids| && ids[j] == id
      ensures FirstIndexOf(ids, ids[j]) == j <==> j == k
    {
    }
  }

  /** Records of ids that were not edited keep their fields, and saving the
      same values again changes nothing more. */
  lemma ReconcileSpec(ids: seq<string>, before: seq<Fields>, edits: map<string, Fields>)
    requires |ids| == |before|
    ensures forall k :: 0 <= k < |ids| && ids[k] !in edits ==> Reconcile(ids, before, edits)[k] == before[k]
    ensures Reconcile(ids, Reconcile(ids, before, edits), edits) == Reconcile(ids, before, edits)
    ensures edits == map[] ==> Reconcile(ids, before, edits) == before
  {
  }
}
