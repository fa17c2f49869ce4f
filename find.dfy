/** Find-in-fields over the rendered rows: which title and description
    inputs match a query, in which order, how the cursor moves through the
    matches, and which results message is shown. */
module Find {
  import opened Wrappers
  import opened Strings
  import opened ChangeTracking

  /** A rendered video row: its id and the current values of its inputs. */
  datatype Row = Row(videoId: string, fields: Fields)

  datatype FieldKind = TitleField | DescriptionField

  /** A matching input: its video, which input, its text, and the position
      of the first occurrence of the query in the lowercased text. */
  datatype SearchMatch = SearchMatch(videoId: string, kind: FieldKind, text: string, index: int)

  /** What the results label says (`find.noResults`, `find.oneResult`,
      `find.resultsCount` with current and total). */
  datatype FindMessage = NoResults | OneResult | ResultsCount(current: int, total: int)

  function RowIds(rows: seq<Row>): (r: seq<string>)
    ensures |r| == |rows| && forall p :: 0 <= p < |rows| ==> r[p] == rows[p].videoId
  {
    if |rows| == 0 then [] else [rows[0].videoId] + RowIds(rows[1..])
  }

  /** The text of one of a row's inputs. */
  function FieldText(row: Row, kind: FieldKind): string
  {
    if kind == TitleField then row.fields.title else row.fields.description
  }

  /** The match an input gives, if its lowercased text contains the
      lowercased query; `lower` is `String.prototype.toLowerCase`. */
  function MatchOf(row: Row, kind: FieldKind, query: string, lower: string -> string): (r: Option<SearchMatch>)
    ensures r.Some? <==> Includes(lower(FieldText(row, kind)), lower(query))
    ensures r.Some? ==> r.value.videoId == row.videoId && r.value.kind == kind && r.value.text == FieldText(row, kind)
    ensures r.Some? ==> OccursAt(lower(r.value.text), lower(query), r.value.index)
  {
    var text := FieldText(row, kind);
    if Includes(lower(text), lower(query)) then Some(SearchMatch(row.videoId, kind, text, IndexOf(lower(text), lower(query))))
    else None
  }

  function AsSeq(m: Option<SearchMatch>): (r: seq<SearchMatch>)
    ensures forall x :: x in r <==> m == Some(x)
    ensures |r| <= 1
  {
    match m
    case None => []
    case Some(x) => [x]
  }

  /** A row's matches, the title's before the description's. */
  function RowMatches(row: Row, query: string, lower: string -> string): (r: seq<SearchMatch>)
    ensures forall m :: m in r <==> MatchOf(row, TitleField, query, lower) == Some(m) || MatchOf(row, DescriptionField, query, lower) == Some(m)
    ensures forall x :: x in r ==> x.videoId == row.videoId
    ensures |r| <= 2 && (|r| == 2 ==> r[0].kind == TitleField && r[1].kind == DescriptionField)
  {
    AsSeq(MatchOf(row, TitleField, query, lower)) + AsSeq(MatchOf(row, DescriptionField, query, lower))
  }

  /** `searchMatches` after `performFind`: every matching input, ordered by
      its row's position and then title before description (what the two
      passes followed by the stable sort produce when row ids are
      distinct). */
  function FindMatches(rows: seq<Row>, query: string, lower: string -> string): seq<SearchMatch>
  {
    if |rows| == 0 then []
    else
      var init := rows[..|rows| - 1];
      FindMatches(init, query, lower) + RowMatches(rows[|rows| - 1], query, lower)
  }

  /** The sort key: the row's position among the rows, then the field. */
  function Key(rows: seq<Row>, m: SearchMatch): int
  {
    2 * FirstIndexOf(RowIds(rows), m.videoId) + Rank(m.kind)
  }

  /** Titles sort before descriptions. */
  function Rank(kind: FieldKind): nat
  {
    if kind == TitleField then 0 else 1
  }

  /** One more row contributes its own matches at the end. */
  lemma FindMatchesStep(rows: seq<Row>, i: nat, query: string, lower: string -> string)
    requires i < |rows|
    ensures FindMatches(rows[..i + 1], query, lower) == FindMatches(rows[..i], query, lower) + RowMatches(rows[i], query, lower)
  {
    assert rows[..i + 1][..i] == rows[..i];
  }

  /** The matches are exactly the matching inputs of the rows. */
  lemma {:induction false} FindMatchesMembers(rows: seq<Row>, query: string, lower: string -> string)
    ensures forall m :: m in FindMatches(rows, query, lower) <==>
      exists p :: 0 <= p < |rows| && m in RowMatches(rows[p], query, lower)
    decreases |rows|
  {
    if |rows| > 0 {
      var init := rows[..|rows| - 1];
      FindMatchesMembers(init, query, lower);
      assert forall p :: 0 <= p < |init| ==> rows[p] == init[p];
    }
  }

  /** Every matching input is found, and everything found is a matching
      input. */
  lemma FindMatchesSpec(rows: seq<Row>, query: string, lower: string -> string)
    ensures forall p, kind :: 0 <= p < |rows| && Includes(lower(FieldText(rows[p], kind)), lower(query)) ==>
      MatchOf(rows[p], kind, query, lower).value in FindMatches(rows, query, lower)
    ensures forall m :: m in FindMatches(rows, query, lower) ==>
      exists p :: 0 <= p < |rows| && rows[p].videoId == m.videoId && MatchOf(rows[p], m.kind, query, lower) == Some(m)
  {
    FindMatchesMembers(rows, query, lower);
    forall p, kind | 0 <= p < |rows| && Includes(lower(FieldText(rows[p], kind)), lower(query))
      ensures MatchOf(rows[p], kind, query, lower).value in FindMatches(rows, query, lower)
    {
      var m := MatchOf(rows[p], kind, query, lower).value;
      assert m in RowMatches(rows[p], query, lower) by {
        if kind == TitleField {
          assert MatchOf(rows[p], TitleField, query, lower) == Some(m);
        } else {
          assert MatchOf(rows[p], DescriptionField, query, lower) == Some(m);
        }
      }
    }
  }

  /** With distinct row ids the matches are strictly ordered by key, so the
      list is the only arrangement the comparator accepts. */
  lemma {:induction false} FindMatchesOrdered(rows: seq<Row>, query: string, lower: string -> string)
    requires Distinct(RowIds(rows))
    ensures var ms := FindMatches(rows, query, lower);
      forall i, j :: 0 <= i < j < |ms| ==> Key(rows, ms[i]) < Key(rows, ms[j])
    decreases |rows|
  {
    if |rows| > 0 {
      var n := |rows| - 1;
      var init := rows[..n];
      assert RowIds(init) == RowIds(rows)[..n];
      FindMatchesOrdered(init, query, lower);
      var front := FindMatches(init, query, lower);
      var back := RowMatches(rows[n], query, lower);
      var ms := front + back;
      assert forall i, j :: 0 <= i < j < |front| ==> Key(rows, front[i]) < Key(rows, front[j]) by {
        forall i, j | 0 <= i < j < |front| ensures Key(rows, front[i]) < Key(rows, front[j]) {
          EarlierRowKey(rows, query, lower, front[i]);
          EarlierRowKey(rows, query, lower, front[j]);
        }
      }
      assert forall i :: 0 <= i < |front| ==> Key(rows, front[i]) < 2 * n by {
        forall i | 0 <= i < |front| ensures Key(rows, front[i]) < 2 * n {
          EarlierRowKey(rows, query, lower, front[i]);
        }
      }
      assert forall k :: 0 <= k < |back| ==> Key(rows, back[k]) == 2 * n + Rank(back[k].kind) by {
        forall k | 0 <= k < |back| ensures Key(rows, back[k]) == 2 * n + Rank(back[k].kind) {
          LastRowKey(rows, query, lower, back[k]);
        }
      }
      AppendOrdered(rows, front, back, n);
    }
  }

  /** Two lists each ordered by key, the first below `2 * n` and the second
      made of one row's title and description, concatenate in order. */
  lemma AppendOrdered(rows: seq<Row>, front: seq<SearchMatch>, back: seq<SearchMatch>, n: int)
    requires forall i, j :: 0 <= i < j < |front| ==> Key(rows, front[i]) < Key(rows, front[j])
    requires forall i :: 0 <= i < |front| ==> Key(rows, front[i]) < 2 * n
    requires forall k :: 0 <= k < |back| ==> Key(rows, back[k]) == 2 * n + Rank(back[k].kind)
    requires |back| <= 2 && (|back| == 2 ==> back[0].kind == TitleField && back[1].kind == DescriptionField)
    ensures var ms := front + back;
      forall i, j :: 0 <= i < j < |ms| ==> Key(rows, ms[i]) < Key(rows, ms[j])
  {
  }

  /** A match from an earlier row keeps its key when a row is appended. */
  lemma {:induction false} EarlierRowKey(rows: seq<Row>, query: string, lower: string -> string, m: SearchMatch)
    requires |rows| > 0 && Distinct(RowIds(rows))
    requires m in FindMatches(rows[..|rows| - 1], query, lower)
    ensures Key(rows, m) == Key(rows[..|rows| - 1], m) < 2 * (|rows| - 1)
  {
    var n := |rows| - 1;
    var init := rows[..n];
    assert RowIds(init) == RowIds(rows)[..n];
    FindMatchesMembers(init, query, lower);
    var p :| 0 <= p < |init| && m in RowMatches(init[p], query, lower);
    assert m.videoId == init[p].videoId == rows[p].videoId;
    FirstIndexOfDistinct(RowIds(rows), p);
    FirstIndexOfDistinct(RowIds(init), p);
  }

  /** A match from the last row has the last row's keys. */
  lemma {:induction false} LastRowKey(rows: seq<Row>, query: string, lower: string -> string, m: SearchMatch)
    requires |rows| > 0 && Distinct(RowIds(rows))
    requires m in RowMatches(rows[|rows| - 1], query, lower)
    ensures Key(rows, m) == 2 * (|rows| - 1) + Rank(m.kind)
  {
    assert m.videoId == rows[|rows| - 1].videoId;
    FirstIndexOfDistinct(RowIds(rows), |rows| - 1);
  }

  // ------------------------------------------------------------ the cursor

  /** `findNext`: one step forward, wrapping to the first match. */
  function NextIndex(index: int, total: int): (r: int)
    requires total > 0 && -1 <= index < total
    ensures 0 <= r < total
    ensures index + 1 < total ==> r == index + 1
    ensures index + 1 == total ==> r == 0
  {
    (index + 1) % total
  }

  /** `findPrevious`: one step back, wrapping to the last match (also from
      no selection). */
  function PreviousIndex(index: int, total: int): (r: int)
    requires total > 0 && -1 <= index < total
    ensures 0 <= r < total
    ensures index > 0 ==> r == index - 1
    ensures index <= 0 ==> r == total - 1
  {
    if index <= 0 then total - 1 else index - 1
  }

  /** Next and previous undo each other on a selected match. */
  lemma NextPreviousInverse(index: int, total: int)
    requires 0 <= index < total
    ensures PreviousIndex(NextIndex(index, total), total) == index
    ensures NextIndex(PreviousIndex(index, total), total) == index
  {
  }

  /** `updateFindResults`: the label for the selected ordinal of `total`. */
  function ResultsMessage(ordinal: int, total: nat): (r: FindMessage)
    ensures r == NoResults <==> total == 0
    ensures r == OneResult <==> total == 1
    ensures r.ResultsCount? ==> r.current == ordinal && r.total == total && total >= 2
  {
    if total == 0 then NoResults
    else if total == 1 then OneResult
    else ResultsCount(ordinal, total)
  }
}
