/**
 * `applySortFilter` (client/src/components/Table/Table.jsx:29-62): per-field
 * filtering, an index-tagged stable sort, and the free-text search that, when
 * present, replaces the sorted result.
 */
module SortFilter {
  import opened Wrappers
  import opened Text
  import opened Seqs
  import opened Records
  import opened Comparators

  /** Per-field criteria: field name to the text the field must contain ("" constrains nothing). */
  type Criteria = map<string, string>

  /** The key that is deleted from the criteria before filtering. */
  const SearchTextKey: string := "searchText"

  // ---------------------------------------------------------------------------
  // Step 1: field filtering (Table.jsx:33-40)

  /** An empty criterion passes; otherwise `String(row[key])` must contain it, both case-folded. */
  predicate FieldMatches(row: Row, key: string, wanted: string) {
    wanted == "" || Contains(Lower(JsString(Lookup(row, key))), Lower(wanted))
  }

  predicate RowMatchesCriteria(row: Row, criteria: Criteria) {
    forall key | key in criteria :: FieldMatches(row, key, criteria[key])
  }

  function FieldFilter(rows: seq<Row>, criteria: Criteria): seq<Row> {
    Keep(rows, row => RowMatchesCriteria(row, criteria))
  }

  /**
   * Field filtering keeps exactly the rows that meet every non-empty criterion,
   * in their input order.
   */
  lemma FieldFilterSpec(rows: seq<Row>, criteria: Criteria)
    ensures Subsequence(FieldFilter(rows, criteria), rows)
    ensures forall i :: 0 <= i < |FieldFilter(rows, criteria)| ==>
      var row := FieldFilter(rows, criteria)[i];
      forall key | key in criteria && criteria[key] != "" ::
        Contains(Lower(JsString(Lookup(row, key))), Lower(criteria[key]))
    ensures forall i :: 0 <= i < |rows| && RowMatchesCriteria(rows[i], criteria) ==>
      rows[i] in FieldFilter(rows, criteria)
    ensures forall row ::
      multiset(FieldFilter(rows, criteria))[row] == if RowMatchesCriteria(row, criteria) then multiset(rows)[row] else 0
  {
    KeepIsSubsequence(rows, row => RowMatchesCriteria(row, criteria));
    KeepCounts(rows, row => RowMatchesCriteria(row, criteria));
  }

  /** Criteria whose values are all empty filter nothing out. */
  lemma EmptyCriteriaKeepAll(rows: seq<Row>, criteria: Criteria)
    requires forall key | key in criteria :: criteria[key] == ""
    ensures FieldFilter(rows, criteria) == rows
  {
    KeepAll(rows, row => RowMatchesCriteria(row, criteria));
  }

  // ---------------------------------------------------------------------------
  // Step 3: free-text search (Table.jsx:48-59)

  /** An array value matches when one of its elements does; any other value through `String(value)`. */
  predicate ValueMatchesQuery(v: Value, q: string) {
    match v
    case Arr(items) => exists e | e in items :: Contains(Lower(e), q)
    case _ => Contains(Lower(JsString(Some(v))), q)
  }

  predicate RowMatchesQuery(row: Row, q: string) {
    exists key | key in row :: ValueMatchesQuery(row[key], q)
  }

  function SearchFilter(rows: seq<Row>, query: string): seq<Row> {
    var q := Lower(Trim(query));
    Keep(rows, row => RowMatchesQuery(row, q))
  }

  /**
   * Search keeps, in input order and with every duplicate, exactly the rows with
   * a field that contains the trimmed, lower-cased query.
   */
  lemma SearchFilterSpec(rows: seq<Row>, query: string)
    ensures Subsequence(SearchFilter(rows, query), rows)
    ensures forall row ::
      multiset(SearchFilter(rows, query))[row] == if RowMatchesQuery(row, Lower(Trim(query))) then multiset(rows)[row] else 0
  {
    var q := Lower(Trim(query));
    KeepIsSubsequence(rows, row => RowMatchesQuery(row, q));
    KeepCounts(rows, row => RowMatchesQuery(row, q));
  }

  /** A row has a value that the empty needle can match: any value but an empty array. */
  predicate HasSearchableValue(row: Row) {
    exists key | key in row :: !(row[key].Arr? && row[key].items == [])
  }

  /**
   * A query made only of whitespace trims to the empty string, so search keeps,
   * in order, every row that has some field other than an empty array.
   */
  lemma BlankQueryKeepsSearchableRows(rows: seq<Row>, query: string)
    requires forall i :: 0 <= i < |query| ==> IsJsSpace(query[i])
    ensures SearchFilter(rows, query) == Keep(rows, HasSearchableValue)
    ensures (forall i :: 0 <= i < |rows| ==> HasSearchableValue(rows[i])) ==> SearchFilter(rows, query) == rows
  {
    TrimEmptyIffBlank(query);
    var q := Lower(Trim(query));
    assert q == "";
    forall v: Value
      ensures ValueMatchesQuery(v, q) == !(v.Arr? && v.items == [])
    {
      match v
      case Arr(items) =>
        if items != [] {
          ContainsEmpty(Lower(items[0]));
        }
      case _ =>
        ContainsEmpty(Lower(JsString(Some(v))));
    }
    KeepSame(rows, row => RowMatchesQuery(row, q), HasSearchableValue);
    if forall i :: 0 <= i < |rows| ==> HasSearchableValue(rows[i]) {
      KeepAll(rows, HasSearchableValue);
    }
  }

  // ---------------------------------------------------------------------------
  // Step 2: the index-tagged stable sort (Table.jsx:42-47, 61)

  /** An element of `stabilizedThis`: a row and its position in the filtered rows. */
  datatype Tagged = Tagged(row: Row, index: int)

  /** `filteredData.map((el, index) => [el, index])`. */
  function Tag(rows: seq<Row>): (t: seq<Tagged>)
    ensures |t| == |rows|
    ensures forall i :: 0 <= i < |rows| ==> t[i] == Tagged(rows[i], i)
  {
    seq(|rows|, i requires 0 <= i < |rows| => Tagged(rows[i], i))
  }

  /** `stabilizedThis.map((el) => el[0])`. */
  function Untag(t: seq<Tagged>): (rows: seq<Row>)
    ensures |rows| == |t|
    ensures forall i :: 0 <= i < |t| ==> rows[i] == t[i].row
  {
    seq(|t|, i requires 0 <= i < |t| => t[i].row)
  }

  /** The comparator handed to `sort`: the row comparator, ties broken by position. */
  function TaggedCompare(c: SortState, x: Tagged, y: Tagged): int {
    var o := Compare(c, x.row, y.row);
    if o != 0 then o else x.index - y.index
  }

  /** Insert `x` into `s`, passing over, from the right, the elements that compare after it. */
  function Insert(s: seq<Tagged>, x: Tagged, c: SortState): (r: seq<Tagged>)
    ensures |r| == |s| + 1
    decreases |s|
  {
    if s == [] || TaggedCompare(c, s[|s| - 1], x) <= 0 then s + [x]
    else Insert(s[..|s| - 1], x, c) + [s[|s| - 1]]
  }

  /** Insertion sort under `TaggedCompare`: the order the in-place sort produces. */
  function InsertionSort(s: seq<Tagged>, c: SortState): seq<Tagged>
    decreases |s|
  {
    if s == [] then [] else Insert(InsertionSort(s[..|s| - 1], c), s[|s| - 1], c)
  }

  /** The rows of the sorted, tagged copy of `rows`. */
  function StableSort(rows: seq<Row>, c: SortState): seq<Row> {
    Untag(InsertionSort(Tag(rows), c))
  }

  /** Unfolding `Insert` by one element when `x` must pass over `s[j - 1]`. */
  lemma InsertStep(s: seq<Tagged>, j: int, x: Tagged, c: SortState)
    requires 0 < j <= |s|
    requires TaggedCompare(c, s[j - 1], x) > 0
    ensures Insert(s[..j], x, c) + s[j..] == Insert(s[..j - 1], x, c) + s[j - 1..]
  {
    assert s[..j][..j - 1] == s[..j - 1];
    assert Insert(s[..j], x, c) == Insert(s[..j - 1], x, c) + [s[j - 1]];
    assert s[j - 1..] == [s[j - 1]] + s[j..];
  }

  /** Swapping `x` with its left neighbour moves the split point of `s` one step left. */
  lemma SwapLeft<T>(t: seq<T>, s: seq<T>, x: T, rest: seq<T>, j: int)
    requires 0 < j <= |s|
    requires t == s[..j] + [x] + s[j..] + rest
    ensures t[j - 1 := x][j := s[j - 1]] == s[..j - 1] + [x] + s[j - 1..] + rest
  {
    var u := t[j - 1 := x][j := s[j - 1]];
    var v := s[..j - 1] + [x] + s[j - 1..] + rest;
    assert |u| == |v|;
    forall k | 0 <= k < |u|
      ensures u[k] == v[k]
    {
      if k < j - 1 {
      } else if k == j - 1 {
      } else if k == j {
      } else if k <= |s| {
        assert u[k] == t[k] == s[k - 1];
      } else {
        assert u[k] == rest[k - |s| - 1];
      }
    }
  }

  /** One pass of the outer loop: `a[i]` moves left into the sorted prefix `a[..i]`. */
  method InsertInPlace(a: array<Tagged>, i: int, c: SortState)
    requires 0 <= i < a.Length
    modifies a
    ensures a[..] == Insert(old(a[..i]), old(a[i]), c) + old(a[i + 1..])
  {
    var x := a[i];
    ghost var s, rest := a[..i], a[i + 1..];
    var j := i;
    assert s[..j] == s && s[j..] == [];
    assert a[..] == s[..j] + [x] + s[j..] + rest;
    while j > 0 && TaggedCompare(c, a[j - 1], x) > 0
      invariant 0 <= j <= i < a.Length
      invariant a[..] == s[..j] + [x] + s[j..] + rest
      invariant Insert(s, x, c) == Insert(s[..j], x, c) + s[j..]
    {
      assert a[j - 1] == s[j - 1];
      InsertStep(s, j, x, c);
      SwapLeft(a[..], s, x, rest, j);
      a[j - 1], a[j] := x, a[j - 1];
      j := j - 1;
    }
    assert Insert(s[..j], x, c) == s[..j] + [x];
  }

  /** One pass of the outer loop extends the sorted prefix by one element of the input. */
  lemma SortStep(before: seq<Tagged>, prev: seq<Tagged>, after: seq<Tagged>, i: int, c: SortState)
    requires 0 <= i < |before| == |prev|
    requires prev[..i] == InsertionSort(before[..i], c) && prev[i..] == before[i..]
    requires after == Insert(prev[..i], prev[i], c) + prev[i + 1..]
    ensures after[..i + 1] == InsertionSort(before[..i + 1], c)
    ensures after[i + 1..] == before[i + 1..]
  {
    assert prev[i] == prev[i..][0] == before[i];
    assert prev[i + 1..] == prev[i..][1..] == before[i + 1..];
    var inserted := Insert(prev[..i], prev[i], c);
    assert before[..i + 1][..i] == before[..i];
    assert inserted == InsertionSort(before[..i + 1], c);
    assert after[..i + 1] == inserted;
  }

  /** Sorts `a` in place with the tagged comparator. */
  method SortInPlace(a: array<Tagged>, c: SortState)
    modifies a
    ensures a[..] == InsertionSort(old(a[..]), c)
  {
    var i := 0;
    while i < a.Length
      invariant 0 <= i <= a.Length
      invariant a[..i] == InsertionSort(old(a[..])[..i], c)
      invariant a[i..] == old(a[..])[i..]
    {
      ghost var prev := a[..];
      InsertInPlace(a, i, c);
      SortStep(old(a[..]), prev, a[..], i, c);
      i := i + 1;
    }
    assert old(a[..])[..a.Length] == old(a[..]);
  }

  // --- what the sort promises

  /** Kind of the sort-field value of a tagged row. */
  function KindOf(c: SortState, t: Tagged): nat {
    Kind(Lookup(t.row, c.orderBy))
  }

  predicate Sorted(c: SortState, s: seq<Tagged>) {
    forall i, j :: 0 <= i < j < |s| ==> TaggedCompare(c, s[i], s[j]) <= 0
  }

  predicate DistinctIndices(s: seq<Tagged>) {
    forall i, j :: 0 <= i < j < |s| ==> s[i].index != s[j].index
  }

  lemma {:induction false} InsertPermutes(s: seq<Tagged>, x: Tagged, c: SortState)
    ensures multiset(Insert(s, x, c)) == multiset(s) + multiset{x}
    ensures multiset(Untag(Insert(s, x, c))) == multiset(Untag(s)) + multiset{x.row}
    decreases |s|
  {
    if s != [] && TaggedCompare(c, s[|s| - 1], x) > 0 {
      var init, last := s[..|s| - 1], s[|s| - 1];
      InsertPermutes(init, x, c);
      assert s == init + [last];
      assert Untag(s) == Untag(init) + [last.row];
      assert Untag(Insert(s, x, c)) == Untag(Insert(init, x, c)) + [last.row];
    } else {
      assert Untag(s + [x]) == Untag(s) + [x.row];
    }
  }

  lemma InsertionSortPermutes(s: seq<Tagged>, c: SortState)
    ensures multiset(InsertionSort(s, c)) == multiset(s)
    ensures multiset(Untag(InsertionSort(s, c))) == multiset(Untag(s))
  {
    InsertionSortPermutesTagged(s, c);
    InsertionSortPermutesRows(s, c);
  }

  lemma {:induction false} InsertionSortPermutesTagged(s: seq<Tagged>, c: SortState)
    ensures multiset(InsertionSort(s, c)) == multiset(s)
    decreases |s|
  {
    if s != [] {
      var init, last := s[..|s| - 1], s[|s| - 1];
      assert InsertionSort(s, c) == Insert(InsertionSort(init, c), last, c);
      InsertionSortPermutesTagged(init, c);
      InsertPermutes(InsertionSort(init, c), last, c);
      MultisetSnoc(s);
    }
  }

  lemma MultisetSnoc<T>(s: seq<T>)
    requires s != []
    ensures multiset(s) == multiset(s[..|s| - 1]) + multiset{s[|s| - 1]}
  {
    assert s == s[..|s| - 1] + [s[|s| - 1]];
  }

  lemma {:induction false} InsertionSortPermutesRows(s: seq<Tagged>, c: SortState)
    ensures multiset(Untag(InsertionSort(s, c))) == multiset(Untag(s))
    decreases |s|
  {
    if s != [] {
      var init, last := s[..|s| - 1], s[|s| - 1];
      assert InsertionSort(s, c) == Insert(InsertionSort(init, c), last, c);
      InsertionSortPermutesRows(init, c);
      InsertPermutes(InsertionSort(init, c), last, c);
      var rows := Untag(s);
      assert rows[..|rows| - 1] == Untag(init);
      MultisetSnoc(rows);
    }
  }

  lemma TaggedCompareAntisymmetric(c: SortState, x: Tagged, y: Tagged)
    ensures TaggedCompare(c, x, y) == -TaggedCompare(c, y, x)
  {
    CompareAntisymmetric(c, x.row, y.row);
  }

  lemma TaggedCompareTransitive(c: SortState, x: Tagged, y: Tagged, z: Tagged)
    requires KindOf(c, x) == KindOf(c, y) == KindOf(c, z)
    requires TaggedCompare(c, x, y) <= 0 && TaggedCompare(c, y, z) <= 0
    ensures TaggedCompare(c, x, z) <= 0
  {
    ComparePreorder(c, x.row, y.row, z.row);
  }

  lemma InsertAppendSorted(s: seq<Tagged>, x: Tagged, c: SortState, k: nat)
    requires Sorted(c, s) && s != []
    requires forall i :: 0 <= i < |s| ==> KindOf(c, s[i]) == k
    requires KindOf(c, x) == k
    requires TaggedCompare(c, s[|s| - 1], x) <= 0
    ensures Sorted(c, s + [x])
  {
    forall i | 0 <= i < |s| - 1
      ensures TaggedCompare(c, s[i], x) <= 0
    {
      TaggedCompareTransitive(c, s[i], s[|s| - 1], x);
    }
  }

  lemma AppendLastSorted(m: seq<Tagged>, last: Tagged, c: SortState)
    requires Sorted(c, m)
    requires forall i :: 0 <= i < |m| ==> TaggedCompare(c, m[i], last) <= 0
    ensures Sorted(c, m + [last])
  {
  }

  lemma {:induction false} InsertSorted(s: seq<Tagged>, x: Tagged, c: SortState, k: nat)
    requires Sorted(c, s)
    requires forall i :: 0 <= i < |s| ==> KindOf(c, s[i]) == k
    requires KindOf(c, x) == k
    ensures Sorted(c, Insert(s, x, c))
    decreases |s|
  {
    if s == [] {
    } else if TaggedCompare(c, s[|s| - 1], x) <= 0 {
      InsertAppendSorted(s, x, c, k);
    } else {
      var init, last := s[..|s| - 1], s[|s| - 1];
      assert Sorted(c, init);
      InsertSorted(init, x, c, k);
      InsertPermutes(init, x, c);
      var m := Insert(init, x, c);
      TaggedCompareAntisymmetric(c, last, x);
      forall i | 0 <= i < |m|
        ensures TaggedCompare(c, m[i], last) <= 0
      {
        assert m[i] in multiset(m);
        if m[i] != x {
          assert m[i] in multiset(init);
          var j :| 0 <= j < |init| && init[j] == m[i];
          assert TaggedCompare(c, s[j], s[|s| - 1]) <= 0;
        }
      }
      AppendLastSorted(m, last, c);
    }
  }

  lemma {:induction false} InsertionSortSorted(s: seq<Tagged>, c: SortState, k: nat)
    requires forall i :: 0 <= i < |s| ==> KindOf(c, s[i]) == k
    ensures Sorted(c, InsertionSort(s, c))
    decreases |s|
  {
    if s != [] {
      var init := s[..|s| - 1];
      InsertionSortSorted(init, c, k);
      var t := InsertionSort(init, c);
      InsertionSortPermutes(init, c);
      forall i | 0 <= i < |t|
        ensures KindOf(c, t[i]) == k
      {
        assert t[i] in multiset(init);
      }
      InsertSorted(t, s[|s| - 1], c, k);
    }
  }

  lemma {:induction false} InsertDistinct(s: seq<Tagged>, x: Tagged, c: SortState)
    requires DistinctIndices(s)
    requires forall i :: 0 <= i < |s| ==> s[i].index != x.index
    ensures DistinctIndices(Insert(s, x, c))
    decreases |s|
  {
    if s != [] && TaggedCompare(c, s[|s| - 1], x) > 0 {
      var init, last := s[..|s| - 1], s[|s| - 1];
      InsertDistinct(init, x, c);
      InsertPermutes(init, x, c);
      var m := Insert(init, x, c);
      forall i | 0 <= i < |m|
        ensures m[i].index != last.index
      {
        assert m[i] in multiset(m);
        if m[i] != x {
          assert m[i] in multiset(init);
        }
      }
      assert Insert(s, x, c) == m + [last];
    }
  }

  lemma {:induction false} InsertionSortDistinct(s: seq<Tagged>, c: SortState)
    requires DistinctIndices(s)
    ensures DistinctIndices(InsertionSort(s, c))
    decreases |s|
  {
    if s != [] {
      var init, last := s[..|s| - 1], s[|s| - 1];
      InsertionSortDistinct(init, c);
      var t := InsertionSort(init, c);
      InsertionSortPermutes(init, c);
      forall i | 0 <= i < |t|
        ensures t[i].index != last.index
      {
        assert t[i] in multiset(init);
      }
      InsertDistinct(t, last, c);
    }
  }

  /** The sort field holds values of one kind in every row. */
  predicate UniformKey(rows: seq<Row>, key: string) {
    forall i :: 0 <= i < |rows| ==> Kind(Lookup(rows[i], key)) == Kind(Lookup(rows[0], key))
  }

  /**
   * The tagged sort is a permutation of the input whose every element carries its
   * input position. When the sort field is of one kind, the rows come out in
   * comparator order and rows that compare equal keep their input order.
   */
  lemma StableSortSpec(rows: seq<Row>, c: SortState)
    ensures var t := InsertionSort(Tag(rows), c);
      && |t| == |rows|
      && (forall i :: 0 <= i < |t| ==> 0 <= t[i].index < |rows| && t[i].row == rows[t[i].index])
      && (forall i, j :: 0 <= i < j < |t| ==> t[i].index != t[j].index)
      && Untag(t) == StableSort(rows, c)
    ensures multiset(StableSort(rows, c)) == multiset(rows)
    ensures UniformKey(rows, c.orderBy) ==>
      var t := InsertionSort(Tag(rows), c);
      forall i, j :: 0 <= i < j < |t| ==>
        && Compare(c, t[i].row, t[j].row) <= 0
        && (Compare(c, t[i].row, t[j].row) == 0 ==> t[i].index < t[j].index)
  {
    var tags := Tag(rows);
    var t := InsertionSort(tags, c);
    InsertionSortPermutes(tags, c);
    assert Untag(tags) == rows;
    forall i | 0 <= i < |t|
      ensures 0 <= t[i].index < |rows| && t[i].row == rows[t[i].index]
    {
      assert t[i] in multiset(tags);
    }
    InsertionSortDistinct(tags, c);
    if UniformKey(rows, c.orderBy) && rows != [] {
      var k := Kind(Lookup(rows[0], c.orderBy));
      InsertionSortSorted(tags, c, k);
    }
  }

  /** Rows whose sort-field values all compare with nothing (e.g. the field is absent) stay in input order. */
  lemma SortOnIncomparableFieldKeepsOrder(rows: seq<Row>, c: SortState)
    requires forall i :: 0 <= i < |rows| ==> Kind(Lookup(rows[i], c.orderBy)) == 0
    ensures StableSort(rows, c) == rows
  {
    var tags := Tag(rows);
    forall i, j | 0 <= i < j < |tags|
      ensures TaggedCompare(c, tags[i], tags[j]) <= 0
    {
      assert Compare(c, tags[i].row, tags[j].row) == 0;
    }
    InsertionSortOfSorted(tags, c);
  }

  /** Insertion sort leaves a sequence that is already in order unchanged. */
  lemma {:induction false} InsertionSortOfSorted(s: seq<Tagged>, c: SortState)
    requires Sorted(c, s)
    ensures InsertionSort(s, c) == s
    decreases |s|
  {
    if s != [] {
      var prefix, x := s[..|s| - 1], s[|s| - 1];
      assert Sorted(c, prefix) by {
        assert forall i | 0 <= i < |prefix| :: prefix[i] == s[i];
      }
      InsertionSortOfSorted(prefix, c);
      if prefix != [] {
        assert TaggedCompare(c, prefix[|prefix| - 1], x) <= 0;
      }
      assert prefix + [x] == s;
    }
  }

  // ---------------------------------------------------------------------------
  // The whole of applySortFilter

  /** What `applySortFilter(rows, getComparator(c), query, filter)` returns. */
  function SortFilterResult(rows: seq<Row>, c: SortState, query: string, filter: Criteria): seq<Row> {
    var filtered := FieldFilter(rows, filter - {SearchTextKey});
    if query != "" then SearchFilter(filtered, query) else StableSort(filtered, c)
  }

  /** The caller's filter object; `applySortFilter` deletes a key from it. */
  class FilterObject {
    var entries: Criteria

    constructor (entries: Criteria)
      ensures this.entries == entries
    {
      this.entries := entries;
    }
  }

  method ApplySortFilter(rows: seq<Row>, c: SortState, query: string, appliedFilter: FilterObject)
    returns (result: seq<Row>)
    modifies appliedFilter
    ensures appliedFilter.entries == old(appliedFilter.entries) - {SearchTextKey}
    ensures result == SortFilterResult(rows, c, query, old(appliedFilter.entries))
  {
    var appliedKey := appliedFilter;
    appliedKey.entries := appliedKey.entries - {SearchTextKey};
    var filteredData := FieldFilter(rows, appliedKey.entries);
    var stabilizedThis := new Tagged[|filteredData|](i requires 0 <= i < |filteredData| => Tagged(filteredData[i], i));
    assert stabilizedThis[..] == Tag(filteredData);
    SortInPlace(stabilizedThis, c);
    if query != "" {
      result := SearchFilter(filteredData, query);
      return;
    }
    result := Untag(stabilizedThis[..]);
  }

  // --- properties of the pipeline

  /**
   * With a query, the result is the search over the unsorted field-filtered rows:
   * a subsequence of them, whatever the sort state.
   */
  lemma QueryBypassesSort(rows: seq<Row>, c1: SortState, c2: SortState, query: string, filter: Criteria)
    requires query != ""
    ensures SortFilterResult(rows, c1, query, filter) == SortFilterResult(rows, c2, query, filter)
    ensures Subsequence(SortFilterResult(rows, c1, query, filter), FieldFilter(rows, filter - {SearchTextKey}))
  {
    var filtered := FieldFilter(rows, filter - {SearchTextKey});
    KeepIsSubsequence(filtered, row => RowMatchesQuery(row, Lower(Trim(query))));
  }

  /** The `searchText` entry of the criteria never constrains the rows. */
  lemma SearchTextIgnored(rows: seq<Row>, c: SortState, query: string, filter: Criteria, v: string)
    ensures SortFilterResult(rows, c, query, filter[SearchTextKey := v]) == SortFilterResult(rows, c, query, filter)
  {
    assert filter[SearchTextKey := v] - {SearchTextKey} == filter - {SearchTextKey};
  }

  /**
   * Without a query, the result is a permutation of the field-filtered rows; on a
   * sort field of one kind it is in comparator order.
   */
  lemma NoQueryResultSorted(rows: seq<Row>, c: SortState, filter: Criteria)
    ensures var filtered := FieldFilter(rows, filter - {SearchTextKey});
      var out := SortFilterResult(rows, c, "", filter);
      && multiset(out) == multiset(filtered)
      && (UniformKey(filtered, c.orderBy) ==>
            forall i, j :: 0 <= i < j < |out| ==> Compare(c, out[i], out[j]) <= 0)
  {
    StableSortSpec(FieldFilter(rows, filter - {SearchTextKey}), c);
  }

  /**
   * The shipped configuration: no criteria, no query and a sort field no record
   * has leave the rows exactly as received.
   */
  lemma DefaultsKeepInput(rows: seq<Row>, c: SortState, filter: Criteria)
    requires forall key | key in filter :: key == SearchTextKey || filter[key] == ""
    requires forall i :: 0 <= i < |rows| ==> c.orderBy !in rows[i]
    ensures SortFilterResult(rows, c, "", filter) == rows
  {
    EmptyCriteriaKeepAll(rows, filter - {SearchTextKey});
    SortOnIncomparableFieldKeepsOrder(rows, c);
  }
}
