/**
 * The table component's own state and display logic
 * (client/src/components/Table/Table.jsx:64-84, 111, 152-153): the sort header
 * state machine, the page slice of the pipeline's output and the Pre/Next
 * button conditions.
 */
module TableView {
  import opened Records
  import opened Comparators
  import opened SortFilter

  /** A position argument of `slice`: negative counts from the end; the result is clamped to `[0, len]`. */
  function SliceBound(k: int, len: nat): (r: nat)
    ensures r <= len
  {
    if k < 0 then (if len + k < 0 then 0 else len + k)
    else if k > len then len
    else k
  }

  /** `Array.prototype.slice(start, end)`. */
  function JsSlice<T>(s: seq<T>, start: int, end: int): seq<T> {
    var from, to := SliceBound(start, |s|), SliceBound(end, |s|);
    if from < to then s[from..to] else []
  }

  /** `filteredData.slice(page * rowsPerPage, page * rowsPerPage + rowsPerPage)`. */
  function PageSlice<T>(data: seq<T>, page: nat, rowsPerPage: nat): seq<T> {
    JsSlice(data, page * rowsPerPage, page * rowsPerPage + rowsPerPage)
  }

  /**
   * A page holds the rows from position `page * rowsPerPage` on, at most
   * `rowsPerPage` of them: a full page while enough rows remain, the remainder
   * on the last page, nothing past the end.
   */
  lemma PageSliceSpec<T>(data: seq<T>, page: nat, rowsPerPage: nat)
    ensures var start := page * rowsPerPage;
      var r := PageSlice(data, page, rowsPerPage);
      && |r| <= rowsPerPage
      && (start >= |data| ==> r == [])
      && (start < |data| ==>
            && |r| == (if |data| - start < rowsPerPage then |data| - start else rowsPerPage)
            && forall k :: 0 <= k < |r| ==> r[k] == data[start + k])
  {
    var start := page * rowsPerPage;
    assert 0 <= start;
  }

  /** Row `i` of the data shows on page `i / rowsPerPage`, at position `i % rowsPerPage`. */
  lemma RowShowsOnItsPage<T>(data: seq<T>, rowsPerPage: nat, i: nat)
    requires rowsPerPage > 0 && i < |data|
    ensures var r := PageSlice(data, i / rowsPerPage, rowsPerPage);
      i % rowsPerPage < |r| && r[i % rowsPerPage] == data[i]
  {
    var page := i / rowsPerPage;
    assert page * rowsPerPage + i % rowsPerPage == i;
    PageSliceSpec(data, page, rowsPerPage);
  }

  /** The sort state after a click on the header of column `property`. */
  function SortAfterClick(s: SortState, property: string): SortState {
    var isAsc := s.orderBy == property && s.order == Asc;
    SortState(if isAsc then Desc else Asc, property)
  }

  /**
   * A click makes the clicked column the sort column. It sorts descending exactly
   * when that column was already sorted ascending; a second click on the same
   * column reverses the direction the first one chose.
   */
  lemma ClickSpec(s: SortState, property: string)
    ensures SortAfterClick(s, property).orderBy == property
    ensures SortAfterClick(s, property).order == Desc <==> s == SortState(Asc, property)
    ensures var once := SortAfterClick(s, property);
      var twice := SortAfterClick(once, property);
      twice.orderBy == property && twice.order != once.order
  {
  }

  /** The state of one `CustomTable` instance. */
  class TableState {
    var page: nat
    var rowsPerPage: nat
    var order: Order
    var orderBy: string

    /** `useState(0)`, `useState(10)`, `useState('asc')`, `useState('RuleId')`. */
    constructor ()
      ensures page == 0 && rowsPerPage == 10
      ensures order == Asc && orderBy == "RuleId"
    {
      page := 0;
      rowsPerPage := 10;
      order := Asc;
      orderBy := "RuleId";
    }

    function Sort(): SortState
      reads this
    {
      SortState(order, orderBy)
    }

    /** `handleRequestSort(event, property)`. */
    method HandleRequestSort(property: string)
      modifies this
      ensures Sort() == SortAfterClick(old(Sort()), property)
      ensures page == old(page) && rowsPerPage == old(rowsPerPage)
    {
      var isAsc := orderBy == property && order == Asc;
      order := if isAsc then Desc else Asc;
      orderBy := property;
    }

    /** One render: the pipeline over the raw data, then the current page of it. */
    method DisplayedRows(rawData: seq<Row>, searchText: string, applyFilter: FilterObject)
      returns (shown: seq<Row>)
      modifies applyFilter
      ensures applyFilter.entries == old(applyFilter.entries) - {SearchTextKey}
      ensures shown == PageSlice(SortFilterResult(rawData, Sort(), searchText, old(applyFilter.entries)), page, rowsPerPage)
      ensures |shown| <= rowsPerPage
    {
      var filteredData := ApplySortFilter(rawData, Sort(), searchText, applyFilter);
      shown := PageSlice(filteredData, page, rowsPerPage);
      PageSliceSpec(filteredData, page, rowsPerPage);
    }
  }

  /** The Pre button's `disabled` condition. */
  function PreDisabled(pageno: int, size: int): bool {
    pageno * size == size
  }

  /** Pre is disabled exactly on page 1, or when the page size is 0. */
  lemma PreDisabledSpec(pageno: int, size: int)
    ensures PreDisabled(pageno, size) <==> pageno == 1 || size == 0
  {
    assert pageno * size - size == (pageno - 1) * size;
    if (pageno - 1) * size == 0 {
      assert pageno - 1 == 0 || size == 0;
    }
  }

  /** The Next button's `disabled` condition, as written. */
  function NextDisabled(pageno: int, size: int, totalRecord: int): bool {
    pageno * size == totalRecord
  }

  /** The Next condition the rest of the client needs: no record lies beyond this page. */
  function NextDisabledIntended(pageno: int, size: int, totalRecord: int): bool {
    pageno * size >= totalRecord
  }
}
