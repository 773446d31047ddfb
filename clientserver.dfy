/**
 * How the table component and the student API fit together: the records the
 * server sends sort totally on the client, and the Next button's condition
 * against the server's `next` link.
 */
module ClientServer {
  import opened Records
  import opened Comparators
  import opened SortFilter
  import opened TableView
  import opened StudentApi

  /** The kind every server record has at `key`. */
  function RecordKind(key: string): nat {
    if key == "id" || key == "total_marks" then 1
    else if key == "name" || key == "roll_no" then 2
    else 0
  }

  lemma StudentRecordKind(s: Student, key: string)
    ensures Kind(Lookup(StudentRecord(s), key)) == RecordKind(key)
  {
  }

  /**
   * Without a query, any filtered selection of server records comes out of the
   * client pipeline in comparator order, whatever column is sorted on.
   */
  lemma ServerRecordsSortTotally(students: seq<Student>, c: SortState, filter: Criteria)
    ensures var out := SortFilterResult(StudentRecords(students), c, "", filter);
      forall i, j :: 0 <= i < j < |out| ==> Compare(c, out[i], out[j]) <= 0
  {
    var rows := StudentRecords(students);
    var filtered := FieldFilter(rows, filter - {SearchTextKey});
    forall i | 0 <= i < |filtered|
      ensures Kind(Lookup(filtered[i], c.orderBy)) == RecordKind(c.orderBy)
    {
      assert filtered[i] in rows;
      var k :| 0 <= k < |rows| && rows[k] == filtered[i];
      StudentRecordKind(students[k], c.orderBy);
    }
    NoQueryResultSorted(rows, c, filter);
  }

  /**
   * As written, Next stays enabled on a short last page: 25 students, page 3 of
   * size 10 has no `next` link, yet 3 * 10 differs from 25.
   */
  lemma NextEnabledOnLastPage(table: seq<Student>)
    requires |table| == 25
    ensures var r := GetStudents(table, LinkArgs(3, 10));
      && r.Ok? && r.body.page == 3 && r.body.size == 10 && r.body.count == 25
      && r.body.next.None?
      && !NextDisabled(r.body.page, r.body.size, r.body.count)
  {
    PyIntOfIntToString(3);
    PyIntOfIntToString(10);
    StudentsReplySpec(table, 3, 10);
  }

  /** The intended condition disables Next exactly when the server sends no `next` link. */
  lemma IntendedNextMatchesServer(table: seq<Student>, args: Args)
    requires GetStudents(table, args).Ok?
    requires GetStudents(table, args).body.page >= 1 && GetStudents(table, args).body.size >= 0
    ensures var b := GetStudents(table, args).body;
      NextDisabledIntended(b.page, b.size, b.count) <==> b.next.None?
  {
    var b := GetStudents(table, args).body;
    StudentsReplySpec(table, b.page, b.size);
  }
}
