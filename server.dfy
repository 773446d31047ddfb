/**
 * The student API (server/app.py): the `students` table held as a sequence in
 * storage order, Python's `int()` on query arguments, SQLite's OFFSET/LIMIT,
 * `paginate_students`, `get_students`, `get_students_query` and `filter_students`.
 */
module StudentApi {
  import opened Wrappers
  import opened Text
  import opened Seqs
  import opened Records

  /** A row of the `students` table. */
  datatype Student = Student(id: int, name: string, totalMarks: int, rollNo: string)

  /** The values given for one query argument; a present argument has at least one. */
  type ArgValues = vs: seq<string> | |vs| > 0 witness [""]

  /** `request.args`: argument name to its values. */
  type Args = map<string, ArgValues>

  datatype Reply<T> = Ok(body: T) | ServerError

  // ---------------------------------------------------------------------------
  // Python `int(str)`

  /** The ASCII characters `str.strip()` and `int()` treat as whitespace. */
  predicate IsPySpace(c: char) {
    (0x09 <= c as int <= 0x0D) || (0x1C <= c as int <= 0x20)
  }

  function PyStripStart(s: string): string
    decreases |s|
  {
    if |s| > 0 && IsPySpace(s[0]) then PyStripStart(s[1..]) else s
  }

  function PyStripEnd(s: string): string
    decreases |s|
  {
    if |s| > 0 && IsPySpace(s[|s| - 1]) then PyStripEnd(s[..|s| - 1]) else s
  }

  /** Digits, with single underscores allowed between two digits. */
  predicate DecimalLiteral(d: string) {
    && |d| > 0
    && IsDigit(d[0])
    && IsDigit(d[|d| - 1])
    && forall i :: 0 <= i < |d| ==> IsDigit(d[i]) || (d[i] == '_' && i + 1 < |d| && IsDigit(d[i + 1]))
  }

  /** `int(s)`: `None` where Python raises `ValueError`. */
  function PyInt(s: string): Option<int> {
    var t := PyStripEnd(PyStripStart(s));
    if |t| > 0 && (t[0] == '+' || t[0] == '-') then
      if DecimalLiteral(t[1..]) then
        var v: int := DigitsValue(t[1..]);
        Some(if t[0] == '-' then -v else v)
      else None
    else if DecimalLiteral(t) then Some(DigitsValue(t))
    else None
  }

  /** `int(str(n)) == n`: the decimal text of a number parses back to it. */
  lemma PyIntOfIntToString(n: int)
    ensures PyInt(IntToString(n)) == Some(n)
  {
    var t := IntToString(n);
    assert PyStripStart(t) == t;
    assert PyStripEnd(t) == t;
    if n < 0 {
      assert t[1..] == NatToString(-n);
      DigitsValueOfNatToString(-n);
    } else {
      DigitsValueOfNatToString(n);
    }
  }

  /** `int(request.args.get(key, default))`. */
  function ArgInt(args: Args, key: string, default: int): Option<int> {
    if key in args then PyInt(args[key][0]) else Some(default)
  }

  // ---------------------------------------------------------------------------
  // Binding integers to SQLite

  const Int64Min: int := -0x8000_0000_0000_0000
  const Int64Max: int := 0x7FFF_FFFF_FFFF_FFFF

  /**
   * An integer the SQLite driver can bind: a query that binds any other raises
   * when it runs, and the request ends in a 500 reply.
   */
  predicate IsInt64(n: int) {
    Int64Min <= n <= Int64Max
  }

  // ---------------------------------------------------------------------------
  // OFFSET/LIMIT and Python slicing

  /**
   * `.offset(offset).limit(limit).all()` on SQLite: a negative offset counts as 0,
   * a negative limit as no limit.
   */
  function Window<T>(rows: seq<T>, offset: int, limit: int): seq<T> {
    var from := if offset < 0 then 0 else if offset > |rows| then |rows| else offset;
    if limit < 0 then rows[from..]
    else rows[from..if from + limit > |rows| then |rows| else from + limit]
  }

  /** For a non-negative offset and limit, the window is the rows at positions `[offset, offset + limit)`. */
  lemma WindowSpec<T>(rows: seq<T>, offset: int, limit: int)
    requires offset >= 0 && limit >= 0
    ensures var r := Window(rows, offset, limit);
      && |r| == (if offset >= |rows| then 0 else if |rows| - offset < limit then |rows| - offset else limit)
      && forall k :: 0 <= k < |r| ==> r[k] == rows[offset + k]
  {
  }

  /** `s[:n]`. */
  function PyTake<T>(s: seq<T>, n: int): seq<T> {
    if n >= 0 then (if n > |s| then s else s[..n])
    else (if |s| + n < 0 then [] else s[..|s| + n])
  }

  // ---------------------------------------------------------------------------
  // GET /students

  function PaginateStudents(table: seq<Student>, pageNumber: int, pageSize: int): seq<Student> {
    Window(table, (pageNumber - 1) * pageSize, pageSize + 1)
  }

  /**
   * For page numbers from 1 and sizes from 0, `paginate_students` returns the rows
   * at positions `[(page - 1) * size, (page - 1) * size + size + 1)`: one page and
   * one more row, if the table has them.
   */
  lemma PaginateSpec(table: seq<Student>, pageNumber: int, pageSize: int)
    requires pageNumber >= 1 && pageSize >= 0
    ensures var offset := (pageNumber - 1) * pageSize;
      var r := PaginateStudents(table, pageNumber, pageSize);
      && offset >= 0
      && |r| <= pageSize + 1
      && (offset >= |table| ==> r == [])
      && (offset < |table| ==> |r| == (if |table| - offset < pageSize + 1 then |table| - offset else pageSize + 1))
      && forall k :: 0 <= k < |r| ==> r[k] == table[offset + k]
  {
    var offset := (pageNumber - 1) * pageSize;
    assert offset >= 0;
    WindowSpec(table, offset, pageSize + 1);
  }

  /** The JSON object built for one student. */
  function StudentRecord(s: Student): Row {
    map["id" := Num(s.id), "name" := Str(s.name), "total_marks" := Num(s.totalMarks), "roll_no" := Str(s.rollNo)]
  }

  function StudentRecords(ss: seq<Student>): (rows: seq<Row>)
    ensures |rows| == |ss|
    ensures forall i :: 0 <= i < |ss| ==> rows[i] == StudentRecord(ss[i])
  {
    seq(|ss|, i requires 0 <= i < |ss| => StudentRecord(ss[i]))
  }

  /** `"/students?" + urlencode({"page": page, "size": size})`. */
  function NextLink(page: int, size: int): string {
    "/students?page=" + IntToString(page) + "&size=" + IntToString(size)
  }

  /** The query arguments the request for `NextLink(page, size)` carries. */
  function LinkArgs(page: int, size: int): Args {
    map["page" := [IntToString(page)], "size" := [IntToString(size)]]
  }

  datatype StudentsPage = StudentsPage(data: seq<Row>, total: int, page: int, size: int, count: int, next: Option<string>)

  /** The reply `get_students` builds once `page` and `size` are integers. */
  function StudentsReply(table: seq<Student>, pageNumber: int, pageSize: int): StudentsPage {
    var students := PaginateStudents(table, pageNumber, pageSize);
    var hasNext := |students| > pageSize;
    var studentList := StudentRecords(PyTake(students, pageSize));
    StudentsPage(studentList, |studentList|, pageNumber, pageSize, |table|,
                 if hasNext then Some(NextLink(pageNumber + 1, pageSize)) else None)
  }

  /** The offset and the limit `paginate_students` binds both fit a 64-bit integer. */
  predicate PaginationFits(pageNumber: int, pageSize: int) {
    IsInt64((pageNumber - 1) * pageSize) && IsInt64(pageSize + 1)
  }

  /**
   * `get_students`. An argument `int()` rejects ends in an unhandled `ValueError`,
   * and an offset or limit the driver cannot bind ends in an error when the query
   * runs: both are a 500 reply.
   */
  function GetStudents(table: seq<Student>, args: Args): Reply<StudentsPage> {
    match (ArgInt(args, "page", 1), ArgInt(args, "size", 10))
    case (Some(pageNumber), Some(pageSize)) =>
      if PaginationFits(pageNumber, pageSize) then Ok(StudentsReply(table, pageNumber, pageSize)) else ServerError
    case _ => ServerError
  }

  /** Without `page` and `size` the first page of ten is served. */
  lemma GetStudentsDefaults(table: seq<Student>, args: Args)
    requires "page" !in args && "size" !in args
    ensures GetStudents(table, args).Ok?
    ensures GetStudents(table, args).body.page == 1 && GetStudents(table, args).body.size == 10
  {
  }

  /**
   * The arguments of a link built from two integers are served exactly when the
   * offset and limit fit 64 bits, and then as that page of that size.
   */
  lemma GetStudentsLinkArgs(table: seq<Student>, p: int, s: int)
    ensures GetStudents(table, LinkArgs(p, s)).Ok? <==> PaginationFits(p, s)
    ensures GetStudents(table, LinkArgs(p, s)).Ok? ==> GetStudents(table, LinkArgs(p, s)).body == StudentsReply(table, p, s)
  {
    PyIntOfIntToString(p);
    PyIntOfIntToString(s);
  }

  /** A page number that is not an integer, such as `1.5`, gets a 500 reply. */
  lemma GetStudentsRejectsFraction(table: seq<Student>, args: Args)
    requires "page" in args && args["page"][0] == "1.5"
    ensures GetStudents(table, args).ServerError?
  {
    var t := "1.5";
    assert PyStripStart(t) == t;
    assert PyStripEnd(t) == t;
    assert !DecimalLiteral(t) by {
      assert !IsDigit(t[1]) && t[1] != '_';
    }
  }

  /** Page 3 of size `2^62` has offset `2^63`, which no 64-bit integer holds: a 500 reply. */
  lemma GetStudentsRejectsOversizedOffset(table: seq<Student>)
    ensures GetStudents(table, LinkArgs(3, 0x4000_0000_0000_0000)).ServerError?
  {
    GetStudentsLinkArgs(table, 3, 0x4000_0000_0000_0000);
  }

  lemma PageArithmetic(p: int, s: int)
    requires p >= 1 && s >= 0
    ensures (p - 1) * s >= 0
    ensures (p - 1) * s + s == p * s
  {
  }

  /**
   * For page numbers from 1 and sizes from 0: the data is the page's window of
   * the table, `total` is its length, `count` the table's length, and a `next`
   * link to the following page is present exactly when rows remain after this page.
   */
  lemma StudentsReplySpec(table: seq<Student>, p: int, s: int)
    requires p >= 1 && s >= 0
    ensures var b := StudentsReply(table, p, s);
      && b.page == p && b.size == s
      && b.data == StudentRecords(Window(table, (p - 1) * s, s))
      && b.total == |b.data| <= s
      && b.count == |table|
      && (b.next.Some? <==> |table| > p * s)
      && (b.next.Some? ==> b.next.value == NextLink(p + 1, s))
  {
    var offset := (p - 1) * s;
    PageArithmetic(p, s);
    var fetched := PaginateStudents(table, p, s);
    WindowSpec(table, offset, s + 1);
    WindowSpec(table, offset, s);
    assert PyTake(fetched, s) == Window(table, offset, s);
  }

  /**
   * Following a `next` link asks for the page after the current one with the
   * same size, and for page numbers from 1 its data starts at row `page * size`.
   */
  lemma FollowNextLink(table: seq<Student>, args: Args)
    requires GetStudents(table, args).Ok? && GetStudents(table, args).body.next.Some?
    ensures var b := GetStudents(table, args).body;
      var r := GetStudents(table, LinkArgs(b.page + 1, b.size));
      && (r.Ok? <==> IsInt64(b.page * b.size))
      && (b.size >= 0 && |table| <= Int64Max ==> r.Ok?)
      && (r.Ok? ==> r.body.page == b.page + 1 && r.body.size == b.size)
      && (r.Ok? && b.page >= 1 && b.size >= 0 ==> r.body.data == StudentRecords(Window(table, b.page * b.size, b.size)))
  {
    var b := GetStudents(table, args).body;
    var p, s := b.page, b.size;
    GetStudentsLinkArgs(table, p + 1, s);
    assert PaginationFits(p, s);
    assert (p + 1 - 1) * s == p * s;
    if s >= 0 && |table| <= Int64Max {
      // A `next` link means a row lies past this page, so `p * s` is below the table length.
      var offset := (p - 1) * s;
      assert p * s == offset + s;
      var fetched := PaginateStudents(table, p, s);
      assert |fetched| > s;
      WindowSpec(table, if offset < 0 then 0 else offset, s + 1);
    }
    if p >= 1 && s >= 0 {
      StudentsReplySpec(table, p + 1, s);
    }
  }

  /** `page=0` reads the first page again (the offset `-size` counts as 0) yet reports page 0. */
  lemma PageZeroRepeatsFirstPage(table: seq<Student>, size: int)
    requires size >= 0
    ensures var z := GetStudents(table, LinkArgs(0, size));
      var one := GetStudents(table, LinkArgs(1, size));
      && (z.Ok? <==> one.Ok?)
      && (z.Ok? <==> size < Int64Max)
      && (z.Ok? ==> z.body.data == one.body.data && z.body.page == 0)
  {
    GetStudentsLinkArgs(table, 0, size);
    GetStudentsLinkArgs(table, 1, size);
  }

  // ---------------------------------------------------------------------------
  // GET /students/filter

  datatype Op = Eq | Neq | Gt | Lt

  /** One `.filter(...)` added to the query. */
  datatype Criterion = NameLike(pattern: string) | MarksCompare(op: Op, n: int) | RollNoLike(pattern: string)

  /** `column LIKE '%pattern%'`: case-insensitive on ASCII letters, `%` and `_` taken literally. */
  predicate Like(value: string, pattern: string) {
    Contains(Lower(value), Lower(pattern))
  }

  predicate OpHolds(op: Op, marks: int, n: int) {
    match op
    case Eq => marks == n
    case Neq => marks != n
    case Gt => marks > n
    case Lt => marks < n
  }

  predicate Holds(cr: Criterion, s: Student) {
    match cr
    case NameLike(p) => Like(s.name, p)
    case MarksCompare(op, n) => OpHolds(op, s.totalMarks, n)
    case RollNoLike(p) => Like(s.rollNo, p)
  }

  /** A query selects the students that meet all of its filters. */
  predicate Admits(query: seq<Criterion>, s: Student) {
    forall i | 0 <= i < |query| :: Holds(query[i], s)
  }

  // --- what the arguments ask for

  predicate NameOk(args: Args, s: Student) {
    "name" in args ==> Like(s.name, args["name"][0])
  }

  predicate RollOk(args: Args, s: Student) {
    "roll_no" in args ==> Like(s.rollNo, args["roll_no"][0])
  }

  /** The comparison `cp` selects: `==` without `cp`, none for an unrecognised `cp`. */
  function MarksOperator(args: Args): Option<Op> {
    if "cp" !in args then Some(Eq)
    else
      var cp := args["cp"][0];
      if cp == "eq" then Some(Eq)
      else if cp == "neq" then Some(Neq)
      else if cp == "gt" then Some(Gt)
      else if cp == "lt" then Some(Lt)
      else None
  }

  /** `int(total_marks)` is evaluated and raises. */
  predicate MarksParseFails(args: Args) {
    "total_marks" in args && MarksOperator(args).Some? && PyInt(args["total_marks"][0]).None?
  }

  predicate MarksOk(args: Args, s: Student) {
    "total_marks" in args && MarksOperator(args).Some? && PyInt(args["total_marks"][0]).Some? ==>
      OpHolds(MarksOperator(args).value, s.totalMarks, PyInt(args["total_marks"][0]).value)
  }

  /**
   * The students the arguments select: the name filter always applies; when the
   * marks value fails to parse, neither the marks nor the roll-number filter does.
   */
  predicate Selected(args: Args, s: Student) {
    NameOk(args, s) && (!MarksParseFails(args) ==> MarksOk(args, s) && RollOk(args, s))
  }

  /** The integers a query binds, the values of its marks comparisons, fit 64 bits. */
  predicate QueryFits(query: seq<Criterion>) {
    forall i | 0 <= i < |query| :: query[i].MarksCompare? ==> IsInt64(query[i].n)
  }

  /** The marks value the arguments make the query bind, if any, fits 64 bits. */
  predicate MarksFit(args: Args) {
    "total_marks" in args && MarksOperator(args).Some? && PyInt(args["total_marks"][0]).Some? ==>
      IsInt64(PyInt(args["total_marks"][0]).value)
  }

  /** Every integer `filter_students` binds fits 64 bits: the marks value, the offset and the limit. */
  predicate FilterFits(args: Args, pageNumber: int, pageSize: int) {
    MarksFit(args) && IsInt64((pageNumber - 1) * pageSize) && IsInt64(pageSize)
  }

  lemma AdmitsAppend(query: seq<Criterion>, cr: Criterion, s: Student)
    ensures Admits(query + [cr], s) <==> Admits(query, s) && Holds(cr, s)
  {
    assert forall i | 0 <= i < |query| :: (query + [cr])[i] == query[i];
    assert (query + [cr])[|query|] == cr;
  }

  lemma QueryFitsAppend(query: seq<Criterion>, cr: Criterion)
    ensures QueryFits(query + [cr]) <==> QueryFits(query) && (cr.MarksCompare? ==> IsInt64(cr.n))
  {
    assert forall i | 0 <= i < |query| :: (query + [cr])[i] == query[i];
    assert (query + [cr])[|query|] == cr;
  }

  /** `get_students_query`: the filters, added one by one; a failing `int()` ends the chain. */
  method GetStudentsQuery(args: Args) returns (query: seq<Criterion>)
    ensures |query| <= 3
    ensures forall s :: Admits(query, s) <==> Selected(args, s)
    ensures QueryFits(query) <==> MarksFit(args)
  {
    query := [];
    if "name" in args {
      QueryFitsAppend(query, NameLike(args["name"][0]));
      query := query + [NameLike(args["name"][0])];
    }
    assert forall s :: Admits(query, s) <==> NameOk(args, s) by {
      if "name" in args {
        forall s {
          AdmitsAppend([], NameLike(args["name"][0]), s);
        }
      }
    }
    assert QueryFits(query);
    if "total_marks" in args {
      var op := Eq;
      var recognised := true;
      if "cp" in args {
        var comparison := args["cp"][0];
        if comparison == "eq" {
          op := Eq;
        } else if comparison == "neq" {
          op := Neq;
        } else if comparison == "gt" {
          op := Gt;
        } else if comparison == "lt" {
          op := Lt;
        } else {
          recognised := false;
        }
      }
      assert recognised <==> MarksOperator(args).Some?;
      assert recognised ==> MarksOperator(args).value == op;
      if recognised {
        var marks := PyInt(args["total_marks"][0]);
        if marks.None? {
          assert MarksFit(args);
          return;
        }
        forall s {
          AdmitsAppend(query, MarksCompare(op, marks.value), s);
        }
        QueryFitsAppend(query, MarksCompare(op, marks.value));
        query := query + [MarksCompare(op, marks.value)];
      }
    }
    assert forall s :: Admits(query, s) <==> NameOk(args, s) && MarksOk(args, s);
    assert QueryFits(query) <==> MarksFit(args);
    if "roll_no" in args {
      forall s {
        AdmitsAppend(query, RollNoLike(args["roll_no"][0]), s);
      }
      QueryFitsAppend(query, RollNoLike(args["roll_no"][0]));
      query := query + [RollNoLike(args["roll_no"][0])];
    }
  }

  datatype FilterPage = FilterPage(data: seq<Row>, total: int, page: int, size: int)

  /** The students the arguments select, in table order. */
  function Selection(table: seq<Student>, args: Args): seq<Student> {
    Keep(table, st => Selected(args, st))
  }

  lemma QuerySelection(table: seq<Student>, args: Args, query: seq<Criterion>)
    requires forall s :: Admits(query, s) <==> Selected(args, s)
    ensures Keep(table, st => Admits(query, st)) == Selection(table, args)
  {
    KeepSame(table, st => Admits(query, st), st => Selected(args, st));
  }

  /** The loop of `filter_students` that appends one JSON object per student. */
  method AppendRecords(students: seq<Student>) returns (results: seq<Row>)
    ensures |results| == |students|
    ensures forall i :: 0 <= i < |students| ==> results[i] == StudentRecord(students[i])
  {
    results := [];
    for k := 0 to |students|
      invariant |results| == k
      invariant forall i :: 0 <= i < k ==> results[i] == StudentRecord(students[i])
    {
      results := results + [StudentRecord(students[k])];
    }
  }

  /**
   * The `try` block of `filter_students`: run the filtered query's window, then
   * the loop; `None` when the query binds an integer the driver refuses.
   */
  method FilteredRecords(table: seq<Student>, args: Args, pageNumber: int, pageSize: int) returns (results: Option<seq<Row>>)
    ensures results.None? <==> !FilterFits(args, pageNumber, pageSize)
    ensures results.Some? ==>
      results.value == StudentRecords(Window(Selection(table, args), (pageNumber - 1) * pageSize, pageSize))
  {
    var query := GetStudentsQuery(args);
    var offset, limit := (pageNumber - 1) * pageSize, pageSize;
    if !(QueryFits(query) && IsInt64(offset) && IsInt64(limit)) {
      return None;
    }
    QuerySelection(table, args, query);
    var filteredStudents := Window(Keep(table, st => Admits(query, st)), offset, limit);
    var records := AppendRecords(filteredStudents);
    results := Some(records);
  }

  /** `filter_students`. */
  method FilterStudents(table: seq<Student>, args: Args) returns (reply: Reply<FilterPage>)
    ensures reply.ServerError? <==>
      || ArgInt(args, "page", 1).None? || ArgInt(args, "size", 10).None?
      || !FilterFits(args, ArgInt(args, "page", 1).value, ArgInt(args, "size", 10).value)
    ensures reply.Ok? ==>
      var p, s := ArgInt(args, "page", 1).value, ArgInt(args, "size", 10).value;
      var window := Window(Selection(table, args), (p - 1) * s, s);
      reply.body == FilterPage(StudentRecords(window), |window|, p, s)
  {
    var pageArg := ArgInt(args, "page", 1);
    var sizeArg := ArgInt(args, "size", 10);
    if pageArg.None? || sizeArg.None? {
      return ServerError;
    }
    var pageNumber, pageSize := pageArg.value, sizeArg.value;
    var results := FilteredRecords(table, args, pageNumber, pageSize);
    if results.None? {
      return ServerError;
    }
    reply := Ok(FilterPage(results.value, |results.value|, pageNumber, pageSize));
  }

  /**
   * A marks value of `2^63`, one past the largest 64-bit integer, makes a filtered
   * request fail for every page and size when `cp` is absent or recognised, since
   * the query then binds it. An unrecognised `cp` binds nothing, and the request
   * is served whenever its offset and limit fit.
   */
  lemma OversizedMarksRejected(p: int, s: int)
    ensures !FilterFits(map["total_marks" := [IntToString(Int64Max + 1)]], p, s)
    ensures !FilterFits(map["total_marks" := [IntToString(Int64Max + 1)], "cp" := ["gt"]], p, s)
    ensures IsInt64((p - 1) * s) && IsInt64(s) ==>
      FilterFits(map["total_marks" := [IntToString(Int64Max + 1)], "cp" := ["foo"]], p, s)
  {
    PyIntOfIntToString(Int64Max + 1);
  }

  /**
   * For page numbers from 1 and sizes from 0, the filtered page holds the
   * selected students at positions `[(page - 1) * size, page * size)` of the
   * selection, which keeps the table's order.
   */
  lemma FilterWindowSpec(table: seq<Student>, args: Args, p: int, s: int)
    requires p >= 1 && s >= 0
    ensures var selected := Selection(table, args);
      var window := Window(selected, (p - 1) * s, s);
      && Subsequence(selected, table)
      && |window| <= s
      && |window| == (if (p - 1) * s >= |selected| then 0 else if |selected| - (p - 1) * s < s then |selected| - (p - 1) * s else s)
      && (forall k :: 0 <= k < |window| ==> window[k] == selected[(p - 1) * s + k] && Selected(args, window[k]))
  {
    KeepIsSubsequence(table, st => Selected(args, st));
    PageArithmetic(p, s);
    WindowOfKeep(table, st => Selected(args, st), (p - 1) * s, s);
  }

  /** A window of a filter's output: its length and where each element comes from. */
  lemma WindowOfKeep<T>(rows: seq<T>, q: T -> bool, offset: int, limit: int)
    requires offset >= 0 && limit >= 0
    ensures var kept := Keep(rows, q);
      var window := Window(kept, offset, limit);
      && |window| == (if offset >= |kept| then 0 else if |kept| - offset < limit then |kept| - offset else limit)
      && (forall k :: 0 <= k < |window| ==> window[k] == kept[offset + k] && q(window[k]))
  {
    var kept := Keep(rows, q);
    WindowSpec(kept, offset, limit);
    var window := Window(kept, offset, limit);
    forall k | 0 <= k < |window|
      ensures window[k] == kept[offset + k] && q(window[k])
    {
      assert offset + k < |kept|;
    }
  }
}
