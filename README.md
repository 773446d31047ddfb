# Student table viewer: sort/filter pipeline and paginated student API

A Dafny model of the logic inside a small student-table viewer.

The client side is the React table component (`client/src/components/Table/Table.jsx`). It filters rows per field and runs an index-tagged stable sort. A free-text search, when present, replaces the sorted result. It then shows one page of the output. It also keeps a sort-header state machine and computes the Pre/Next button conditions.

The server side is the Sanic/SQLAlchemy API (`server/app.py`). `GET /students` pages through the table with a look-ahead row that decides the `next` link. `GET /students/filter` combines a name filter, a marks comparison and a roll-number filter, then returns one page of the matches.

The database is replaced by the `students` table held as a sequence of `Student` values in storage order. OFFSET/LIMIT become sequence windows. `LIKE '%x%'` becomes case-folded substring containment.

Modules:

- `Wrappers`, `Text` (`text.dfy`): `Option`, ASCII case folding, the whitespace set of JavaScript `trim()`, substring containment, decimal rendering of integers.
- `Seqs` (`seqs.dfy`): order-preserving filtering (`Keep`) and the subsequence relation.
- `Records`, `Comparators` (`records.dfy`): JSON record values, JavaScript `String()`, and `descendingComparator`/`getComparator`.
- `SortFilter` (`sortfilter.dfy`): `applySortFilter`. The sort runs in place on an `array` of tagged rows and is proved equal to a functional insertion sort. The caller's filter object is a class whose `searchText` entry the method deletes.
- `TableView` (`tableview.dfy`): the component state as a class, the page slice, the sort-header clicks, the Pre/Next conditions.
- `StudentApi` (`server.dfy`): Python `int()`, SQLite OFFSET/LIMIT, `paginate_students`, `get_students`, `get_students_query` and `filter_students`.
- `ClientServer` (`clientserver.dfy`): facts that tie the two sides together.

Behaviours of the code worth noting:

- The search tests the untrimmed query for truthiness. It then matches the trimmed, lower-cased query. So a whitespace-only query counts as present: the sort is dropped, and every field-filtered row that has a value other than an empty array is returned.
- An unrecognised `cp` adds no marks filter. A `total_marks` that `int()` rejects also stops the roll-number filter, because the exception is caught after the name filter was added.
- Because `undefined < x` is false, a sort on a field no record has (the default `RuleId`) leaves the rows in input order.
- Python integers are unbounded, but the SQLite driver binds 64-bit integers. A `page`/`size` pair whose offset or limit falls outside that range, or a `total_marks` value outside it when a recognised (or absent) `cp` makes the query bind it, makes the query raise when it runs, which is a 500 reply.

## Model

| member | source | states |
|---|---|---|
| `Comparators.CompareSign` | client/src/components/Table/Table.jsx:13-27 | `getComparator(order, k)(a, b)` is -1, 0 or 1. It is negative exactly when `a[k]` comes first in the chosen direction (smaller ascending, larger descending) and positive exactly when `b[k]` does |
| `Comparators.CompareAntisymmetric` | client/src/components/Table/Table.jsx:13-27 | swapping the two records negates the comparator's result, in both directions |
| `Comparators.DescendingNegatesAscending` | client/src/components/Table/Table.jsx:23-27 | the descending comparator is the exact negation of the ascending one, and equals the ascending one with its arguments swapped |
| `Comparators.ComparePreorder` | client/src/components/Table/Table.jsx:13-21 | on records whose sort-field values are all numbers, all strings, or all incomparable, "not after" is transitive, and a chain is a tie only if each step is a tie |
| `Comparators.StrLessTotal` | client/src/components/Table/Table.jsx:14-17 | JavaScript string `<` is total: two strings are equal or one is smaller |
| `Comparators.StrLessTransitive` | client/src/components/Table/Table.jsx:14-17 | JavaScript string `<` is transitive |
| `Comparators.StrLessAsymmetric` | client/src/components/Table/Table.jsx:14-17 | no two strings are each smaller than the other |
| `Text.TrimEmptyIffBlank` | client/src/components/Table/Table.jsx:50 | `trim()` yields the empty string exactly when every character is JavaScript whitespace |
| `Seqs.Keep` | client/src/components/Table/Table.jsx:33-40 | a filter is no longer than its input, keeps only elements that pass, and holds each element that passes |
| `Seqs.KeepCounts` | client/src/components/Table/Table.jsx:33-40 | a filter keeps every occurrence of an element that passes and none of an element that fails, so duplicate rows survive as often as they occur |
| `Seqs.KeepIsSubsequence` | client/src/components/Table/Table.jsx:33-40 | a filter's output is a subsequence of its input, in input order |
| `SortFilter.FieldFilterSpec` | client/src/components/Table/Table.jsx:33-40 | field filtering keeps, in input order and with every duplicate, exactly the rows where `String(row[key])` contains each non-empty criterion, both case-folded |
| `SortFilter.SearchFilterSpec` | client/src/components/Table/Table.jsx:48-59 | search keeps, in input order and with every duplicate, exactly the rows with a field (or array element) that contains the trimmed, lower-cased query |
| `SortFilter.EmptyCriteriaKeepAll` | client/src/components/Table/Table.jsx:35 | criteria whose values are all empty keep every row, in order |
| `SortFilter.BlankQueryKeepsSearchableRows` | client/src/components/Table/Table.jsx:48-59 | a whitespace-only query keeps, in order, exactly the rows with a value other than an empty array; if every row has one, all rows are kept |
| `SortFilter.InsertInPlace` | client/src/components/Table/Table.jsx:43-47 | one insertion pass moves `a[i]` into the sorted prefix, as the functional `Insert` does, and leaves the rest of the array alone |
| `SortFilter.SortInPlace` | client/src/components/Table/Table.jsx:43-47 | the in-place sort of the tagged array leaves it equal to the insertion sort of its old contents |
| `SortFilter.InsertionSortPermutes` | client/src/components/Table/Table.jsx:43-47 | sorting permutes the tagged rows, and so also the rows they carry |
| `SortFilter.InsertionSortSorted` | client/src/components/Table/Table.jsx:43-47 | when the sort field has one kind, the tagged result is ordered by the comparator with ties broken by original index |
| `SortFilter.InsertionSortDistinct` | client/src/components/Table/Table.jsx:42-43 | sorting keeps the tags pairwise distinct |
| `SortFilter.StableSortSpec` | client/src/components/Table/Table.jsx:42-47 | each output row is the input row at its tag, the tags are distinct, and the output is a permutation of the input. When the sort field has one kind, the rows are in comparator order and equal rows keep their input order |
| `SortFilter.SortOnIncomparableFieldKeepsOrder` | client/src/components/Table/Table.jsx:42-47 | sorting on a field that every row lacks, or holds only null or arrays in, returns the input unchanged (as modelled: JavaScript compares two arrays as their joined strings, which the model does not) |
| `SortFilter.ApplySortFilter` | client/src/components/Table/Table.jsx:29-62 | deletes `searchText` from the caller's filter object. Returns the search over the unsorted field-filtered rows when the query is non-empty, and their stable sort otherwise |
| `SortFilter.QueryBypassesSort` | client/src/components/Table/Table.jsx:48-61 | with a non-empty query the result does not depend on the sort state and is a subsequence of the field-filtered rows |
| `SortFilter.SearchTextIgnored` | client/src/components/Table/Table.jsx:30-31 | the criteria's `searchText` entry, whatever its value, never changes the result |
| `SortFilter.NoQueryResultSorted` | client/src/components/Table/Table.jsx:42-61 | with no query, the result is a permutation of the field-filtered rows, in comparator order when the sort field has one kind |
| `SortFilter.DefaultsKeepInput` | client/src/components/Table/Table.jsx:76 | with no active criteria, no query and a sort field no row has, the output is exactly the input |
| `TableView.PageSliceSpec` | client/src/components/Table/Table.jsx:111 | the displayed page holds the rows from `page * rowsPerPage` on: at most `rowsPerPage`, the remainder on the last page, none past the end |
| `TableView.RowShowsOnItsPage` | client/src/components/Table/Table.jsx:111 | row `i` is shown on page `i / rowsPerPage` at position `i % rowsPerPage` |
| `TableView.ClickSpec` | client/src/components/Table/Table.jsx:78-82 | a click makes the clicked column the sort column. It sorts descending exactly when that column was ascending, and a second click reverses the direction |
| `TableView.TableState.constructor` | client/src/components/Table/Table.jsx:73-76 | a new table starts on page 0 with 10 rows per page, ascending on `RuleId` |
| `TableView.TableState.HandleRequestSort` | client/src/components/Table/Table.jsx:78-82 | the new sort state is the old one after a click on the column; the paging state is unchanged |
| `TableView.TableState.DisplayedRows` | client/src/components/Table/Table.jsx:84 | one render: the current page of the pipeline's output, at most `rowsPerPage` rows; `searchText` is deleted from the filter object |
| `TableView.PreDisabledSpec` | client/src/components/Table/Table.jsx:152 | Pre is disabled exactly on page 1 or with page size 0 |
| `StudentApi.PyIntOfIntToString` | server/app.py:143-145 | Python `int()` reads back the decimal text of any integer, so page numbers written into a link parse to themselves |
| `StudentApi.WindowSpec` | server/app.py:47 | OFFSET `o`/LIMIT `l` with `o, l >= 0` returns the rows at positions `[o, o + l)` that exist |
| `StudentApi.PaginateSpec` | server/app.py:31-48 | `paginate_students` returns the rows at `[(page-1)*size, (page-1)*size + size + 1)` that exist: at most `size + 1`, none once the offset passes the table's end |
| `StudentApi.GetStudentsDefaults` | server/app.py:111-112 | without `page` and `size` the reply is page 1 of size 10 |
| `StudentApi.GetStudentsLinkArgs` | server/app.py:110-118 | the arguments of a link built from two integers are served exactly when the offset and limit fit 64 bits, and then as that page of that size |
| `StudentApi.GetStudentsRejectsFraction` | server/app.py:111 | a page number such as `1.5`, which `int()` rejects, gets a 500 reply |
| `StudentApi.GetStudentsRejectsOversizedOffset` | server/app.py:46-47 | page 3 of size `2^62` has an offset beyond 64 bits and gets a 500 reply |
| `StudentApi.StudentsReplySpec` | server/app.py:114-146 | the data is the page's window of the table and `total` is its length (at most `size`); `count` is the table length; `next` is present iff rows remain after this page, and then it links page `page + 1` of the same size |
| `StudentApi.FollowNextLink` | server/app.py:142-146 | the `next` link asks for page `page + 1` of the same size; for pages from 1 and sizes from 0 its data starts at row `page * size`. It is served exactly when `page * size` fits 64 bits, which always holds for sizes from 0 on a table of fewer than `2^63` rows |
| `StudentApi.PageZeroRepeatsFirstPage` | server/app.py:46-47 | for sizes from 0, `page=0` is served exactly when page 1 is (sizes below `2^63 - 1`), with the same rows, but reports page 0 |
| `StudentApi.GetStudentsQuery` | server/app.py:51-96 | the built query admits exactly the selected students. The name filter always applies. The marks comparison comes from `cp` (`==` without `cp`, none for an unknown `cp`). A failing `int()` drops the marks and roll-number filters. The query binds only 64-bit integers exactly when the parsed marks value fits |
| `StudentApi.AppendRecords` | server/app.py:176-184 | the loop yields one JSON record per student, in order |
| `StudentApi.FilteredRecords` | server/app.py:166-184 | fails exactly when a marks value the query binds (absent or recognised `cp`), the offset or the limit does not fit 64 bits; otherwise the query's OFFSET/LIMIT window over the selected students, turned into JSON records in order |
| `StudentApi.FilterStudents` | server/app.py:151-198 | an error exactly when `page` or `size` is not an integer or a bound integer does not fit 64 bits; otherwise the OFFSET/LIMIT window of the selected students as records, with `total` its length |
| `StudentApi.FilterWindowSpec` | server/app.py:169-174 | the selection keeps table order; the page holds exactly the selected students at positions `[(page-1)*size, page*size)` of the selection: `size` of them, fewer on the last page, none past the end |
| `StudentApi.OversizedMarksRejected` | server/app.py:67-89 | with no `cp` (or a recognised one), a `total_marks` of `2^63`, which 64 bits cannot hold, makes the request fail for every page and size; with an unrecognised `cp` it is never bound, and the request is served whenever its offset and limit fit |
| `ClientServer.ServerRecordsSortTotally` | server/app.py:120-129 | the records the server sends have one kind per field, so without a query the client output on them is in comparator order on any column |
| `ClientServer.NextEnabledOnLastPage` | client/src/components/Table/Table.jsx:153 | 25 students, page 3 of size 10: the server sends no `next` link, yet the Next button as written is enabled |
| `ClientServer.IntendedNextMatchesServer` | client/src/components/Table/Table.jsx:153 | for pages from 1 and sizes from 0, the corrected condition `pageno * size >= totalRecord` disables Next exactly when the server sends no `next` link |

## Findings

| source | as written | input that shows it | evidently intended | confidence | as-written member | corrected member |
|---|---|---|---|---|---|---|
| client/src/components/Table/Table.jsx:153 | Next is disabled only when `pageno*size === totalRecord` | 25 students, page 3, size 10: no `next` link, but 30 differs from 25 so Next stays enabled | disabled when no record lies past this page, `pageno*size >= totalRecord` | medium, not executed | `ClientServer.NextEnabledOnLastPage` (on `TableView.NextDisabled`) | `ClientServer.IntendedNextMatchesServer` (on `TableView.NextDisabledIntended`) |

## Left out

- `client/src/App.jsx` is not part of this model: HTTP calls, React state setters, theming and media queries. Its page/cursor handling copies response fields; its last-response-wins races are concurrency.
- JSX rendering, MUI components and the "Not found" message (Table.jsx:86-155, apart from the slice and the button conditions).
- Case folding is ASCII only; Unicode `toLowerCase` and locale rules are not modelled.
- Numbers are integers; JavaScript's rendering of fractions and of very large numbers is not modelled.
- JavaScript `<` between null, arrays or values of different kinds is taken as false both ways. For `undefined` that is exact; for the rest it replaces JavaScript's coercions. Strings compare by code point rather than by UTF-16 code unit.
- The engine's sort algorithm is replaced by insertion sort. When the comparator is not a total preorder (a sort column that mixes kinds), JavaScript's order is implementation-defined.
- `SortFilter.StableSortSpec`: comparator order and stability are stated only when the sort field has one kind across the rows, because otherwise the JavaScript comparator is inconsistent.
- `SortFilter.NoQueryResultSorted`: comparator order is stated only when the sort field has one kind, for the same reason.
- `SortFilter.InsertionSortSorted`: stated only when the sort field has one kind, for the same reason.
- Filter criteria are strings, with `""` the only falsy value. `null`, `undefined` or `0` criteria behave like `""`; non-string truthy criteria, which would throw, are not modelled. The query is a string, never `undefined`. Array elements are strings.
- lodash `filter` on a missing `rawData` is not modelled.
- `StudentApi.StudentsReplySpec`: stated for page numbers from 1 and sizes from 0. Other values are covered by the function definitions (SQLite treats a negative OFFSET as 0 and a negative LIMIT as none; Python slices with a negative stop) and by `StudentApi.PageZeroRepeatsFirstPage`.
- `StudentApi.PaginateSpec`: stated for page numbers from 1 and sizes from 0, as above.
- `StudentApi.PageZeroRepeatsFirstPage`: stated for sizes from 0. With a negative size, page 0's offset is positive while page 1's is negative, so the two pages differ.
- `StudentApi.FollowNextLink`: the position of the next page's data is stated for pages from 1 and sizes from 0 only.
- `ClientServer.IntendedNextMatchesServer`: stated for pages from 1 and sizes from 0. On page 0 the corrected condition does not match the `next` link.
- `StudentApi.FilterWindowSpec`: stated for page numbers from 1 and sizes from 0, as above.
- SQL `LIKE`: `%` and `_` in the user's text act as wildcards in SQLite; the model treats them literally. NULL columns are not modelled.
- Rows come back in storage order; SQLite gives no order without ORDER BY.
- The `print(e)` of a caught exception (server/app.py:95, 132, 187) is console output and is not modelled.
- Database failures (`SQLAlchemyError`, the 500 replies at server/app.py:131-133 and 186-188) are not modelled, since there is no database. Session lifecycle is not modelled, and `count` after the session block is the table length.
- Sanic routing, CORS and JSON encoding are not modelled. The next link is written as the `urlencode` output for two integers. `LinkArgs` gives the arguments such a link carries; parsing the URL is not modelled.
- Python `int()`: only ASCII digits and ASCII whitespace are modelled.
- `load_json_file_data_to_db` (server/app.py:201-218): file I/O and inserts.
