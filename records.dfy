/**
 * The records the table displays: plain JSON objects whose field values are
 * strings, numbers, arrays of strings or null (client/src/components/Table/Table.jsx
 * reads them through `row[key]`, `Object.values(row)` and `String(value)`).
 */
module Records {
  import opened Wrappers
  import opened Text

  /** A field value of a record. Numbers are the integers the server sends. */
  datatype Value = Str(s: string) | Num(n: int) | Arr(items: seq<string>) | Null

  /** A record: field name to value. A missing key reads as `undefined`. */
  type Row = map<string, Value>

  /** `row[key]`: `None` stands for `undefined`. */
  function Lookup(row: Row, key: string): Option<Value> {
    if key in row then Some(row[key]) else None
  }

  /** `Array.prototype.toString` on an array of strings: the elements joined by commas. */
  function Join(items: seq<string>): string
    decreases |items|
  {
    if items == [] then ""
    else if |items| == 1 then items[0]
    else items[0] + "," + Join(items[1..])
  }

  /** JavaScript `String(v)`. */
  function JsString(v: Option<Value>): string {
    match v
    case None => "undefined"
    case Some(Str(s)) => s
    case Some(Num(n)) => IntToString(n)
    case Some(Arr(items)) => Join(items)
    case Some(Null) => "null"
  }
}

/**
 * `descendingComparator` and `getComparator` (client/src/components/Table/Table.jsx:13-27):
 * a three-way comparison of two records on one field, in either direction.
 */
module Comparators {
  import opened Wrappers
  import opened Records

  datatype Order = Asc | Desc

  /** The component's sort state: direction and the field sorted on. */
  datatype SortState = SortState(order: Order, orderBy: string)

  /** JavaScript `<` on two strings: lexicographic on characters, a proper prefix first. */
  predicate StrLess(a: string, b: string)
    decreases |a|
  {
    if a == [] then b != []
    else b != [] && (a[0] < b[0] || (a[0] == b[0] && StrLess(a[1..], b[1..])))
  }

  lemma {:induction false} StrLessAsymmetric(a: string, b: string)
    ensures !(StrLess(a, b) && StrLess(b, a))
    decreases |a|
  {
    if a != [] && b != [] && a[0] == b[0] {
      StrLessAsymmetric(a[1..], b[1..]);
    }
  }

  lemma {:induction false} StrLessTransitive(a: string, b: string, c: string)
    requires StrLess(a, b) && StrLess(b, c)
    ensures StrLess(a, c)
    decreases |a|
  {
    if a != [] && a[0] == b[0] && b[0] == c[0] {
      StrLessTransitive(a[1..], b[1..], c[1..]);
    }
  }

  lemma {:induction false} StrLessTotal(a: string, b: string)
    ensures a == b || StrLess(a, b) || StrLess(b, a)
    decreases |a|
  {
    if a != [] && b != [] && a[0] == b[0] {
      StrLessTotal(a[1..], b[1..]);
      if a[1..] == b[1..] {
        assert a == [a[0]] + a[1..] && b == [b[0]] + b[1..];
      }
    }
  }

  /**
   * JavaScript `x < y` on two field values. Two numbers or two strings compare
   * naturally; `undefined` compares false with everything. Null, arrays and
   * mixed kinds are also taken to compare false.
   */
  predicate ValueLess(x: Option<Value>, y: Option<Value>) {
    match (x, y)
    case (Some(Num(m)), Some(Num(n))) => m < n
    case (Some(Str(s)), Some(Str(t))) => StrLess(s, t)
    case _ => false
  }

  /** 1 for numbers, 2 for strings, 0 for values that compare with nothing. */
  function Kind(v: Option<Value>): nat {
    match v
    case Some(Num(_)) => 1
    case Some(Str(_)) => 2
    case _ => 0
  }

  lemma ValueLessAsymmetric(x: Option<Value>, y: Option<Value>)
    ensures !(ValueLess(x, y) && ValueLess(y, x))
  {
    if x.Some? && y.Some? && x.value.Str? && y.value.Str? {
      StrLessAsymmetric(x.value.s, y.value.s);
    }
  }

  /** Among values of one kind, `<` is a strict total order (kind 0: nothing is smaller). */
  lemma ValueLessOrder(x: Option<Value>, y: Option<Value>, z: Option<Value>)
    requires Kind(x) == Kind(y) == Kind(z)
    ensures Kind(x) == 0 ==> !ValueLess(x, y) && !ValueLess(y, x)
    ensures Kind(x) != 0 ==> x == y || ValueLess(x, y) || ValueLess(y, x)
    ensures ValueLess(x, y) && ValueLess(y, z) ==> ValueLess(x, z)
  {
    if Kind(x) == 2 {
      StrLessTotal(x.value.s, y.value.s);
      if ValueLess(x, y) && ValueLess(y, z) {
        StrLessTransitive(x.value.s, y.value.s, z.value.s);
      }
    }
  }

  function DescendingComparator(a: Row, b: Row, orderBy: string): int {
    if ValueLess(Lookup(b, orderBy), Lookup(a, orderBy)) then -1
    else if ValueLess(Lookup(a, orderBy), Lookup(b, orderBy)) then 1
    else 0
  }

  /** `getComparator(order, orderBy)(a, b)`. */
  function Compare(c: SortState, a: Row, b: Row): int {
    if c.order == Desc then DescendingComparator(a, b, c.orderBy)
    else -DescendingComparator(a, b, c.orderBy)
  }

  /** The sort key of `x` comes first in direction `o`: smaller when ascending, larger when descending. */
  predicate Precedes(o: Order, x: Option<Value>, y: Option<Value>) {
    if o == Asc then ValueLess(x, y) else ValueLess(y, x)
  }

  /**
   * The sign of the comparator: negative exactly when `a` comes first in the
   * chosen direction, positive exactly when `b` does, zero otherwise.
   */
  lemma CompareSign(c: SortState, a: Row, b: Row)
    ensures Compare(c, a, b) in {-1, 0, 1}
    ensures Compare(c, a, b) < 0 <==> Precedes(c.order, Lookup(a, c.orderBy), Lookup(b, c.orderBy))
    ensures Compare(c, a, b) > 0 <==> Precedes(c.order, Lookup(b, c.orderBy), Lookup(a, c.orderBy))
  {
    ValueLessAsymmetric(Lookup(a, c.orderBy), Lookup(b, c.orderBy));
  }

  /** Swapping the arguments negates the result, in both directions. */
  lemma CompareAntisymmetric(c: SortState, a: Row, b: Row)
    ensures Compare(c, a, b) == -Compare(c, b, a)
  {
    ValueLessAsymmetric(Lookup(a, c.orderBy), Lookup(b, c.orderBy));
  }

  /** The descending comparator is the ascending one with its sign flipped. */
  lemma DescendingNegatesAscending(k: string, a: Row, b: Row)
    ensures Compare(SortState(Desc, k), a, b) == -Compare(SortState(Asc, k), a, b)
    ensures Compare(SortState(Desc, k), a, b) == Compare(SortState(Asc, k), b, a)
  {
    ValueLessAsymmetric(Lookup(a, k), Lookup(b, k));
  }

  /**
   * On records whose sort-field values share one kind the comparator is a total
   * preorder: "not after" is transitive, and a chain is a tie only if each step is.
   */
  lemma ComparePreorder(c: SortState, a: Row, b: Row, d: Row)
    requires Kind(Lookup(a, c.orderBy)) == Kind(Lookup(b, c.orderBy)) == Kind(Lookup(d, c.orderBy))
    requires Compare(c, a, b) <= 0 && Compare(c, b, d) <= 0
    ensures Compare(c, a, d) <= 0
    ensures Compare(c, a, d) == 0 ==> Compare(c, a, b) == 0 && Compare(c, b, d) == 0
  {
    var va, vb, vd := Lookup(a, c.orderBy), Lookup(b, c.orderBy), Lookup(d, c.orderBy);
    ValueLessOrder(va, vb, vd);
    ValueLessOrder(vd, vb, va);
    ValueLessOrder(va, vd, vb);
    ValueLessOrder(vb, va, vd);
    ValueLessAsymmetric(va, vb);
    ValueLessAsymmetric(vb, vd);
    ValueLessAsymmetric(va, vd);
  }
}
