/** The scalar values a decoded JSON row can hold once it sits in a table
    cell, and the notion of equality used when rows are compared. */
module Cells {

  /** One table cell. JSON `null`, a missing key and a floating-point NaN are
      all `Null`; integers and floats are kept apart because a column's
      numeric-ness depends on it, but both are exact here. */
  datatype Cell =
    | Null
    | Int(i: int)
    | Float(x: real)
    | Bool(b: bool)
    | Text(s: string)

  predicate IsNumber(c: Cell) {
    c.Int? || c.Float?
  }

  predicate IsPresent(c: Cell) {
    !c.Null?
  }

  function NumberValue(c: Cell): real
    requires IsNumber(c)
  {
    if c.Int? then c.i as real else c.x
  }

  /** Python's own equality between two cells, case by case, with a missing
      value equal to a missing value (as row de-duplication treats it):
      `True == 1 == 1.0`, `False == 0`, and text equals only text. */
  predicate SameValue(a: Cell, b: Cell) {
    match a
    case Null => b.Null?
    case Text(s) => b.Text? && b.s == s
    case Int(i) =>
      (match b
       case Int(j) => i == j
       case Float(y) => i as real == y
       case Bool(t) => i == (if t then 1 else 0)
       case _ => false)
    case Float(x) =>
      (match b
       case Int(j) => x == j as real
       case Float(y) => x == y
       case Bool(t) => x == (if t then 1.0 else 0.0)
       case _ => false)
    case Bool(t) =>
      (match b
       case Int(j) => (if t then 1 else 0) == j
       case Float(y) => (if t then 1.0 else 0.0) == y
       case Bool(u) => t == u
       case _ => false)
  }

  /** The value a cell stands for when rows are compared. */
  datatype Key = NullKey | NumKey(v: real) | TextKey(s: string)

  function KeyOf(c: Cell): (k: Key)
    ensures k.NullKey? <==> c.Null?
    ensures k.TextKey? <==> c.Text?
  {
    match c
    case Null => NullKey
    case Int(i) => NumKey(i as real)
    case Float(x) => NumKey(x)
    case Bool(b) => NumKey(if b then 1.0 else 0.0)
    case Text(s) => TextKey(s)
  }

  /** Comparing keys is exactly comparing values the Python way. */
  lemma KeyOfDecidesSameValue(a: Cell, b: Cell)
    ensures KeyOf(a) == KeyOf(b) <==> SameValue(a, b)
  {
  }

  /** Hence `SameValue` is an equivalence. */
  lemma SameValueIsEquivalence(a: Cell, b: Cell, c: Cell)
    ensures SameValue(a, a)
    ensures SameValue(a, b) ==> SameValue(b, a)
    ensures SameValue(a, b) && SameValue(b, c) ==> SameValue(a, c)
  {
    KeyOfDecidesSameValue(a, a);
    KeyOfDecidesSameValue(a, b);
    KeyOfDecidesSameValue(b, a);
    KeyOfDecidesSameValue(b, c);
    KeyOfDecidesSameValue(a, c);
  }
}
