/** The values a json-viewer element can be bound to (its `data` property),
    with the few run-time tests the viewer applies to them: JavaScript's
    `typeof`, `Array.isArray`, the viewer's own `isObject` test and
    `Object.entries`. Values are inductive, so every value is acyclic. */
module JsonValue {

  /** The kinds of JavaScript value that are neither JSON-like nor `undefined`. */
  datatype Exotic = Function | Symbol | BigInt

  /** A JavaScript value as the viewer sees it. An object's entries are kept in
      the order `Object.entries` yields them. */
  datatype Value =
    | Undef
    | Null
    | Bool(b: bool)
    | Num(n: int)
    | Str(s: string)
    | Arr(items: seq<Value>)
    | Obj(entries: seq<(string, Value)>)
    | Other(kind: Exotic)

  /** JavaScript's `typeof` operator. */
  function TypeOf(v: Value): (r: string)
    ensures r == "object" <==> v.Null? || v.Arr? || v.Obj?
    ensures r == "string" <==> v.Str?
    ensures r == "number" <==> v.Num?
    ensures r == "boolean" <==> v.Bool?
    ensures r == "undefined" <==> v.Undef?
  {
    match v
    case Undef => "undefined"
    case Null => "object"
    case Bool(_) => "boolean"
    case Num(_) => "number"
    case Str(_) => "string"
    case Arr(_) => "object"
    case Obj(_) => "object"
    case Other(Function) => "function"
    case Other(Symbol) => "symbol"
    case Other(BigInt) => "bigint"
  }

  /** `Array.isArray`. An array is also an object to `typeof`, which is why
      `render` must test for arrays before it looks at `typeof`. */
  predicate IsArray(v: Value)
    ensures IsArray(v) ==> TypeOf(v) == "object" && v != Null
  {
    v.Arr?
  }

  /** The viewer's test `x !== null && typeof x === "object"`: it holds of
      exactly the composite values, arrays included. */
  predicate IsObject(v: Value)
    ensures IsObject(v) <==> v.Arr? || v.Obj?
  {
    v != Null && TypeOf(v) == "object"
  }

  /** A decimal digit. */
  function DigitChar(d: nat): (c: char)
    requires d < 10
    ensures '0' <= c <= '9'
  {
    (('0' as int) + d) as char
  }

  /** The value of a decimal digit character. */
  function DigitValue(c: char): nat
    requires '0' <= c <= '9'
  {
    (c as int) - ('0' as int)
  }

  predicate IsDigits(s: string) {
    forall k :: 0 <= k < |s| ==> '0' <= s[k] <= '9'
  }

  /** The property key JavaScript uses for array index `n`: its canonical
      decimal form, with no leading zero unless the index is 0. */
  function IndexKey(n: nat): (r: string)
    ensures |r| >= 1 && IsDigits(r)
    ensures r[0] == '0' <==> n == 0
    decreases n
  {
    if n < 10 then [DigitChar(n)] else IndexKey(n / 10) + [DigitChar(n % 10)]
  }

  /** Reads a string of decimal digits back as a number. */
  function ParseIndex(s: string): nat
    requires IsDigits(s)
  {
    if s == [] then 0 else ParseIndex(s[..|s| - 1]) * 10 + DigitValue(s[|s| - 1])
  }

  /** Parsing an index key gives the index back. */
  lemma {:induction false} ParseIndexKey(n: nat)
    ensures ParseIndex(IndexKey(n)) == n
    decreases n
  {
    var s := IndexKey(n);
    if n < 10 {
      assert s[..|s| - 1] == [];
    } else {
      assert s[..|s| - 1] == IndexKey(n / 10);
      ParseIndexKey(n / 10);
    }
  }

  /** Distinct indices have distinct keys. */
  lemma IndexKeyInjective(m: nat, n: nat)
    ensures IndexKey(m) == IndexKey(n) <==> m == n
  {
    if IndexKey(m) == IndexKey(n) {
      ParseIndexKey(m);
      ParseIndexKey(n);
    }
  }

  /** `Object.entries` on a composite value: an array yields one entry per
      element, keyed by its index in decimal; an object yields its own entries.
      The viewer never asks for the entries of any other kind of value. */
  function Entries(v: Value): (r: seq<(string, Value)>)
    ensures v.Arr? ==> |r| == |v.items| && forall i :: 0 <= i < |r| ==> r[i].1 == v.items[i]
    ensures v.Arr? ==> forall i {:trigger IndexKey(i)} :: 0 <= i < |r| ==> r[i].0 == IndexKey(i)
    ensures v.Obj? ==> r == v.entries
    ensures !IsObject(v) ==> r == []
  {
    match v
    case Arr(items) => seq(|items|, i requires 0 <= i < |items| => (IndexKey(i), items[i]))
    case Obj(es) => es
    case _ => []
  }

  /** The values of the entries of `v`, in order; each lies strictly inside
      `v`, so a viewer's children are bound to smaller values than its own. */
  function Children(v: Value): (r: seq<Value>)
    ensures |r| == |Entries(v)| && forall i :: 0 <= i < |r| ==> r[i] == Entries(v)[i].1
    ensures forall i :: 0 <= i < |r| ==> r[i] < v
    ensures !IsObject(v) ==> r == []
  {
    seq(|Entries(v)|, i requires 0 <= i < |Entries(v)| => Entries(v)[i].1)
  }

  /** The entries of an array have pairwise distinct keys. */
  lemma ArrayKeysDistinct(v: Value, i: nat, j: nat)
    requires v.Arr? && i < |Entries(v)| && j < |Entries(v)| && i != j
    ensures Entries(v)[i].0 != Entries(v)[j].0
  {
    IndexKeyInjective(i, j);
  }

  /** Every entry's value is structurally smaller than the composite holding it. */
  lemma EntryValueSmaller(v: Value, i: nat)
    requires i < |Entries(v)|
    ensures Entries(v)[i].1 < v
  {
  }
}
