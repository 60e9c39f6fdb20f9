/**
 * The JavaScript values the template pipeline handles: the properties of a
 * bound template instance, the rows of a table, and the render options.
 * Only what the pipeline observes is modelled: the `typeof ... === 'object'`
 * test, `Reflect.get` on own properties, and string conversion (`ToString`)
 * as `String.prototype.replace` and `innerHTML` apply it.
 */
module JsValue {

  datatype Option<+T> = None | Some(value: T) {
    function GetOr(default: T): T {
      match this
      case Some(v) => v
      case None => default
    }
  }

  /** Concatenation regrouped; used to keep proofs about growing traces and texts small. */
  lemma AppendAssoc<T>(a: seq<T>, b: seq<T>, c: seq<T>)
    ensures (a + b) + c == a + (b + c)
  {
  }

  /** A JSON-like JavaScript value. Numbers are integral (see README). */
  datatype Value =
    | Undefined
    | Null
    | Bool(b: bool)
    | Num(n: int)
    | Str(s: string)
    | Arr(items: seq<Value>)
    | Obj(props: map<string, Value>)

  /** `v != null && typeof v === 'object'`: the values `Reflect.get` accepts as a target. */
  predicate IsObject(v: Value) {
    v.Arr? || v.Obj?
  }

  /** `v == null`, true of both null and undefined. */
  predicate IsNullish(v: Value) {
    v.Null? || v.Undefined?
  }

  function Digit(d: nat): (c: char)
    requires d < 10
    ensures '0' <= c <= '9' && DigitValue(c) == d
  {
    ('0' as int + d) as char
  }

  function DigitValue(c: char): int {
    c as int - '0' as int
  }

  /** The number a text of decimal digits denotes, most significant digit first. */
  function DecimalValue(s: string): int
    decreases |s|
  {
    if s == [] then 0 else 10 * DecimalValue(s[..|s| - 1]) + DigitValue(s[|s| - 1])
  }

  /**
   * Decimal text of a natural number, most significant digit first: the
   * digits denote `n`, and only zero itself starts with the digit 0.
   */
  function NatToString(n: nat): (r: string)
    ensures |r| > 0
    ensures forall i :: 0 <= i < |r| ==> '0' <= r[i] <= '9'
    ensures DecimalValue(r) == n
    ensures r[0] == '0' ==> n == 0
    ensures n < 10 <==> |r| == 1
  {
    if n < 10 then [Digit(n)]
    else
      var r := NatToString(n / 10) + [Digit(n % 10)];
      assert r[..|r| - 1] == NatToString(n / 10);
      r
  }

  /** Distinct numbers have distinct decimal texts, so an array index key names one element. */
  lemma NatToStringInjective(a: nat, b: nat)
    requires NatToString(a) == NatToString(b)
    ensures a == b
  {
    assert DecimalValue(NatToString(a)) == a && DecimalValue(NatToString(b)) == b;
  }

  function IntToString(n: int): string {
    if n < 0 then "-" + NatToString(-n) else NatToString(n)
  }

  /** The items joined with `sep` between neighbours, as `Array.prototype.join` does. */
  function Join(parts: seq<string>, sep: string): string {
    if parts == [] then ""
    else if |parts| == 1 then parts[0]
    else parts[0] + sep + Join(parts[1..], sep)
  }

  /**
   * The ECMAScript `ToString` of a value: an array converts through
   * `join(',')`, where null and undefined elements become empty text, and a
   * plain object becomes "[object Object]".
   */
  function ToJsString(v: Value): string
    decreases v
  {
    match v
    case Undefined => "undefined"
    case Null => "null"
    case Bool(b) => if b then "true" else "false"
    case Num(n) => IntToString(n)
    case Str(s) => s
    case Arr(items) =>
      Join(seq(|items|, i requires 0 <= i < |items| =>
        if IsNullish(items[i]) then "" else ToJsString(items[i])), ",")
    case Obj(_) => "[object Object]"
  }

  /** The element whose canonical index text is `key`, searching from `from`. */
  function IndexLookup(items: seq<Value>, key: string, from: nat): (r: Value)
    ensures r.Undefined? || exists i :: from <= i < |items| && NatToString(i) == key && r == items[i]
    decreases |items| - from
  {
    if from >= |items| then Undefined
    else if NatToString(from) == key then items[from]
    else IndexLookup(items, key, from + 1)
  }

  /**
   * `Reflect.get(target, key)` for an object target: an own property of a
   * plain object, or the `length` or an element of an array; anything else is
   * undefined. A non-object target makes `Reflect.get` throw, which the
   * callers model before calling this.
   */
  function Get(target: Value, key: string): Value
    requires IsObject(target)
  {
    match target
    case Obj(props) => if key in props then props[key] else Undefined
    case Arr(items) => if key == "length" then Num(|items|) else IndexLookup(items, key, 0)
  }

  /** An array element is reached through its decimal index. */
  lemma {:induction false} GetArrayIndex(items: seq<Value>, i: nat)
    requires i < |items|
    ensures Get(Arr(items), NatToString(i)) == items[i]
  {
    var key := NatToString(i);
    assert key != "length" by {
      assert 'l' !in key;
    }
    IndexLookupFinds(items, key, 0, i);
  }

  lemma {:induction false} IndexLookupFinds(items: seq<Value>, key: string, from: nat, i: nat)
    requires from <= i < |items| && NatToString(i) == key
    ensures IndexLookup(items, key, from) == items[i]
    decreases i - from
  {
    if NatToString(from) == key {
      NatToStringInjective(from, i);
    } else {
      IndexLookupFinds(items, key, from + 1, i);
    }
  }
}
