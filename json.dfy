/** The loosely typed host values the extension reads: JavaScript's
    `undefined`, `null`, booleans, numbers, strings, arrays, plain objects and
    `Map` instances, with the coercions the source relies on (`||`, `??`,
    `===`, `String(v)`, `Number(v)`). */
module Json {
  import opened Strings

  datatype Option<+T> = None | Some(value: T)

  /** A host value. Numbers are integral. A plain object keeps its properties
      in enumeration order (what `Object.values` and `Object.entries` see);
      its keys are distinct, and a read takes the first pair with the key.
      A `Map` instance is kept as its values in insertion order. */
  datatype JValue =
    | JUndefined
    | JNull
    | JBool(b: bool)
    | JNum(n: int)
    | JStr(s: string)
    | JArr(elems: seq<JValue>)
    | JObj(fields: seq<(string, JValue)>)
    | JMap(values: seq<JValue>)

  /** `v == null`: true for both `null` and `undefined`. */
  predicate IsNullish(v: JValue) {
    v.JUndefined? || v.JNull?
  }

  /** JavaScript truthiness: `undefined`, `null`, `false`, `0` and `""` are
      falsy; every array, object and `Map` is truthy. */
  predicate Truthy(v: JValue) {
    match v
    case JUndefined => false
    case JNull => false
    case JBool(b) => b
    case JNum(n) => n != 0
    case JStr(s) => |s| > 0
    case _ => true
  }

  /** `a || b` */
  function Or(a: JValue, b: JValue): JValue {
    if Truthy(a) then a else b
  }

  /** `a ?? b` */
  function Coalesce(a: JValue, b: JValue): JValue {
    if IsNullish(a) then b else a
  }

  function Lookup(fields: seq<(string, JValue)>, key: string): JValue {
    if |fields| == 0 then JUndefined
    else if fields[0].0 == key then fields[0].1
    else Lookup(fields[1..], key)
  }

  predicate HasKey(fields: seq<(string, JValue)>, key: string) {
    exists i :: 0 <= i < |fields| && fields[i].0 == key
  }

  /** `v?.[key]`: a missing property, and any property of a value that is not
      a plain object, reads as `undefined`. */
  function Get(v: JValue, key: string): JValue {
    match v
    case JObj(fields) => Lookup(fields, key)
    case _ => JUndefined
  }

  /** `values[0] || values[1] || … || last`: the first truthy value, or
      `last` when none is. */
  function FirstTruthyOr(values: seq<JValue>, last: JValue): (r: JValue)
    ensures forall k :: 0 <= k < |values| && Truthy(values[k]) && (forall j :: 0 <= j < k ==> !Truthy(values[j]))
                        ==> r == values[k]
    ensures (forall k :: 0 <= k < |values| ==> !Truthy(values[k])) ==> r == last
  {
    if |values| == 0 then last
    else
      var rest := FirstTruthyOr(values[1..], last);
      assert forall k :: 0 < k < |values| ==> values[k] == values[1..][k - 1];
      Or(values[0], rest)
  }

  /** `values[0] ?? values[1] ?? … ?? last`: the first value that is
      neither `null` nor `undefined`, or `last` when there is none. */
  function FirstPresentOr(values: seq<JValue>, last: JValue): (r: JValue)
    ensures forall k :: 0 <= k < |values| && !IsNullish(values[k]) && (forall j :: 0 <= j < k ==> IsNullish(values[j]))
                        ==> r == values[k]
    ensures (forall k :: 0 <= k < |values| ==> IsNullish(values[k])) ==> r == last
  {
    if |values| == 0 then last
    else
      var rest := FirstPresentOr(values[1..], last);
      assert forall k :: 0 < k < |values| ==> values[k] == values[1..][k - 1];
      Coalesce(values[0], rest)
  }

  lemma FirstTruthyOrStep(values: seq<JValue>, last: JValue)
    requires |values| > 0
    ensures FirstTruthyOr(values, last) == Or(values[0], FirstTruthyOr(values[1..], last))
  {
  }

  lemma FirstPresentOrStep(values: seq<JValue>, last: JValue)
    requires |values| > 0
    ensures FirstPresentOr(values, last) == Coalesce(values[0], FirstPresentOr(values[1..], last))
  {
  }

  /** `Object.values(o)` for a plain object. */
  function Values(fields: seq<(string, JValue)>): (r: seq<JValue>)
    ensures |r| == |fields|
    ensures forall i :: 0 <= i < |r| ==> r[i] == fields[i].1
  {
    seq(|fields|, i requires 0 <= i < |fields| => fields[i].1)
  }

  /** `a === b`. Primitives compare by value. Arrays, objects and maps compare
      by identity, which a tree of values does not record: the model takes two
      such values to be distinct objects. */
  predicate StrictEquals(a: JValue, b: JValue) {
    match a
    case JUndefined => b.JUndefined?
    case JNull => b.JNull?
    case JBool(x) => b == JBool(x)
    case JNum(x) => b == JNum(x)
    case JStr(x) => b == JStr(x)
    case _ => false
  }

  /** `String(v)`, also what a template literal `${v}` produces. */
  function ToJsString(v: JValue): string
    decreases v
  {
    match v
    case JUndefined => "undefined"
    case JNull => "null"
    case JBool(b) => if b then "true" else "false"
    case JNum(n) => IntToString(n)
    case JStr(s) => s
    case JArr(elems) =>
      // Array.prototype.join: null and undefined elements print as ""
      Join(seq(|elems|, i requires 0 <= i < |elems| =>
                 if IsNullish(elems[i]) then "" else ToJsString(elems[i])), ",")
    case JObj(_) => "[object Object]"
    case JMap(_) => "[object Map]"
  }

  /** The value of an integer literal after trimming: an optional sign and
      at least one decimal digit. `None` for anything else. */
  function IntegerLiteral(t: string): (r: Option<int>)
    ensures r.Some? ==> |t| > 0 && forall i :: 1 <= i < |t| ==> IsDigit(t[i])
    ensures r.Some? ==> IsDigit(t[0]) || (|t| > 1 && (t[0] == '-' || t[0] == '+'))
    ensures |t| > 0 && (forall i :: 0 <= i < |t| ==> IsDigit(t[i])) ==> r == Some(DigitsValue(t))
    ensures |t| > 1 && t[0] == '-' && (forall i :: 1 <= i < |t| ==> IsDigit(t[i])) ==> r == Some(-(DigitsValue(t[1..]) as int))
    ensures |t| > 1 && t[0] == '+' && (forall i :: 1 <= i < |t| ==> IsDigit(t[i])) ==> r == Some(DigitsValue(t[1..]))
  {
    if |t| == 0 then None
    else if (t[0] == '-' || t[0] == '+') && |t| > 1 && (forall i :: 1 <= i < |t| ==> IsDigit(t[i])) then
      var m: int := DigitsValue(t[1..]);
      Some(if t[0] == '-' then -m else m)
    else if forall i :: 0 <= i < |t| ==> IsDigit(t[i]) then Some(DigitsValue(t))
    else None
  }

  /** `Number.isInteger(Number(v)) ? Number(v) : NaN`, as `Some(n)` or `None`.
      `null`, `false` and the empty or blank string convert to 0, `true` to 1,
      a string holding an integer literal to its value. */
  function ToInteger(v: JValue): Option<int> {
    match v
    case JUndefined => None
    case JNull => Some(0)
    case JBool(b) => Some(if b then 1 else 0)
    case JNum(n) => Some(n)
    case JStr(s) =>
      var t := Trim(s);
      if t == "" then Some(0) else IntegerLiteral(t)
    case _ => None
  }

  /** `Number(String(n)) === n` for every integer `n`. */
  lemma NumberOfStringRoundTrip(n: int)
    ensures ToInteger(JStr(IntToString(n))) == Some(n)
  {
    var s := IntToString(n);
    TrimOfTrimmed(s);
    if n < 0 {
      NatToStringRoundTrip(-n);
      NegativeLiteral(NatToString(-n), -n);
    } else {
      NatToStringRoundTrip(n);
      DigitsLiteral(NatToString(n), n);
    }
  }

  /** A minus sign before digits reads as the negated value of the digits. */
  lemma NegativeLiteral(d: string, m: nat)
    requires |d| > 0 && forall i :: 0 <= i < |d| ==> IsDigit(d[i])
    requires DigitsValue(d) == m
    ensures IntegerLiteral("-" + d) == Some(-(m as int))
  {
    var t := "-" + d;
    assert t[1..] == d;
    assert forall i :: 1 <= i < |t| ==> t[i] == d[i - 1];
  }

  /** Digits read as their value. */
  lemma DigitsLiteral(d: string, m: nat)
    requires |d| > 0 && forall i :: 0 <= i < |d| ==> IsDigit(d[i])
    requires DigitsValue(d) == m
    ensures IntegerLiteral(d) == Some(m)
  {
    assert IsDigit(d[0]);
  }
}
