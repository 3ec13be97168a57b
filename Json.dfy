/** Option and Result wrappers used by every module of the model. */
module Wrappers {
  datatype Option<+T> = None | Some(value: T) {
    function GetOr(default: T): T {
      match this
      case Some(v) => v
      case None => default
    }
  }

  /** `Failure` stands for a JavaScript exception thrown by the modelled code. */
  datatype Result<+T, +E> = Success(value: T) | Failure(error: E) {
    predicate IsFailure() {
      Failure?
    }

    function PropagateFailure<U>(): Result<U, E>
      requires Failure?
    {
      Failure(error)
    }

    function Extract(): T
      requires Success?
    {
      value
    }
  }
}

/**
  The slice of JavaScript's value semantics the pipeline relies on: the values a
  parsed JSON document or a feed record can hold, truthiness (`if (x)`, `x || y`),
  nullish coalescing (`x ?? y`), property access (`x.p`, `x?.p`) and `String(x)`.
  Numbers are integers here (see README, "Left out").
*/
module Json {
  import opened Wrappers

  datatype JsValue =
    | JUndefined
    | JNull
    | JBool(b: bool)
    | JNum(n: int)
    | JStr(s: string)
    | JArr(elems: seq<JsValue>)
    | JObj(props: map<string, JsValue>)

  /** The exceptions the modelled code can throw. */
  datatype JsError = TypeError(message: string)

  /** A plain JavaScript object: property name to value. */
  type Obj = map<string, JsValue>

  predicate IsNullish(v: JsValue) {
    v.JUndefined? || v.JNull?
  }

  /** JavaScript's ToBoolean. */
  predicate Truthy(v: JsValue) {
    match v
    case JUndefined => false
    case JNull => false
    case JBool(b) => b
    case JNum(n) => n != 0
    case JStr(s) => s != ""
    case JArr(_) => true
    case JObj(_) => true
  }

  /** `a || b`: the first operand when it is truthy, otherwise the second. */
  function Or(a: JsValue, b: JsValue): JsValue {
    if Truthy(a) then a else b
  }

  /** `a ?? b`: the first operand unless it is null or undefined. */
  function Coalesce(a: JsValue, b: JsValue): JsValue {
    if IsNullish(a) then b else a
  }

  /** `o.k` on an object: `undefined` for a missing property. */
  function Get(o: Obj, k: string): JsValue {
    if k in o then o[k] else JUndefined
  }

  /** `v.k` on any value: `None` is the TypeError thrown for null and undefined;
      arrays and primitives have none of the properties the pipeline reads. */
  function Prop(v: JsValue, k: string): (r: Option<JsValue>)
    ensures r.None? <==> IsNullish(v)
    ensures v.JObj? ==> r == Some(Get(v.props, k))
  {
    match v
    case JUndefined => None
    case JNull => None
    case JObj(o) => Some(Get(o, k))
    case _ => Some(JUndefined)
  }

  /** `v?.k`: optional chaining turns the TypeError into `undefined`. */
  function OptProp(v: JsValue, k: string): JsValue {
    Prop(v, k).GetOr(JUndefined)
  }

  function DigitChar(d: nat): char
    requires d < 10
  {
    (d + '0' as int) as char
  }

  /** Decimal digits of a natural number, most significant first. */
  function NatToDecimal(n: nat): (r: string)
    ensures |r| >= 1
    ensures forall k :: 0 <= k < |r| ==> '0' <= r[k] <= '9'
    ensures r[0] == '0' ==> n == 0
  {
    if n < 10 then [DigitChar(n)] else NatToDecimal(n / 10) + [DigitChar(n % 10)]
  }

  function DecimalValue(s: string): int
  {
    if s == [] then 0 else 10 * DecimalValue(s[..|s| - 1]) + (s[|s| - 1] as int - '0' as int)
  }

  /** Reading the digits back gives the number: the decimal form is a faithful key. */
  lemma {:induction false} DecimalRoundTrip(n: nat)
    ensures DecimalValue(NatToDecimal(n)) == n
  {
    var r := NatToDecimal(n);
    if n >= 10 {
      DecimalRoundTrip(n / 10);
      assert r[..|r| - 1] == NatToDecimal(n / 10);
    }
  }

  /** `String(n)` for an integer (JavaScript prints a leading minus sign). */
  function IntToDecimal(n: int): string {
    if n < 0 then "-" + NatToDecimal(-n) else NatToDecimal(n)
  }

  /** The sign and the digits can be read back from `String(n)`. */
  lemma {:induction false} NegativeReadBack(n: int)
    requires n < 0
    ensures |IntToDecimal(n)| >= 1 && IntToDecimal(n)[0] == '-'
    ensures DecimalValue(IntToDecimal(n)[1..]) == -n
  {
    var d := NatToDecimal(-n);
    assert IntToDecimal(n) == "-" + d;
    assert ("-" + d)[1..] == d;
    DecimalRoundTrip(-n);
  }

  lemma {:induction false} NonNegativeReadBack(n: int)
    requires n >= 0
    ensures |IntToDecimal(n)| >= 1 && IntToDecimal(n)[0] != '-'
    ensures DecimalValue(IntToDecimal(n)) == n
  {
    assert IntToDecimal(n) == NatToDecimal(n);
    DecimalRoundTrip(n);
  }

  lemma {:induction false} IntToDecimalInjective(m: int, n: int)
    requires IntToDecimal(m) == IntToDecimal(n)
    ensures m == n
  {
    if m < 0 { NegativeReadBack(m); } else { NonNegativeReadBack(m); }
    if n < 0 { NegativeReadBack(n); } else { NonNegativeReadBack(n); }
  }

  /** `Array.prototype.join(sep)` over the printed elements: nothing for no parts,
      the part itself for one. */
  function Join(parts: seq<string>, sep: string): (r: string)
    ensures parts == [] ==> r == ""
    ensures |parts| == 1 ==> r == parts[0]
  {
    if parts == [] then "" else if |parts| == 1 then parts[0] else parts[0] + sep + Join(parts[1..], sep)
  }

  /** The separator goes between every two consecutive parts: one more part is
      appended after a separator. */
  lemma {:induction false} JoinSnoc(parts: seq<string>, p: string, sep: string)
    requires |parts| >= 1
    ensures Join(parts + [p], sep) == Join(parts, sep) + sep + p
    decreases |parts|
  {
    var all := parts + [p];
    assert all[0] == parts[0];
    if |parts| == 1 {
      assert all[1..] == [p];
    } else {
      assert all[1..] == parts[1..] + [p];
      JoinSnoc(parts[1..], p, sep);
      assert parts[0] + sep + (Join(parts[1..], sep) + sep + p) == parts[0] + sep + Join(parts[1..], sep) + sep + p;
    }
  }

  /** How `Array.prototype.join` prints one element: null and undefined as "". */
  function JoinElement(v: JsValue): string
    decreases v, 2
  {
    if IsNullish(v) then "" else ToJsString(v)
  }

  /** `String(v)`. Inside an array, null and undefined print as the empty string
      (`Array.prototype.join`); an object prints as "[object Object]". */
  function ToJsString(v: JsValue): string
    decreases v, 1
  {
    match v
    case JUndefined => "undefined"
    case JNull => "null"
    case JBool(b) => if b then "true" else "false"
    case JNum(n) => IntToDecimal(n)
    case JStr(s) => s
    case JArr(xs) => Join(ElementStrings(v, xs), ",")
    case JObj(_) => "[object Object]"
  }

  function ElementStrings(parent: JsValue, xs: seq<JsValue>): (r: seq<string>)
    requires parent.JArr? && xs <= parent.elems
    ensures |r| == |xs|
    ensures forall k :: 0 <= k < |xs| ==> r[k] == JoinElement(xs[k])
    decreases parent, 0, |xs|
  {
    if xs == [] then []
    else
      var x := xs[|xs| - 1];
      assert x in parent.elems;
      ElementStrings(parent, xs[..|xs| - 1]) + [JoinElement(x)]
  }

  /** The merge key `String(id)` separates distinct string ids and distinct numeric ids. */
  lemma ToJsStringSeparatesIds(a: JsValue, b: JsValue)
    requires (a.JStr? && b.JStr?) || (a.JNum? && b.JNum?)
    requires ToJsString(a) == ToJsString(b)
    ensures a == b
  {
    if a.JNum? {
      IntToDecimalInjective(a.n, b.n);
    }
  }
}
