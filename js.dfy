/**
  JavaScript values as the client code and the JSON bodies exchanged with the
  server see them, with the few conversions of the ECMAScript language the
  client relies on: ToBoolean (truthiness), ToString, `parseInt(s, 10)` and the
  decimal rendering of integers.

  Numbers are modelled as mathematical integers: the client only ever handles
  integer ids and millisecond timestamps.
 */
module Js {

  datatype Option<+T> = None | Some(value: T)

  datatype Value =
    | Undefined
    | Null
    | Bool(b: bool)
    | Num(n: int)
    | Str(s: string)
    | Arr(elems: seq<Value>)
    | Obj(fields: map<string, Value>)

  /** ECMAScript ToBoolean. */
  predicate Truthy(v: Value) {
    match v
    case Undefined => false
    case Null => false
    case Bool(b) => b
    case Num(n) => n != 0
    case Str(s) => s != ""
    case Arr(_) => true
    case Obj(_) => true
  }

  /** `a || b`: the first operand when it is truthy, the second otherwise. */
  function Or(a: Value, b: Value): (r: Value)
    ensures Truthy(a) ==> r == a
    ensures !Truthy(a) ==> r == b
  {
    if Truthy(a) then a else b
  }

  /** `v == null` (loose equality with null). */
  predicate IsNullish(v: Value) {
    v.Undefined? || v.Null?
  }

  /** The property read `v.key` on a value that is not null or undefined. */
  function Prop(v: Value, key: string): (r: Value)
    ensures r != Undefined ==> v.Obj? && key in v.fields && v.fields[key] == r
    ensures v.Obj? && key in v.fields ==> r == v.fields[key]
  {
    if v.Obj? && key in v.fields then v.fields[key] else Undefined
  }

  /** The own fields that `{...v}` copies out of a record-like value. */
  function Spread(v: Value): map<string, Value> {
    if v.Obj? then v.fields else map[]
  }

  predicate StartsWith(s: string, prefix: string) {
    |prefix| <= |s| && s[..|prefix|] == prefix
  }

  // ---------------------------------------------------------------------
  // Decimal digits

  predicate IsDigit(c: char) {
    '0' <= c <= '9'
  }

  function DigitChar(d: nat): (c: char)
    requires d < 10
    ensures IsDigit(c)
  {
    ('0' as int + d) as char
  }

  function DigitValue(c: char): (d: nat)
    requires IsDigit(c)
    ensures d < 10 && DigitChar(d) == c
  {
    (c as int) - ('0' as int)
  }

  predicate AllDigits(s: string) {
    forall i :: 0 <= i < |s| ==> IsDigit(s[i])
  }

  /** The value of a string of decimal digits, most significant first. */
  function DigitsValue(s: string): nat
    requires AllDigits(s)
  {
    if s == [] then 0 else DigitsValue(s[..|s| - 1]) * 10 + DigitValue(s[|s| - 1])
  }

  /** The decimal digits of a natural number, without leading zeros. */
  function NaturalString(n: nat): (s: string)
    ensures |s| >= 1 && AllDigits(s)
    ensures |s| > 1 ==> s[0] != '0'
    decreases n
  {
    if n < 10 then [DigitChar(n)] else NaturalString(n / 10) + [DigitChar(n % 10)]
  }

  /** ECMAScript Number::toString for an integer below 10^21 in magnitude. */
  function DecimalString(n: int): (s: string)
    ensures |s| >= 1 && (IsDigit(s[0]) || s[0] == '-')
  {
    if n < 0 then "-" + NaturalString(-n) else NaturalString(n)
  }

  lemma {:induction false} NaturalStringValue(n: nat)
    ensures DigitsValue(NaturalString(n)) == n
    decreases n
  {
    if n >= 10 {
      NaturalStringValue(n / 10);
      var s := NaturalString(n);
      assert s[..|s| - 1] == NaturalString(n / 10);
    }
  }

  // ---------------------------------------------------------------------
  // ToString

  /** ECMAScript ToString, as a template literal `${v}` applies it. */
  function ToString(v: Value): string
    decreases v
  {
    match v
    case Undefined => "undefined"
    case Null => "null"
    case Bool(b) => if b then "true" else "false"
    case Num(n) => DecimalString(n)
    case Str(s) => s
    case Arr(es) => Join(seq(|es|, i requires 0 <= i < |es| => if IsNullish(es[i]) then "" else ToString(es[i])))
    case Obj(_) => "[object Object]"
  }

  /** `Array.prototype.join` with the default separator. */
  function Join(parts: seq<string>): string {
    if parts == [] then ""
    else if |parts| == 1 then parts[0]
    else Join(parts[..|parts| - 1]) + "," + parts[|parts| - 1]
  }

  // ---------------------------------------------------------------------
  // parseInt(s, 10)

  /** The WhiteSpace and LineTerminator code points that parseInt skips. */
  predicate IsStrWhiteSpace(c: char) {
    || '\U{0009}' <= c <= '\U{000D}'  // tab, line feed, vertical tab, form feed, carriage return
    || c == ' ' || c == '\U{00A0}' || c == '\U{1680}'
    || '\U{2000}' <= c <= '\U{200A}'
    || c == '\U{2028}' || c == '\U{2029}' || c == '\U{202F}' || c == '\U{205F}' || c == '\U{3000}'
    || c == '\U{FEFF}'
  }

  /** The string with its leading white space removed. */
  function TrimStart(s: string): (r: string)
    ensures |r| <= |s| && r == s[|s| - |r|..]
    ensures forall i :: 0 <= i < |s| - |r| ==> IsStrWhiteSpace(s[i])
    ensures r == [] || !IsStrWhiteSpace(r[0])
  {
    if s != [] && IsStrWhiteSpace(s[0]) then
      var r := TrimStart(s[1..]);
      assert forall i :: 1 <= i < |s| - |r| ==> s[i] == s[1..][i - 1];
      r
    else s
  }

  /** The length of the longest prefix made of decimal digits. */
  function DigitPrefixLength(s: string): (k: nat)
    ensures k <= |s| && AllDigits(s[..k])
    ensures k < |s| ==> !IsDigit(s[k])
  {
    if s != [] && IsDigit(s[0]) then
      var k := 1 + DigitPrefixLength(s[1..]);
      assert s[..k] == [s[0]] + s[1..][..k - 1];
      k
    else 0
  }

  /** The sign a string opens with and what follows it. */
  function SplitSign(t: string): (r: (int, string))
    ensures t != [] && t[0] == '-' ==> r == (-1, t[1..])
    ensures t != [] && t[0] == '+' ==> r == (1, t[1..])
    ensures (t == [] || (t[0] != '-' && t[0] != '+')) ==> r == (1, t)
  {
    if t != [] && t[0] == '-' then (-1, t[1..])
    else if t != [] && t[0] == '+' then (1, t[1..])
    else (1, t)
  }

  /**
    `parseInt(s, 10)` on a string: None stands for NaN. Leading white space
    and one sign are skipped, then the longest run of digits is read; what
    follows it is ignored.
   */
  function ParseInt(s: string): (r: Option<int>)
    ensures r.None? <==> (var u := SplitSign(TrimStart(s)).1; u == [] || !IsDigit(u[0]))
  {
    var (sign, u) := SplitSign(TrimStart(s));
    var k := DigitPrefixLength(u);
    if k == 0 then None else Some(sign * DigitsValue(u[..k]))
  }

  lemma TrimStartOfWhiteSpace(ws: string, s: string)
    requires forall i :: 0 <= i < |ws| ==> IsStrWhiteSpace(ws[i])
    requires s != [] && !IsStrWhiteSpace(s[0])
    ensures TrimStart(ws + s) == s
    decreases |ws|
  {
    if ws != [] {
      assert (ws + s)[1..] == ws[1..] + s;
      TrimStartOfWhiteSpace(ws[1..], s);
    }
  }

  lemma DigitPrefixOfDigits(d: string, tail: string)
    requires AllDigits(d)
    requires tail == [] || !IsDigit(tail[0])
    ensures DigitPrefixLength(d + tail) == |d|
    decreases |d|
  {
    if d != [] {
      assert (d + tail)[1..] == d[1..] + tail;
      DigitPrefixOfDigits(d[1..], tail);
    }
  }

  /** Leading white space does not change what `parseInt` reads. */
  lemma ParseIntSkipsWhiteSpace(ws: string, s: string)
    requires forall i :: 0 <= i < |ws| ==> IsStrWhiteSpace(ws[i])
    requires s != [] && !IsStrWhiteSpace(s[0])
    ensures ParseInt(ws + s) == ParseInt(s)
  {
    TrimStartOfWhiteSpace(ws, s);
    assert TrimStart(s) == s;
  }

  lemma ParseIntOfSignedDigits(negative: bool, d: string, tail: string)
    requires AllDigits(d) && d != []
    requires tail == [] || !IsDigit(tail[0])
    ensures ParseInt((if negative then "-" else "") + d + tail)
         == Some((if negative then -1 else 1) * DigitsValue(d))
  {
    var t := (if negative then "-" else "") + d + tail;
    assert !IsStrWhiteSpace(t[0]);
    assert TrimStart(t) == t;
    assert t[0] == '-' <==> negative;
    if negative {
      assert t[1..] == d + tail;
    } else {
      assert t == d + tail;
    }
    assert SplitSign(t) == (if negative then -1 else 1, d + tail);
    DigitPrefixOfDigits(d, tail);
    assert (d + tail)[..|d|] == d;
  }

  /** The decimal rendering of an integer, followed by non-digit text, parses to that integer. */
  lemma ParseIntOfDecimalPrefix(n: int, tail: string)
    requires tail == [] || !IsDigit(tail[0])
    ensures ParseInt(DecimalString(n) + tail) == Some(n)
  {
    var m: nat := if n < 0 then -n else n;
    var d := NaturalString(m);
    assert DecimalString(n) + tail == (if n < 0 then "-" else "") + d + tail;
    NaturalStringValue(m);
    ParseIntOfSignedDigits(n < 0, d, tail);
  }

  /**
    `parseInt` reads back the decimal rendering of any integer, whatever white
    space precedes it and whatever non-digit text follows it.
   */
  lemma ParseIntOfDecimal(ws: string, n: int, tail: string)
    requires forall i :: 0 <= i < |ws| ==> IsStrWhiteSpace(ws[i])
    requires tail == [] || !IsDigit(tail[0])
    ensures ParseInt(ws + DecimalString(n) + tail) == Some(n)
  {
    var body := DecimalString(n) + tail;
    assert ws + DecimalString(n) + tail == ws + body;
    assert !IsStrWhiteSpace(body[0]);
    ParseIntOfDecimalPrefix(n, tail);
    ParseIntSkipsWhiteSpace(ws, body);
  }

  /** `parseInt(String(n), 10) === n`: the integer survives ToString and parseInt. */
  lemma ParseIntOfNumber(n: int)
    ensures ParseInt(ToString(Num(n))) == Some(n)
  {
    ParseIntOfDecimal("", n, "");
    assert "" + DecimalString(n) + "" == DecimalString(n);
  }

  /** A string that opens with a letter, such as a `temp-` id, parses to NaN. */
  lemma ParseIntOfLetterPrefix(s: string)
    requires s != [] && !IsStrWhiteSpace(s[0]) && !IsDigit(s[0]) && s[0] != '-' && s[0] != '+'
    ensures ParseInt(s) == None
  {
    assert TrimStart(s) == s;
  }
}
