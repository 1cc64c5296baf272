/**
 * The loosely typed values a handler reads from a request body or a realtime
 * payload (`data.get(key)`), with the Python conversions the handlers apply
 * to them: truthiness, `str(...)`, `str.isdigit()` and `int(...)`.
 */
module Values {

  import opened Optional

  /** A JSON value as a handler sees it; `Null` is JSON null and also a missing key. */
  datatype Value = Null | Str(s: string) | Int(i: int)

  /** A request body or event payload. */
  type Data = map<string, Value>

  /** `data.get(key)`: the stored value, or None when the key is absent. */
  function Get(d: Data, key: string): (v: Value)
    ensures key in d ==> v == d[key]
    ensures key !in d ==> v == Null
  {
    if key in d then d[key] else Null
  }

  /** Python truthiness: None, "" and 0 are false, everything else true. */
  predicate Truthy(v: Value)
    ensures v.Null? ==> !Truthy(v)
    ensures v.Int? ==> (Truthy(v) <==> PyStr(v) != "0")
    ensures v.Str? ==> (Truthy(v) <==> PyStr(v) != "")
  {
    match v
    case Null => false
    case Str(s) => s != ""
    case Int(i) => i != 0
  }

  predicate IsDigit(c: char) {
    '0' <= c <= '9'
  }

  /** `s.isdigit()` on ASCII text: non-empty and every character a decimal digit. */
  predicate IsDigits(s: string)
    ensures IsDigits(s) ==> s != [] && '-' !in s && '+' !in s
  {
    |s| > 0 && forall i :: 0 <= i < |s| ==> IsDigit(s[i])
  }

  function DigitChar(d: nat): (c: char)
    requires d < 10
    ensures IsDigit(c) && (c as int) - ('0' as int) == d
  {
    (('0' as int) + d) as char
  }

  /** Decimal notation of a natural number, without leading zeros. */
  function NatToString(n: nat): (s: string)
    ensures IsDigits(s)
    ensures |s| > 1 ==> s[0] != '0'
  {
    if n < 10 then [DigitChar(n)] else NatToString(n / 10) + [DigitChar(n % 10)]
  }

  /** The number a string of decimal digits denotes (leading zeros allowed). */
  function DigitsValue(s: string): nat
    requires forall i :: 0 <= i < |s| ==> IsDigit(s[i])
  {
    if s == [] then 0
    else
      assert IsDigit(s[|s| - 1]);
      DigitsValue(s[..|s| - 1]) * 10 + ((s[|s| - 1] as int) - ('0' as int))
  }

  /** `str(v)`: text as is, an integer in decimal with a leading '-' when negative. */
  function PyStr(v: Value): (r: string)
    ensures v.Str? ==> r == v.s
    ensures v.Int? && v.i >= 0 ==> IsDigits(r) && DigitsValue(r) == v.i
    ensures v.Int? && v.i < 0 ==> |r| > 1 && r[0] == '-' && IsDigits(r[1..]) && DigitsValue(r[1..]) == -v.i
  {
    match v
    case Null => "None"
    case Str(s) => s
    case Int(i) =>
      if i < 0 then
        DigitsValueOfNatToString(-i);
        assert ("-" + NatToString(-i))[1..] == NatToString(-i);
        "-" + NatToString(-i)
      else
        DigitsValueOfNatToString(i);
        NatToString(i)
  }

  /** `int(v)`: an integer as is; text as an optionally signed run of decimal digits; otherwise a ValueError. */
  function PyInt(v: Value): (r: Option<int>)
    ensures v.Int? ==> r == Some(v.i)
    ensures v.Null? ==> r.None?
    ensures v.Str? && IsDigits(v.s) ==> r == Some(DigitsValue(v.s))
    ensures v.Str? && |v.s| > 1 && v.s[0] == '+' && IsDigits(v.s[1..]) ==> r == Some(DigitsValue(v.s[1..]))
    ensures v.Str? && |v.s| > 1 && v.s[0] == '-' && IsDigits(v.s[1..]) ==> r == Some(0 - DigitsValue(v.s[1..]))
    ensures v.Str? && r.Some? ==> IsDigits(v.s) || (|v.s| > 1 && v.s[0] in "+-" && IsDigits(v.s[1..]))
  {
    match v
    case Null => None
    case Int(i) => Some(i)
    case Str(s) =>
      if IsDigits(s) then Some(DigitsValue(s))
      else if |s| > 1 && s[0] == '+' && IsDigits(s[1..]) then Some(DigitsValue(s[1..]))
      else if |s| > 1 && s[0] == '-' && IsDigits(s[1..]) then Some(0 - DigitsValue(s[1..]) as int)
      else None
  }

  /** Reading back the decimal notation of `n` gives `n`. */
  lemma {:induction false} DigitsValueOfNatToString(n: nat)
    ensures DigitsValue(NatToString(n)) == n
  {
    if n >= 10 {
      var s := NatToString(n);
      assert s[..|s| - 1] == NatToString(n / 10);
      DigitsValueOfNatToString(n / 10);
    }
  }

  /** `int(str(i)) == i` for every integer: the two conversions are inverse. */
  lemma StrIntRoundTrip(i: int)
    ensures PyInt(Str(PyStr(Int(i)))) == Some(i)
  {
    if i < 0 {
      var t := NatToString(-i);
      DigitsValueOfNatToString(-i);
      assert ("-" + t)[1..] == t;
      assert !IsDigits("-" + t) by { assert !IsDigit(("-" + t)[0]); }
    } else {
      DigitsValueOfNatToString(i);
    }
  }

  /** A value passes the `str(v).isdigit()` shape test exactly when it is a non-negative
      integer or a non-empty run of decimal digits. */
  lemma IsDigitsOfPyStr(v: Value)
    requires !v.Null?
    ensures IsDigits(PyStr(v)) <==> (v.Int? && v.i >= 0) || (v.Str? && IsDigits(v.s))
  {
    if v.Int? && v.i < 0 {
      assert !IsDigit(PyStr(v)[0]);
    }
  }
}
