/**
 * UUIDs as the invite-code column stores them, their canonical text form
 * (`str(uuid)`: 8-4-4-4-12 lower-case hexadecimal digits) and the parsing a
 * text goes through when it is compared with that column (`uuid.UUID(hex=...)`,
 * which ends in Python's `int(h, 16)`).
 */
module Uuids {

  import opened Optional

  type Nibble = n: int | 0 <= n < 16

  /** The 128 bits of a UUID as 32 hexadecimal digits, most significant first. */
  type Uuid = s: seq<Nibble> | |s| == 32 witness seq(32, _ => 0)

  function HexChar(n: Nibble): (c: char)
    ensures '0' <= c <= '9' || 'a' <= c <= 'f'
  {
    if n < 10 then (('0' as int) + n) as char else (('a' as int) + n - 10) as char
  }

  /** The digit a hexadecimal character stands for, in either case. */
  function HexValue(c: char): Option<Nibble> {
    if '0' <= c <= '9' then Some((c as int) - ('0' as int))
    else if 'a' <= c <= 'f' then Some((c as int) - ('a' as int) + 10)
    else if 'A' <= c <= 'F' then Some((c as int) - ('A' as int) + 10)
    else None
  }

  function Hex(ns: seq<Nibble>): (s: string)
    ensures |s| == |ns|
    ensures forall i :: 0 <= i < |ns| ==> s[i] == HexChar(ns[i])
  {
    if ns == [] then [] else [HexChar(ns[0])] + Hex(ns[1..])
  }

  /** `str(u)`: the canonical hyphenated lower-case form. */
  function Format(u: Uuid): (s: string)
    ensures |s| == 36
  {
    Hex(u[..8]) + "-" + (Hex(u[8..12]) + "-" + (Hex(u[12..16]) + "-" + (Hex(u[16..20]) + "-" + Hex(u[20..]))))
  }

  /** The canonical text is 8-4-4-4-12 lower-case hexadecimal digits. */
  lemma FormatShape(u: Uuid)
    ensures var s := Format(u);
      && (forall i :: 0 <= i < 36 ==> (s[i] == '-' <==> i == 8 || i == 13 || i == 18 || i == 23))
      && (forall i :: 0 <= i < 36 && s[i] != '-' ==> '0' <= s[i] <= '9' || 'a' <= s[i] <= 'f')
  {
  }

  /** `s.replace(pat, '')`: occurrences removed from left to right, never overlapping. */
  function RemoveAll(s: string, pat: string): (r: string)
    requires pat != []
    ensures |r| <= |s|
    decreases |s|
  {
    if |s| < |pat| then s
    else if s[..|pat|] == pat then RemoveAll(s[|pat|..], pat)
    else [s[0]] + RemoveAll(s[1..], pat)
  }

  function StripLeadingBraces(s: string): (r: string)
    ensures |r| <= |s|
  {
    if s != [] && (s[0] == '{' || s[0] == '}') then StripLeadingBraces(s[1..]) else s
  }

  function StripTrailingBraces(s: string): (r: string)
    ensures |r| <= |s|
  {
    if s != [] && (s[|s| - 1] == '{' || s[|s| - 1] == '}') then StripTrailingBraces(s[..|s| - 1]) else s
  }

  /** `s.replace('-', '')` */
  function RemoveHyphens(s: string): (r: string)
    ensures forall i :: 0 <= i < |r| ==> r[i] != '-'
    ensures |r| <= |s|
  {
    if s == [] then [] else (if s[0] == '-' then [] else [s[0]]) + RemoveHyphens(s[1..])
  }

  /** The whitespace Python's `int()` skips around its digits (ASCII only). */
  predicate IsSpace(c: char) {
    c == ' ' || c == '\t' || c == '\n' || c == '\r' || c == '\U{000B}' || c == '\U{000C}'
  }

  function TrimLeft(s: string): (r: string)
    ensures |r| <= |s|
  {
    if s != [] && IsSpace(s[0]) then TrimLeft(s[1..]) else s
  }

  function TrimRight(s: string): (r: string)
    ensures |r| <= |s|
  {
    if s != [] && IsSpace(s[|s| - 1]) then TrimRight(s[..|s| - 1]) else s
  }

  /** Hexadecimal digits with single underscores between them, as their digits. */
  function UnderscoredDigits(s: string): (r: Option<seq<Nibble>>)
    ensures r.Some? ==> 0 < |r.value| <= |s|
    decreases |s|
  {
    if s == [] then None
    else match HexValue(s[0])
      case None => None
      case Some(d) =>
        if |s| == 1 then Some([d])
        else match UnderscoredDigits(if s[1] == '_' then s[2..] else s[1..])
          case Some(ds) => Some([d] + ds)
          case None => None
  }

  /**
   * `int(s, 16)` as the digits it reads: whitespace around, an optional '+',
   * an optional `0x`/`0X` prefix that one '_' may follow, then digits with
   * single underscores between them. A '-' sign is not accepted here: the
   * only caller has removed every hyphen already.
   */
  function HexInt(s: string): (r: Option<seq<Nibble>>)
    ensures r.Some? ==> 0 < |r.value| <= |s|
  {
    var a := TrimRight(TrimLeft(s));
    var b := if a != [] && a[0] == '+' then a[1..] else a;
    var c := if |b| >= 2 && b[0] == '0' && (b[1] == 'x' || b[1] == 'X') then
               (if |b| > 2 && b[2] == '_' then b[3..] else b[2..])
             else b;
    UnderscoredDigits(c)
  }

  /** What `uuid.UUID(hex=s)` checks the length of: `urn:` and `uuid:` removed
      anywhere, braces stripped from both ends, hyphens removed anywhere. */
  function Cleaned(s: string): (h: string)
    ensures |h| <= |s|
  {
    RemoveHyphens(StripTrailingBraces(StripLeadingBraces(RemoveAll(RemoveAll(s, "urn:"), "uuid:"))))
  }

  /**
   * `uuid.UUID(hex=s)`: the cleaned text must have exactly 32 characters and
   * read as a hexadecimal integer; fewer digits stand for leading zeros. `None`
   * is the ValueError that Django turns into a ValidationError ("is not a
   * valid UUID").
   */
  function Parse(s: string): (r: Option<Uuid>)
    ensures r.Some? ==> |Cleaned(s)| == 32
    ensures |s| < 32 ==> r.None?
  {
    var h := Cleaned(s);
    if |h| != 32 then None
    else match HexInt(h)
      case Some(ds) => Some(seq(32 - |ds|, _ => 0) + ds)
      case None => None
  }

  lemma {:induction false} RemoveHyphensAppend(a: string, b: string)
    ensures RemoveHyphens(a + b) == RemoveHyphens(a) + RemoveHyphens(b)
  {
    if a == [] {
      assert a + b == b;
    } else {
      assert (a + b)[0] == a[0];
      assert (a + b)[1..] == a[1..] + b;
      RemoveHyphensAppend(a[1..], b);
    }
  }

  lemma {:induction false} RemoveHyphensOfHex(ns: seq<Nibble>)
    ensures RemoveHyphens(Hex(ns)) == Hex(ns)
  {
    if ns != [] {
      assert Hex(ns)[1..] == Hex(ns[1..]);
      RemoveHyphensOfHex(ns[1..]);
    }
  }

  lemma HexValueOfHexChar(n: Nibble)
    ensures HexValue(HexChar(n)) == Some(n)
  {
    if n < 10 {
      assert '0' <= HexChar(n) <= '9';
    } else {
      assert 'a' <= HexChar(n) <= 'f';
    }
  }

  lemma HexAppend(a: seq<Nibble>, b: seq<Nibble>)
    ensures Hex(a + b) == Hex(a) + Hex(b)
  {
    var l, r := Hex(a + b), Hex(a) + Hex(b);
    assert |l| == |r|;
    forall i | 0 <= i < |l| ensures l[i] == r[i] {
      if i < |a| {
        assert l[i] == HexChar((a + b)[i]) && (a + b)[i] == a[i] && r[i] == Hex(a)[i];
      } else {
        assert l[i] == HexChar((a + b)[i]) && (a + b)[i] == b[i - |a|] && r[i] == Hex(b)[i - |a|];
      }
    }
  }



  /** Removing hyphens from one group, its separator and the rest. */
  lemma RemoveHyphensGroup(ns: seq<Nibble>, rest: string)
    ensures RemoveHyphens(Hex(ns) + "-" + rest) == Hex(ns) + RemoveHyphens(rest)
  {
    assert Hex(ns) + "-" + rest == Hex(ns) + ("-" + rest);
    RemoveHyphensAppend(Hex(ns), "-" + rest);
    RemoveHyphensOfHex(ns);
    assert ("-" + rest)[0] == '-' && ("-" + rest)[1..] == rest;
  }

  /** The five hyphen-separated groups, hyphens removed, are the 32 digits again. */
  lemma RemoveHyphensOfFormat(u: Uuid)
    ensures RemoveHyphens(Format(u)) == Hex(u)
  {
    var g5 := Hex(u[20..]);
    var g4 := Hex(u[16..20]) + "-" + g5;
    var g3 := Hex(u[12..16]) + "-" + g4;
    var g2 := Hex(u[8..12]) + "-" + g3;
    RemoveHyphensOfHex(u[20..]);
    Adjacent(u, 16, 20);
    RemoveHyphensStep(u[16..20], u[20..], g5);
    Adjacent(u, 12, 16);
    RemoveHyphensStep(u[12..16], u[16..], g4);
    Adjacent(u, 8, 12);
    RemoveHyphensStep(u[8..12], u[12..], g3);
    Adjacent(u, 0, 8);
    RemoveHyphensStep(u[..8], u[8..], g2);
  }

  /** Two adjacent slices make up the slice from the first start. */
  lemma Adjacent(u: seq<Nibble>, i: nat, j: nat)
    requires i <= j <= |u|
    ensures u[i..j] + u[j..] == u[i..]
  {
  }

  /** One group of digits, a hyphen, and a rest that reads as the following digits. */
  lemma RemoveHyphensStep(a: seq<Nibble>, b: seq<Nibble>, rest: string)
    requires RemoveHyphens(rest) == Hex(b)
    ensures RemoveHyphens(Hex(a) + "-" + rest) == Hex(a + b)
  {
    RemoveHyphensGroup(a, rest);
    HexAppend(a, b);
  }

  /** Parsing the canonical text of a UUID gives that UUID back: an invite code that
      was handed out as text always finds its event again. */
  lemma ParseFormat(u: Uuid)
    ensures Parse(Format(u)) == Some(u)
  {
    CleanedFormat(u);
    HexIntOfHex(u);
    assert seq(0, _ => 0) + u == u;
  }

  /** The canonical text, cleaned, is its 32 digits. */
  lemma CleanedFormat(u: Uuid)
    ensures Cleaned(Format(u)) == Hex(u)
  {
    var s := Format(u);
    FormatShape(u);
    RemoveAllAbsent(s, "urn:", 3);
    RemoveAllAbsent(s, "uuid:", 4);
    assert StripLeadingBraces(s) == s;
    assert StripTrailingBraces(s) == s;
    RemoveHyphensOfFormat(u);
  }

  /** A text without the pattern's character at `k` holds no occurrence to remove. */
  lemma {:induction false} RemoveAllAbsent(s: string, pat: string, k: nat)
    requires k < |pat| && forall i :: 0 <= i < |s| ==> s[i] != pat[k]
    ensures RemoveAll(s, pat) == s
    decreases |s|
  {
    if |s| >= |pat| {
      assert s[..|pat|][k] != pat[k];
      RemoveAllAbsent(s[1..], pat, k);
      assert s == [s[0]] + s[1..];
    }
  }

  /** Plain digits read as themselves. */
  lemma {:induction false} UnderscoredDigitsOfHex(ns: seq<Nibble>)
    requires ns != []
    ensures UnderscoredDigits(Hex(ns)) == Some(ns)
  {
    var h := Hex(ns);
    HexValueOfHexChar(ns[0]);
    if |ns| > 1 {
      assert h[1] == HexChar(ns[1]) && h[1..] == Hex(ns[1..]);
      UnderscoredDigitsOfHex(ns[1..]);
      assert ns == [ns[0]] + ns[1..];
    } else {
      assert ns == [ns[0]];
    }
  }

  /** `int(h, 16)` of a plain digit string reads exactly those digits. */
  lemma HexIntOfHex(ns: seq<Nibble>)
    requires ns != []
    ensures HexInt(Hex(ns)) == Some(ns)
  {
    var h := Hex(ns);
    assert h[0] == HexChar(ns[0]) && h[|h| - 1] == HexChar(ns[|ns| - 1]);
    assert TrimRight(TrimLeft(h)) == h by {
      assert TrimLeft(h) == h;
    }
    assert h[0] != '+';
    assert !(|h| >= 2 && h[0] == '0' && (h[1] == 'x' || h[1] == 'X')) by {
      if |h| >= 2 { assert h[1] == HexChar(ns[1]); }
    }
    UnderscoredDigitsOfHex(ns);
  }

  /** The URN form, `urn:uuid:` before the canonical text, names the same UUID. */
  lemma ParseUrn(u: Uuid)
    ensures Parse("urn:uuid:" + Format(u)) == Some(u)
  {
    var f := Format(u);
    var rest := "uuid:" + f;
    var s := "urn:" + rest;
    assert "urn:uuid:" + f == s;
    RemoveAllAbsent(f, "urn:", 3);
    RemoveAllAbsent(f, "uuid:", 4);
    assert s[..4] == "urn:" && s[4..] == rest;
    UrnTail(f);
    assert rest[..5] == "uuid:" && rest[5..] == f;
    assert RemoveAll(RemoveAll(s, "urn:"), "uuid:") == RemoveAll(f, "uuid:");
    assert Cleaned(s) == Cleaned(f);
    ParseFormat(u);
  }

  /** A character that differs from the pattern's character at the same offset starts no occurrence. */
  lemma RemoveAllKeep(x: string, pat: string, k: nat)
    requires pat != [] && k < |pat| && k < |x| && x[k] != pat[k]
    ensures RemoveAll(x, pat) == [x[0]] + RemoveAll(x[1..], pat)
  {
    if |x| >= |pat| {
      assert x[..|pat|][k] != pat[k];
    } else {
      assert x == [x[0]] + x[1..];
    }
  }

  /** The occurrence of `pat` that would start at offset `i` of `p` fails within `p`. */
  predicate MismatchAt(p: string, pat: string, i: nat) {
    exists k :: 0 <= k < |pat| && i + k < |p| && p[i + k] != pat[k]
  }

  /** No occurrence of `pat` starts inside `p`. */
  predicate StartsNone(p: string, pat: string) {
    forall i: nat :: i < |p| ==> MismatchAt(p, pat, i)
  }

  /** Removal passes over a part in which no occurrence starts. */
  lemma {:induction false} RemoveAllPassOver(p: string, f: string, pat: string)
    requires pat != [] && StartsNone(p, pat)
    ensures RemoveAll(p + f, pat) == p + RemoveAll(f, pat)
  {
    if p != [] {
      assert MismatchAt(p, pat, 0);
      var k :| 0 <= k < |pat| && 0 + k < |p| && p[0 + k] != pat[k];
      assert (p + f)[k] == p[k];
      RemoveAllKeep(p + f, pat, k);
      assert (p + f)[1..] == p[1..] + f;
      assert StartsNone(p[1..], pat) by {
        forall i: nat | i < |p[1..]| ensures MismatchAt(p[1..], pat, i) {
          assert MismatchAt(p, pat, i + 1);
          var k :| 0 <= k < |pat| && i + 1 + k < |p| && p[i + 1 + k] != pat[k];
          assert p[1..][i + k] == p[i + 1 + k];
        }
      }
      RemoveAllPassOver(p[1..], f, pat);
      assert (p + f)[0] == p[0];
      HeadTail(p, RemoveAll(f, pat));
    } else {
      assert p + f == f;
    }
  }

  lemma HeadTail(p: string, r: string)
    requires p != []
    ensures [p[0]] + (p[1..] + r) == p + r
  {
    assert p == [p[0]] + p[1..];
  }

  /** Removing `urn:` passes over the `uuid:` of the URN form. */
  lemma UrnTail(f: string)
    ensures RemoveAll("uuid:" + f, "urn:") == "uuid:" + RemoveAll(f, "urn:")
  {
    var p, pat := "uuid:", "urn:";
    forall i: nat | i < |p| ensures MismatchAt(p, pat, i) {
      if i == 0 { assert p[0 + 1] != pat[1]; }
      else if i == 1 { assert p[1 + 1] != pat[1]; }
      else { assert p[i + 0] != pat[0]; }
    }
    RemoveAllPassOver(p, f, pat);
  }



  /** The canonical text has no '/' or '.', so it fits in one URL path segment. */
  lemma FormatPathSafe(u: Uuid)
    ensures '/' !in Format(u) && '.' !in Format(u)
  {
    forall ns: seq<Nibble>, i | 0 <= i < |Hex(ns)| ensures Hex(ns)[i] != '/' && Hex(ns)[i] != '.' {
      assert Hex(ns)[i] == HexChar(ns[i]);
    }
  }

  /** Distinct UUIDs have distinct canonical texts. */
  lemma FormatInjective(u: Uuid, v: Uuid)
    requires Format(u) == Format(v)
    ensures u == v
  {
    ParseFormat(u);
    ParseFormat(v);
  }
}
