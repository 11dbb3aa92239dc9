/**
 * The string primitives of JavaScript (and the few of Java) that the importer,
 * the report and the task list rely on: trimming, prefix and substring tests,
 * `split`, global `replace`, ASCII lower-casing, decimal printing, `padStart`,
 * `parseInt` and a digits-only `Number`.
 */
module JsText {
  import opened Common

  /** WhiteSpace and LineTerminator of ECMAScript: what `trim` and `parseInt` skip. */
  predicate IsJsWhitespace(c: char) {
    c == ' ' || c == '\t' || c == '\n' || c == '\r' || c == '\U{B}' || c == '\U{C}'
    || c == '\U{A0}' || c == '\U{1680}' || ('\U{2000}' <= c <= '\U{200A}')
    || c == '\U{2028}' || c == '\U{2029}' || c == '\U{202F}' || c == '\U{205F}'
    || c == '\U{3000}' || c == '\U{FEFF}'
  }

  /** What Java's `String.trim` removes: every char up to and including the space. */
  predicate IsJavaTrimmable(c: char) {
    c <= ' '
  }

  function TrimStartBy(s: string, ws: char -> bool): (r: string)
    ensures |r| <= |s| && r == s[|s| - |r|..]
    ensures r == [] || !ws(r[0])
  {
    if s != [] && ws(s[0]) then TrimStartBy(s[1..], ws) else s
  }

  function TrimEndBy(s: string, ws: char -> bool): (r: string)
    ensures |r| <= |s| && r == s[..|r|]
    ensures r == [] || !ws(r[|r| - 1])
  {
    if s != [] && ws(s[|s| - 1]) then TrimEndBy(s[..|s| - 1], ws) else s
  }

  /** `String.prototype.trim`. */
  function Trim(s: string): (r: string)
    ensures r == [] || (!IsJsWhitespace(r[0]) && !IsJsWhitespace(r[|r| - 1]))
  {
    TrimEndBy(TrimStartBy(s, IsJsWhitespace), IsJsWhitespace)
  }

  /** Java's `String.trim`. */
  function JavaTrim(s: string): (r: string)
    ensures r == [] || (!IsJavaTrimmable(r[0]) && !IsJavaTrimmable(r[|r| - 1]))
  {
    TrimEndBy(TrimStartBy(s, IsJavaTrimmable), IsJavaTrimmable)
  }

  predicate StartsWith(s: string, p: string) {
    |p| <= |s| && s[..|p|] == p
  }

  predicate EndsWith(s: string, p: string) {
    |p| <= |s| && s[|s| - |p|..] == p
  }

  /** `includes`: `p` occurs in `s` at some position. */
  predicate Contains(s: string, p: string)
    decreases |s|
  {
    StartsWith(s, p) || (s != [] && Contains(s[1..], p))
  }

  /** `indexOf` of a single character: the first position holding `c`. */
  function IndexOf(s: string, c: char): (r: Option<nat>)
    ensures r.None? <==> c !in s
    ensures r.Some? ==> r.value < |s| && s[r.value] == c && c !in s[..r.value]
  {
    if s == [] then None
    else if s[0] == c then Some(0)
    else match IndexOf(s[1..], c)
      case None => None
      case Some(i) => assert s[..i + 1] == [s[0]] + s[1..][..i]; Some(i + 1)
  }

  /** A line `name:value` whose name has no colon splits into that name and that value. */
  lemma {:induction false} SplitAtColon(name: string, value: string)
    requires ':' !in name
    ensures var line := name + ":" + value;
      IndexOf(line, ':') == Some(|name|) && line[..|name|] == name && line[|name| + 1..] == value
  {
    var line := name + ":" + value;
    assert line[|name|] == ':';
    assert line[..|name|] == name;
  }

  /** `split(sep)` with a one-character separator; never empty, like the JavaScript one. */
  function SplitOn(s: string, sep: char): (r: seq<string>)
    ensures |r| >= 1
    ensures forall k :: 0 <= k < |r| ==> sep !in r[k]
    decreases |s|
  {
    match IndexOf(s, sep)
    case None => [s]
    case Some(i) => [s[..i]] + SplitOn(s[i + 1..], sep)
  }

  /** `join(sep)`, the inverse of `SplitOn`. */
  function Join(parts: seq<string>, sep: char): string
    requires |parts| >= 1
  {
    if |parts| == 1 then parts[0] else parts[0] + [sep] + Join(parts[1..], sep)
  }

  lemma {:induction false} JoinSplit(s: string, sep: char)
    ensures Join(SplitOn(s, sep), sep) == s
    decreases |s|
  {
    match IndexOf(s, sep)
    case None =>
    case Some(i) =>
      var rest := s[i + 1..];
      var parts := SplitOn(s, sep);
      assert parts == [s[..i]] + SplitOn(rest, sep);
      assert parts[1..] == SplitOn(rest, sep);
      JoinSplit(rest, sep);
      assert Join(parts, sep) == s[..i] + [sep] + Join(parts[1..], sep);
      assert s == s[..i] + [sep] + rest;
  }

  /** Global `replace` of a literal pattern: a left-to-right scan, matches never overlap. */
  function ReplaceAll(s: string, pat: string, rep: string): string
    requires |pat| > 0
    decreases |s|
  {
    if |s| < |pat| then s
    else if s[..|pat|] == pat then rep + ReplaceAll(s[|pat|..], pat, rep)
    else [s[0]] + ReplaceAll(s[1..], pat, rep)
  }

  lemma {:induction false} ReplaceAllAbsent(s: string, pat: string, rep: string)
    requires |pat| > 0 && !Contains(s, pat)
    ensures ReplaceAll(s, pat, rep) == s
    decreases |s|
  {
    if |s| >= |pat| {
      assert !StartsWith(s, pat);
      ReplaceAllAbsent(s[1..], pat, rep);
    }
  }

  /**
   * For a two-character pattern, replacing in `a + b` is replacing in each part,
   * provided no match can straddle the boundary (`a` does not end in the
   * pattern's first character).
   */
  lemma {:induction false} ReplaceAllConcat(a: string, b: string, pat: string, rep: string)
    requires |pat| == 2
    requires a == [] || a[|a| - 1] != pat[0]
    ensures ReplaceAll(a + b, pat, rep) == ReplaceAll(a, pat, rep) + ReplaceAll(b, pat, rep)
    decreases |a|
  {
    if a == [] {
      assert a + b == b;
    } else if |a| == 1 {
      ReplaceAllConcatSingle(a, b, pat, rep);
    } else if a[..2] == pat {
      var a' := a[2..];
      ReplaceAllStepMatch(a, b, pat, rep);
      if a' != [] {
        ReplaceAllConcat(a', b, pat, rep);
      } else {
        assert a' + b == b;
      }
      AppendAssoc(rep, ReplaceAll(a', pat, rep), ReplaceAll(b, pat, rep));
    } else {
      var a' := a[1..];
      ReplaceAllStepSkip(a, b, pat, rep);
      ReplaceAllConcat(a', b, pat, rep);
      AppendAssoc([a[0]], ReplaceAll(a', pat, rep), ReplaceAll(b, pat, rep));
    }
  }

  lemma {:induction false} ReplaceAllConcatSingle(a: string, b: string, pat: string, rep: string)
    requires |pat| == 2 && |a| == 1 && a[0] != pat[0]
    ensures ReplaceAll(a + b, pat, rep) == ReplaceAll(a, pat, rep) + ReplaceAll(b, pat, rep)
  {
    var ab := a + b;
    assert ab[1..] == b;
    if |ab| >= 2 {
      assert ab[..2][0] == a[0];
    }
  }

  lemma {:induction false} ReplaceAllStepMatch(a: string, b: string, pat: string, rep: string)
    requires |pat| == 2 && |a| >= 2 && a[..2] == pat
    ensures ReplaceAll(a + b, pat, rep) == rep + ReplaceAll(a[2..] + b, pat, rep)
    ensures ReplaceAll(a, pat, rep) == rep + ReplaceAll(a[2..], pat, rep)
  {
    var ab := a + b;
    assert ab[..2] == pat && ab[2..] == a[2..] + b;
  }

  lemma {:induction false} ReplaceAllStepSkip(a: string, b: string, pat: string, rep: string)
    requires |pat| == 2 && |a| >= 2 && a[..2] != pat
    ensures ReplaceAll(a + b, pat, rep) == [a[0]] + ReplaceAll(a[1..] + b, pat, rep)
    ensures ReplaceAll(a, pat, rep) == [a[0]] + ReplaceAll(a[1..], pat, rep)
  {
    var ab := a + b;
    assert ab[..2] == a[..2] && ab[1..] == a[1..] + b;
  }

  /**
   * `toLowerCase`, character by character, for the characters whose lower case
   * holds a single code unit that is an ASCII letter: `A` to `Z`, and the
   * KELVIN SIGN U+212A, which lower-cases to `k`.
   */
  function ToLowerCase(s: string): (r: string)
    ensures |r| == |s|
    ensures forall k :: 0 <= k < |s| ==> r[k] == LowerChar(s[k])
  {
    if s == [] then [] else [LowerChar(s[0])] + ToLowerCase(s[1..])
  }

  function LowerChar(c: char): char {
    if 'A' <= c <= 'Z' then (c as int - 'A' as int + 'a' as int) as char
    else if c == '\U{212A}' then 'k'
    else c
  }

  predicate IsDigit(c: char) {
    '0' <= c <= '9'
  }

  predicate AllDigits(s: string) {
    forall k :: 0 <= k < |s| ==> IsDigit(s[k])
  }

  function DigitChar(d: nat): (c: char)
    requires d < 10
    ensures IsDigit(c) && c as int - '0' as int == d
  {
    ('0' as int + d) as char
  }

  function DigitValue(c: char): nat
    requires IsDigit(c)
  {
    c as int - '0' as int
  }

  /** The value of a string of decimal digits; the empty string reads as 0. */
  function DigitsValue(s: string): nat
    requires AllDigits(s)
  {
    if s == [] then 0 else 10 * DigitsValue(s[..|s| - 1]) + DigitValue(s[|s| - 1])
  }

  /** `String(n)` for a non-negative integer: shortest decimal form, no leading zero. */
  function NatToString(n: nat): (r: string)
    ensures |r| >= 1 && AllDigits(r)
    ensures |r| > 1 ==> r[0] != '0'
  {
    if n < 10 then [DigitChar(n)] else NatToString(n / 10) + [DigitChar(n % 10)]
  }

  /** `String(i)` for any integer. */
  function IntToString(i: int): string {
    if i < 0 then "-" + NatToString(-i) else NatToString(i)
  }

  lemma {:induction false} DigitsOfNatToString(n: nat)
    ensures DigitsValue(NatToString(n)) == n
  {
    if n >= 10 {
      DigitsOfNatToString(n / 10);
      var s := NatToString(n);
      assert s[..|s| - 1] == NatToString(n / 10);
    }
  }

  /** Printing a digit string without a leading zero gives back the string itself. */
  lemma {:induction false} NatToStringOfDigits(s: string)
    requires |s| >= 1 && AllDigits(s) && (|s| > 1 ==> s[0] != '0')
    ensures NatToString(DigitsValue(s)) == s
    decreases |s|
  {
    if |s| == 1 {
    } else {
      var init := s[..|s| - 1];
      NatToStringOfDigits(init);
      DigitsValueAtLeast(init);
      assert DigitsValue(s) / 10 == DigitsValue(init);
      assert DigitsValue(s) % 10 == DigitValue(s[|s| - 1]);
      assert s == init + [s[|s| - 1]];
    }
  }

  function Pow10(n: nat): (r: nat)
    ensures r >= 1
  {
    if n == 0 then 1 else 10 * Pow10(n - 1)
  }

  /** A string of `n` digits is worth less than 10^n. */
  lemma {:induction false} DigitsValueBelow(s: string)
    requires AllDigits(s)
    ensures DigitsValue(s) < Pow10(|s|)
    decreases |s|
  {
    if s != [] {
      DigitsValueBelow(s[..|s| - 1]);
    }
  }

  /** A string of `n` digits whose first digit is not 0 is worth at least 10^(n-1). */
  lemma {:induction false} DigitsValueAtLeast(s: string)
    requires |s| >= 1 && AllDigits(s) && s[0] != '0'
    ensures DigitsValue(s) >= Pow10(|s| - 1)
    decreases |s|
  {
    if |s| > 1 {
      DigitsValueAtLeast(s[..|s| - 1]);
    } else {
      assert s[..0] == [];
    }
  }

  function Repeat(c: char, n: nat): (r: string)
    ensures |r| == n && forall k :: 0 <= k < n ==> r[k] == c
  {
    if n == 0 then [] else [c] + Repeat(c, n - 1)
  }

  /** `padStart(width, c)`. */
  function PadStart(s: string, width: nat, c: char): (r: string)
    ensures |r| == if |s| >= width then |s| else width
    ensures EndsWith(r, s)
  {
    if |s| >= width then s else Repeat(c, width - |s|) + s
  }

  /** `String(n).padStart(2, '0')`. */
  function Pad2(n: nat): string {
    PadStart(NatToString(n), 2, '0')
  }

  lemma {:induction false} Pad2Digits(n: nat)
    requires n < 100
    ensures |Pad2(n)| == 2 && AllDigits(Pad2(n)) && DigitsValue(Pad2(n)) == n
  {
    var s := Pad2(n);
    if n < 10 {
      assert s == ['0', DigitChar(n)];
      assert s[..1] == ['0'] && s[..1][..0] == [];
      assert DigitsValue(s[..1]) == 0;
    } else {
      assert NatToString(n / 10) == [DigitChar(n / 10)];
      assert NatToString(n) == [DigitChar(n / 10)] + [DigitChar(n % 10)];
      assert s == [DigitChar(n / 10), DigitChar(n % 10)];
      assert s[..1] == [DigitChar(n / 10)];
      assert DigitsValue(s[..1]) == n / 10;
    }
  }

  /** Two digits read and printed back with `padStart(2, '0')` are unchanged. */
  lemma {:induction false} Pad2OfDigits(s: string)
    requires |s| == 2 && AllDigits(s)
    ensures DigitsValue(s) < 100 && Pad2(DigitsValue(s)) == s
  {
    TwoDigitsValue(s);
    Pad2OfValue(DigitsValue(s), s[0], s[1]);
    assert s == [s[0], s[1]];
  }

  lemma {:induction false} Pad2OfValue(n: nat, c0: char, c1: char)
    requires IsDigit(c0) && IsDigit(c1) && n == 10 * DigitValue(c0) + DigitValue(c1)
    ensures n < 100 && Pad2(n) == [c0, c1]
  {
    var a, b := DigitValue(c0), DigitValue(c1);
    CharOfValue(c0);
    CharOfValue(c1);
    if a == 0 {
      assert NatToString(n) == [c1];
      assert Repeat('0', 1) == ['0'];
    } else {
      DivMod10(a, b);
      assert NatToString(n / 10) == [c0];
      assert NatToString(n) == [c0] + [c1];
    }
  }

  lemma {:induction false} TwoDigitsValue(s: string)
    requires |s| == 2 && AllDigits(s)
    ensures DigitsValue(s) == 10 * DigitValue(s[0]) + DigitValue(s[1])
  {
    assert s[..1] == [s[0]];
    assert s[..1][..0] == [];
    assert DigitsValue(s[..1]) == DigitValue(s[0]);
  }

  lemma {:induction false} CharOfValue(c: char)
    requires IsDigit(c)
    ensures DigitValue(c) < 10 && DigitChar(DigitValue(c)) == c
  {
  }

  lemma {:induction false} DivMod10(a: nat, b: nat)
    requires 0 < a < 10 && b < 10
    ensures 10 <= 10 * a + b < 100 && (10 * a + b) / 10 == a && (10 * a + b) % 10 == b
  {
  }

  predicate IsHexDigit(c: char) {
    IsDigit(c) || ('a' <= c <= 'f') || ('A' <= c <= 'F')
  }

  function HexDigitValue(c: char): nat
    requires IsHexDigit(c)
  {
    if IsDigit(c) then DigitValue(c)
    else if 'a' <= c <= 'f' then c as int - 'a' as int + 10
    else c as int - 'A' as int + 10
  }

  /**
   * Reads the leading decimal digits of `u` onto the accumulated value `acc`,
   * left to right, stopping at the first non-digit.
   */
  function ScanDecimal(u: string, acc: nat): nat
    decreases |u|
  {
    if u != [] && IsDigit(u[0]) then ScanDecimal(u[1..], 10 * acc + DigitValue(u[0])) else acc
  }

  /** Reads the leading hexadecimal digits of `u` onto `acc`. */
  function ScanHex(u: string, acc: nat): nat
    decreases |u|
  {
    if u != [] && IsHexDigit(u[0]) then ScanHex(u[1..], 16 * acc + HexDigitValue(u[0])) else acc
  }

  /** The leading white space `parseInt` skips. */
  function TrimJsStart(s: string): string {
    if s != [] && IsJsWhitespace(s[0]) then TrimJsStart(s[1..]) else s
  }

  /** The unsigned part of `parseInt`: a `0x` prefix and hex digits, or decimal digits. */
  function ParseMagnitude(u: string): Option<nat> {
    if |u| >= 2 && u[0] == '0' && (u[1] == 'x' || u[1] == 'X') then
      if |u| >= 3 && IsHexDigit(u[2]) then Some(ScanHex(u[2..], 0)) else None
    else if u != [] && IsDigit(u[0]) then Some(ScanDecimal(u, 0))
    else None
  }

  /**
   * `parseInt(s)` with no radix: leading white space is skipped, one sign is
   * read, a `0x`/`0X` prefix selects base 16, then the longest run of digits
   * is read; no digit at all gives NaN, here `None`.
   */
  function ParseInt(s: string): Option<int> {
    var t := TrimJsStart(s);
    var signed := t != [] && (t[0] == '-' || t[0] == '+');
    match ParseMagnitude(if signed then t[1..] else t)
    case None => None
    case Some(m) => Some(if signed && t[0] == '-' then 0 - m else m)
  }

  /** Scanning one more digit multiplies the value read so far by ten and adds the digit. */
  lemma {:induction false} ScanDecimalSnoc(s: string, c: char, acc: nat)
    requires AllDigits(s) && IsDigit(c)
    ensures ScanDecimal(s + [c], acc) == 10 * ScanDecimal(s, acc) + DigitValue(c)
    decreases |s|
  {
    if s == [] {
      assert s + [c] == [c] && [c][1..] == [];
    } else {
      assert (s + [c])[1..] == s[1..] + [c];
      ScanDecimalSnoc(s[1..], c, 10 * acc + DigitValue(s[0]));
    }
  }

  /** Scanning a whole digit string gives its decimal value. */
  lemma {:induction false} ScanDecimalOfDigits(s: string)
    requires AllDigits(s)
    ensures ScanDecimal(s, 0) == DigitsValue(s)
    decreases |s|
  {
    if s != [] {
      var init := s[..|s| - 1];
      ScanDecimalOfDigits(init);
      ScanDecimalSnoc(init, s[|s| - 1], 0);
      assert init + [s[|s| - 1]] == s;
    }
  }

  /** `parseInt` reads a non-empty run of decimal digits as its decimal value. */
  lemma {:induction false} ParseIntOfDigits(s: string)
    requires AllDigits(s) && s != []
    ensures ParseInt(s) == Some(DigitsValue(s))
  {
    assert !IsJsWhitespace(s[0]) by { assert IsDigit(s[0]); }
    assert TrimJsStart(s) == s;
    if |s| >= 2 {
      assert s[1] != 'x' && s[1] != 'X' by { assert IsDigit(s[1]); }
    }
    assert ParseMagnitude(s) == Some(ScanDecimal(s, 0));
    ScanDecimalOfDigits(s);
  }

  /**
   * `Number(s)` restricted to what the date and time inputs produce: after
   * trimming, the empty string is 0, a run of decimal digits is its value, and
   * anything else is NaN (`None`).
   */
  function JsNumber(s: string): (r: Option<int>)
    ensures Trim(s) == [] ==> r == Some(0)
    ensures r.Some? ==> r.value >= 0
  {
    var t := Trim(s);
    if t == [] then Some(0) else if AllDigits(t) then Some(DigitsValue(t)) else None
  }
}
