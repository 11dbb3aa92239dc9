/**
 * The unescaping of SUMMARY and DESCRIPTION values by the browser importer,
 * close to the TEXT escaping of section 3.3.11 of RFC 5545: four global
 * replacements applied one after the other, then a trim.
 */
module IcsText {
  import opened Common
  import opened JsText

  /** `cleanValue`: `\n`, `\,`, `\;` and `\\` are replaced in that order, then the result is trimmed. */
  function CleanValue(value: string): (r: string)
    ensures r == [] || (!IsJsWhitespace(r[0]) && !IsJsWhitespace(r[|r| - 1]))
  {
    Trim(Unescaped(value))
  }

  /** The four replacements of `cleanValue`, before the trim. */
  function Unescaped(value: string): string {
    var s1 := ReplaceAll(value, "\\n", "\n");
    var s2 := ReplaceAll(s1, "\\,", ",");
    var s3 := ReplaceAll(s2, "\\;", ";");
    ReplaceAll(s3, "\\\\", "\\")
  }

  /** The TEXT escape of one character, as section 3.3.11 of RFC 5545 writes it. */
  function EscapeChar(c: char): string {
    if c == '\n' then "\\n"
    else if c == ',' then "\\,"
    else if c == ';' then "\\;"
    else if c == '\\' then "\\\\"
    else [c]
  }

  /** A string written character by character through `f`. */
  function Flat(s: string, f: char -> string): string
    decreases |s|
  {
    if s == [] then [] else f(s[0]) + Flat(s[1..], f)
  }

  /** The TEXT escape of a whole value. */
  function EscapeText(s: string): string {
    Flat(s, EscapeChar)
  }

  /** No piece written by `f` ends in a backslash, so no two-character escape straddles two pieces. */
  predicate NoTrailingBackslash(s: string, f: char -> string) {
    forall k :: 0 <= k < |s| ==> f(s[k]) == [] || f(s[k])[|f(s[k])| - 1] != '\\'
  }

  /**
   * Replacing a two-character escape in a string written piece by piece is
   * replacing it in each piece.
   */
  lemma {:induction false} ReplaceAllFlat(s: string, f: char -> string, g: char -> string, pat: string, rep: string)
    requires |pat| == 2 && pat[0] == '\\'
    requires NoTrailingBackslash(s, f)
    requires forall k :: 0 <= k < |s| ==> g(s[k]) == ReplaceAll(f(s[k]), pat, rep)
    ensures ReplaceAll(Flat(s, f), pat, rep) == Flat(s, g)
    decreases |s|
  {
    if s == [] {
    } else {
      var head := f(s[0]);
      assert NoTrailingBackslash(s[1..], f) by {
        assert forall k :: 0 <= k < |s[1..]| ==> s[1..][k] == s[k + 1];
      }
      ReplaceAllFlat(s[1..], f, g, pat, rep);
      ReplaceAllConcat(head, Flat(s[1..], f), pat, rep);
    }
  }

  lemma {:induction false} FlatIdentity(s: string, f: char -> string)
    requires forall k :: 0 <= k < |s| ==> f(s[k]) == [s[k]]
    ensures Flat(s, f) == s
    decreases |s|
  {
    if s != [] {
      assert forall k :: 0 <= k < |s[1..]| ==> s[1..][k] == s[k + 1];
      FlatIdentity(s[1..], f);
    }
  }

  /** The escape of `c` after the first one, two and three replacements of `cleanValue`. */
  function AfterNewline(c: char): string {
    if c == ',' then "\\," else if c == ';' then "\\;" else [c]
  }

  function AfterComma(c: char): string {
    if c == ';' then "\\;" else [c]
  }

  function Itself(c: char): string {
    [c]
  }

  /** The four replacements, applied to the escape of a character other than a backslash. */
  lemma {:induction false} StagesOfChar(c: char)
    requires c != '\\'
    ensures ReplaceAll(EscapeChar(c), "\\n", "\n") == AfterNewline(c)
    ensures ReplaceAll(AfterNewline(c), "\\,", ",") == AfterComma(c)
    ensures ReplaceAll(AfterComma(c), "\\;", ";") == Itself(c)
    ensures ReplaceAll(Itself(c), "\\\\", "\\") == Itself(c)
  {
    assert "\\n"[..2] == "\\n" && "\\,"[..2] == "\\," && "\\;"[..2] == "\\;";
    assert "\\n"[2..] == [] && "\\,"[2..] == [] && "\\;"[2..] == [];
  }

  /**
   * Unescaping undoes the TEXT escape of a value without backslashes:
   * `cleanValue` gives back the value itself, trimmed.
   */
  lemma {:induction false} CleanEscaped(s: string)
    requires '\\' !in s
    ensures CleanValue(EscapeText(s)) == Trim(s)
  {
    forall k | 0 <= k < |s| {
      StagesOfChar(s[k]);
    }
    ReplaceAllFlat(s, EscapeChar, AfterNewline, "\\n", "\n");
    ReplaceAllFlat(s, AfterNewline, AfterComma, "\\,", ",");
    ReplaceAllFlat(s, AfterComma, Itself, "\\;", ";");
    ReplaceAllFlat(s, Itself, Itself, "\\\\", "\\");
    FlatIdentity(s, Itself);
  }

  /**
   * Because `\n` is replaced first, an escaped backslash followed by `n` is
   * misread: the escape of the two characters backslash and `n` comes back as
   * a backslash and a newline.
   */
  lemma {:induction false} EscapedBackslashN()
    ensures EscapeText("\\n") == "\\\\n"
    ensures Unescaped(EscapeText("\\n")) == "\\\n"
  {
    assert EscapeText("\\n") == EscapeChar('\\') + Flat("n", EscapeChar);
    var e := "\\\\n";
    assert e[..2] != "\\n" && e[1..][..2] == "\\n" && e[1..][2..] == [];
    var s1 := ReplaceAll(e, "\\n", "\n");
    assert s1 == "\\\n";
    assert s1[..2] != "\\," && s1[..2] != "\\;" && s1[..2] != "\\\\";
    assert s1[1..] == "\n";
  }

  lemma {:induction false} FlatConcat(a: string, b: string, f: char -> string)
    ensures Flat(a + b, f) == Flat(a, f) + Flat(b, f)
    decreases |a|
  {
    if a != [] {
      assert (a + b)[0] == a[0] && (a + b)[1..] == a[1..] + b;
      FlatConcat(a[1..], b, f);
      AppendAssoc(f(a[0]), Flat(a[1..], f), Flat(b, f));
    } else {
      assert a + b == b;
    }
  }

  /** Text without a character that needs escaping. */
  predicate Plain(s: string) {
    forall k :: 0 <= k < |s| ==> s[k] !in "\n,;\\"
  }

  /** Text without characters to escape is its own escape. */
  lemma {:induction false} EscapePlain(s: string)
    requires Plain(s)
    ensures EscapeText(s) == s
    decreases |s|
  {
    if s != [] {
      assert forall k :: 0 <= k < |s[1..]| ==> s[1..][k] == s[k + 1];
      EscapePlain(s[1..]);
    }
  }

  lemma {:induction false} EscapeCommaNewline(a: string, b: string, c: string)
    requires Plain(a) && Plain(b) && Plain(c)
    ensures EscapeText(a + "," + b + "\n" + c) == a + "\\," + b + "\\n" + c
  {
    EscapePlain(a);
    EscapePlain(b);
    EscapePlain(c);
    FlatConcat(a + "," + b + "\n", c, EscapeChar);
    FlatConcat(a + "," + b, "\n", EscapeChar);
    FlatConcat(a + ",", b, EscapeChar);
    FlatConcat(a, ",", EscapeChar);
    assert Flat(",", EscapeChar) == "\\," by { assert ","[1..] == []; }
    assert Flat("\n", EscapeChar) == "\\n" by { assert "\n"[1..] == []; }
  }

  /**
   * An escaped comma and an escaped newline read back as themselves: as in
   * `Team\, sync\nroom A`, which reads as `Team, sync`, a newline, then `room A`.
   */
  lemma {:induction false} CleanCommaNewline(a: string, b: string, c: string)
    requires Plain(a) && Plain(b) && Plain(c)
    requires a != [] && !IsJsWhitespace(a[0]) && c != [] && !IsJsWhitespace(c[|c| - 1])
    ensures CleanValue(a + "\\," + b + "\\n" + c) == a + "," + b + "\n" + c
  {
    var s := a + "," + b + "\n" + c;
    EscapeCommaNewline(a, b, c);
    assert '\\' !in s by {
      assert forall x :: x in s ==> x in a || x in b || x in c || x == ',' || x == '\n';
    }
    CleanEscaped(s);
    assert s[0] == a[0] && s[|s| - 1] == c[|c| - 1];
  }
}
