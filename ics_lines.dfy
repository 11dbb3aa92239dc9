/**
 * Line handling of the browser importer: line endings are normalised to LF,
 * the content is trimmed and split into physical lines, and folded lines are
 * unfolded as section 3.1 of RFC 5545 describes: a physical line that starts
 * with a space or a tab continues the logical line before it, without that
 * first character. Logical lines are trimmed at their start and empty ones
 * are dropped.
 */
module IcsLines {
  import opened Common
  import opened JsText

  /** `.replace(/\r\n/g, '\n').replace(/\r/g, '\n').trim()`. */
  function NormalizeContent(content: string): (r: string)
    ensures '\r' !in r
  {
    var lf := ReplaceAll(ReplaceAll(content, "\r\n", "\n"), "\r", "\n");
    NoCarriageReturn(ReplaceAll(content, "\r\n", "\n"));
    TrimmedWithout(lf, '\r');
    Trim(lf)
  }

  /** After `.replace(/\r/g, '\n')` no carriage return is left. */
  lemma {:induction false} NoCarriageReturn(s: string)
    ensures '\r' !in ReplaceAll(s, "\r", "\n")
    decreases |s|
  {
    if |s| >= 1 {
      NoCarriageReturn(s[1..]);
    }
  }

  lemma {:induction false} TrimmedWithout(s: string, c: char)
    requires c !in s
    ensures c !in Trim(s)
  {
    var a := TrimStartBy(s, IsJsWhitespace);
    assert forall k :: 0 <= k < |a| ==> a[k] == s[|s| - |a| + k];
    var b := TrimEndBy(a, IsJsWhitespace);
    assert forall k :: 0 <= k < |b| ==> b[k] == a[k];
  }

  /** The physical lines of the normalised content. */
  function PhysicalLines(content: string): (r: seq<string>)
    ensures |r| >= 1
    ensures forall k :: 0 <= k < |r| ==> '\n' !in r[k] && '\r' !in r[k]
  {
    var s := NormalizeContent(content);
    var r := SplitOn(s, '\n');
    assert forall k :: 0 <= k < |r| ==> '\r' !in r[k] by {
      SplitPartsIn(s, '\n', '\r');
    }
    r
  }

  /** A character absent from `s` is absent from every part of its split. */
  lemma {:induction false} SplitPartsIn(s: string, sep: char, c: char)
    requires c !in s
    ensures forall k :: 0 <= k < |SplitOn(s, sep)| ==> c !in SplitOn(s, sep)[k]
    decreases |s|
  {
    match IndexOf(s, sep)
    case None =>
    case Some(i) =>
      assert c !in s[i + 1..] by {
        assert forall x :: x in s[i + 1..] ==> x in s;
      }
      SplitPartsIn(s[i + 1..], sep, c);
  }

  /** A physical line that continues the logical line before it. */
  predicate IsContinuation(l: string) {
    l != [] && (l[0] == ' ' || l[0] == '\t')
  }

  /** `l.substring(1)`: the line without its first character. */
  function DropFirst(l: string): (r: string)
    ensures l != [] ==> r == l[1..]
  {
    if l == [] then [] else l[1..]
  }

  /** The index just past the run of continuation lines that starts at `i`. */
  function GroupEnd(rs: seq<string>, i: nat): (j: nat)
    requires i <= |rs|
    ensures i <= j <= |rs|
    ensures j == |rs| || !IsContinuation(rs[j])
    ensures forall k :: i <= k < j ==> IsContinuation(rs[k])
    decreases |rs| - i
  {
    if i < |rs| && IsContinuation(rs[i]) then GroupEnd(rs, i + 1) else i
  }

  /** The continuation lines `ls`, each without its first character, run together. */
  function Tails(ls: seq<string>): string {
    if ls == [] then [] else Tails(ls[..|ls| - 1]) + DropFirst(ls[|ls| - 1])
  }

  lemma {:induction false} TailsSnoc(rs: seq<string>, a: nat, b: nat)
    requires a <= b < |rs|
    ensures Tails(rs[a..b + 1]) == Tails(rs[a..b]) + DropFirst(rs[b])
  {
    assert rs[a..b + 1][..b - a] == rs[a..b];
  }

  /** The logical line that starts at physical line `i` and ends before `j`. */
  function LogicalLine(rs: seq<string>, i: nat, j: nat): string
    requires i < j <= |rs|
  {
    Trim(rs[i]) + Tails(rs[i + 1..j])
  }

  /** The non-empty logical lines of `rs`, from physical line `i` on. */
  function Unfolded(rs: seq<string>, i: nat): (r: seq<string>)
    requires i <= |rs|
    ensures |r| <= |rs| - i
    ensures forall k :: 0 <= k < |r| ==> r[k] != []
    decreases |rs| - i
  {
    if i == |rs| then []
    else
      var j := GroupEnd(rs, i + 1);
      var cur := LogicalLine(rs, i, j);
      KeepLine(cur) + Unfolded(rs, j)
  }

  /** `if (currentLine) lines.push(currentLine)`: an empty logical line is dropped. */
  function KeepLine(cur: string): (r: seq<string>)
    ensures cur != [] ==> r == [cur]
    ensures cur == [] ==> r == []
  {
    if cur != [] then [cur] else []
  }

  /** The unfolding loop of `parseIcsFile`: an outer `for` over the physical lines ... */
  method UnfoldLines(rs: seq<string>) returns (lines: seq<string>)
    ensures lines == Unfolded(rs, 0)
  {
    lines := [];
    var i := 0;
    while i < |rs|
      invariant 0 <= i <= |rs|
      invariant UnfoldedAfter(rs, i, lines) == UnfoldedAfter(rs, 0, [])
      decreases |rs| - i
    {
      var head := Trim(rs[i]);
      var last, tail := AbsorbContinuations(rs, i);
      lines := lines + KeepLine(head + tail);
      i := last + 1;
    }
    UnfoldedAfterIs(rs, 0, []);
  }

  /** `Unfolded` with the lines found so far in front: the loop's own view of it. */
  function UnfoldedAfter(rs: seq<string>, i: nat, found: seq<string>): seq<string>
    requires i <= |rs|
    decreases |rs| - i
  {
    if i == |rs| then found
    else
      var j := GroupEnd(rs, i + 1);
      UnfoldedAfter(rs, j, found + KeepLine(LogicalLine(rs, i, j)))
  }

  lemma {:induction false} UnfoldedAfterIs(rs: seq<string>, i: nat, found: seq<string>)
    requires i <= |rs|
    ensures UnfoldedAfter(rs, i, found) == found + Unfolded(rs, i)
    decreases |rs| - i
  {
    if i < |rs| {
      var j := GroupEnd(rs, i + 1);
      var cur := KeepLine(LogicalLine(rs, i, j));
      UnfoldedAfterIs(rs, j, found + cur);
      AppendAssoc(found, cur, Unfolded(rs, j));
    }
  }


  /** ... and the inner `while` that appends the continuation lines after line `i`. */
  method AbsorbContinuations(rs: seq<string>, i: nat) returns (last: nat, tail: string)
    requires i < |rs|
    ensures last + 1 == GroupEnd(rs, i + 1)
    ensures tail == Tails(rs[i + 1..last + 1])
  {
    last := i;
    tail := [];
    assert rs[i + 1..last + 1] == [];
    while last + 1 < |rs| && IsContinuation(rs[last + 1])
      invariant i <= last < |rs|
      invariant GroupEnd(rs, last + 1) == GroupEnd(rs, i + 1)
      invariant tail == Tails(rs[i + 1..last + 1])
      decreases |rs| - last
    {
      TailsSnoc(rs, i + 1, last + 1);
      tail := tail + DropFirst(rs[last + 1]);
      last := last + 1;
    }
  }

  /** `parseIcsFile`'s logical lines of a file content. */
  function LogicalLines(content: string): (r: seq<string>)
    ensures forall k :: 0 <= k < |r| ==> r[k] != []
    ensures |r| <= |PhysicalLines(content)|
  {
    Unfolded(PhysicalLines(content), 0)
  }

  /** The trimmed non-empty lines of `rs`, in order. */
  function TrimmedNonEmpty(rs: seq<string>): seq<string> {
    if rs == [] then []
    else (if Trim(rs[0]) != [] then [Trim(rs[0])] else []) + TrimmedNonEmpty(rs[1..])
  }

  /** Without folded lines, unfolding keeps exactly the trimmed non-empty lines, in order. */
  lemma {:induction false} UnfoldedUnfolded(rs: seq<string>, i: nat)
    requires i <= |rs|
    requires forall k :: 0 <= k < |rs| ==> !IsContinuation(rs[k])
    ensures Unfolded(rs, i) == TrimmedNonEmpty(rs[i..])
    decreases |rs| - i
  {
    if i < |rs| {
      assert GroupEnd(rs, i + 1) == i + 1;
      assert rs[i + 1..i + 1] == [];
      assert LogicalLine(rs, i, i + 1) == Trim(rs[i]);
      assert rs[i..][1..] == rs[i + 1..];
      UnfoldedUnfolded(rs, i + 1);
    }
  }

  lemma {:induction false} NoFoldingKeepsLines(rs: seq<string>)
    requires forall k :: 0 <= k < |rs| ==> !IsContinuation(rs[k])
    ensures Unfolded(rs, 0) == TrimmedNonEmpty(rs)
  {
    UnfoldedUnfolded(rs, 0);
    assert rs[0..] == rs;
  }

  /** Folding a line for transport: every piece after the first is sent behind a space. */
  function Folded(pieces: seq<string>): (r: seq<string>)
    ensures |r| == |pieces|
    ensures forall k :: 0 <= k < |r| ==> r[k] == [' '] + pieces[k]
  {
    if pieces == [] then [] else Folded(pieces[..|pieces| - 1]) + [[' '] + pieces[|pieces| - 1]]
  }

  function Concat(pieces: seq<string>): string {
    if pieces == [] then [] else Concat(pieces[..|pieces| - 1]) + pieces[|pieces| - 1]
  }

  lemma {:induction false} TailsOfFolded(pieces: seq<string>)
    ensures Tails(Folded(pieces)) == Concat(pieces)
    decreases |pieces|
  {
    if pieces != [] {
      var f := Folded(pieces);
      assert f[..|f| - 1] == Folded(pieces[..|pieces| - 1]);
      TailsOfFolded(pieces[..|pieces| - 1]);
    }
  }

  /**
   * Unfolding undoes folding: a line sent as a first piece with no surrounding
   * white space, followed by continuation pieces each behind a space, is read
   * back as the one logical line `first + pieces...`.
   */
  lemma {:induction false} UnfoldFolded(first: string, pieces: seq<string>)
    requires first != [] && Trim(first) == first
    ensures Unfolded([first] + Folded(pieces), 0) == [first + Concat(pieces)]
  {
    var rs := [first] + Folded(pieces);
    var f := Folded(pieces);
    assert forall k :: 1 <= k < |rs| ==> rs[k] == f[k - 1];
    GroupEndAll(rs, 1);
    assert rs[1..|rs|] == f;
    TailsOfFolded(pieces);
    assert LogicalLine(rs, 0, |rs|) == first + Concat(pieces);
    assert Unfolded(rs, |rs|) == [];
  }

  lemma {:induction false} GroupEndAll(rs: seq<string>, i: nat)
    requires i <= |rs|
    requires forall k :: i <= k < |rs| ==> IsContinuation(rs[k])
    ensures GroupEnd(rs, i) == |rs|
    decreases |rs| - i
  {
    if i < |rs| {
      GroupEndAll(rs, i + 1);
    }
  }
}
