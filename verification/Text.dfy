/** The string operations the config parser relies on, as Python defines them. */
module Text {
  /** White space as `str.strip` and `str.split` see it. */
  predicate IsSpace(c: char) {
    var n := c as int;
    || 9 <= n <= 13 || 28 <= n <= 32 || n == 0x85 || n == 0xA0 || n == 0x1680 || 0x2000 <= n <= 0x200A
    || n == 0x2028 || n == 0x2029 || n == 0x202F || n == 0x205F || n == 0x3000
  }

  /** Line boundaries as `str.splitlines` sees them; all of them are white space. */
  predicate IsLineBreak(c: char) {
    var n := c as int;
    10 <= n <= 13 || 28 <= n <= 30 || n == 0x85 || n == 0x2028 || n == 0x2029
  }

  const WHITE_SPACE := {
    0x09, 0x0A, 0x0B, 0x0C, 0x0D, 0x1C, 0x1D, 0x1E, 0x1F, 0x20, 0x85, 0xA0, 0x1680, 0x2000, 0x2001, 0x2002, 0x2003,
    0x2004, 0x2005, 0x2006, 0x2007, 0x2008, 0x2009, 0x200A, 0x2028, 0x2029, 0x202F, 0x205F, 0x3000
  }

  const LINE_BREAKS := {0x0A, 0x0B, 0x0C, 0x0D, 0x1C, 0x1D, 0x1E, 0x85, 0x2028, 0x2029}

  /** The code points of either kind, one by one. */
  lemma SpacesAndBreaksAreListed(c: char)
    ensures IsSpace(c) <==> c as int in WHITE_SPACE
    ensures IsLineBreak(c) <==> c as int in LINE_BREAKS
    ensures IsLineBreak(c) ==> IsSpace(c)
  {
  }

  function StripLeft(s: string): string {
    if s != "" && IsSpace(s[0]) then StripLeft(s[1..]) else s
  }

  function StripRight(s: string): string {
    if s != "" && IsSpace(s[|s| - 1]) then StripRight(s[..|s| - 1]) else s
  }

  function Strip(s: string): string {
    StripRight(StripLeft(s))
  }

  ghost predicate Stripped(s: string) {
    s == "" || (!IsSpace(s[0]) && !IsSpace(s[|s| - 1]))
  }

  lemma {:induction false} StripLeftIsSuffix(s: string) returns (k: nat)
    ensures k <= |s| && StripLeft(s) == s[k..] && (k < |s| ==> !IsSpace(s[k]))
    ensures forall i :: 0 <= i < k ==> IsSpace(s[i])
  {
    if s != "" && IsSpace(s[0]) {
      k := StripLeftIsSuffix(s[1..]);
      k := k + 1;
    } else {
      k := 0;
    }
  }

  lemma {:induction false} StripRightIsPrefix(s: string) returns (k: nat)
    ensures k <= |s| && StripRight(s) == s[..k] && (k > 0 ==> !IsSpace(s[k - 1]))
  {
    if s != "" && IsSpace(s[|s| - 1]) {
      k := StripRightIsPrefix(s[..|s| - 1]);
      assert s[..|s| - 1][..k] == s[..k];
    } else {
      k := |s|;
    }
  }

  /** Stripping cuts a middle piece out, which needs no further stripping. */
  lemma StripIsPiece(s: string) returns (i: nat, j: nat)
    ensures i <= j <= |s| && Strip(s) == s[i..j] && Stripped(Strip(s))
  {
    i := StripLeftIsSuffix(s);
    var k := StripRightIsPrefix(s[i..]);
    j := i + k;
    assert s[i..][..k] == s[i..j];
  }

  lemma StrippedNeedsNoStrip(s: string)
    requires Stripped(s)
    ensures Strip(s) == s
  {
  }

  lemma {:induction false} StripLeftOfJoin(a: string, b: string)
    requires b != "" && !IsSpace(b[0])
    ensures StripLeft(a + b) == StripLeft(a) + b
  {
    if a == "" {
      assert a + b == b;
    } else {
      assert (a + b)[1..] == a[1..] + b;
      if IsSpace(a[0]) {
        StripLeftOfJoin(a[1..], b);
      }
    }
  }

  lemma {:induction false} StripRightOfJoin(a: string, b: string)
    requires a != "" && !IsSpace(a[|a| - 1])
    ensures StripRight(a + b) == a + StripRight(b)
  {
    if b == "" {
      assert a + b == a;
    } else {
      assert (a + b)[..|a + b| - 1] == a + b[..|b| - 1];
      if IsSpace(b[|b| - 1]) {
        StripRightOfJoin(a, b[..|b| - 1]);
      }
    }
  }

  // ------------------------------------------------------------------
  // Lines
  // ------------------------------------------------------------------

  ghost predicate BreakFree(s: string) {
    forall i :: 0 <= i < |s| ==> !IsLineBreak(s[i])
  }

  /** Position of the first line boundary, or the length. */
  function LineEnd(s: string): (n: nat)
    ensures n <= |s| && (forall i :: 0 <= i < n ==> !IsLineBreak(s[i])) && (n < |s| ==> IsLineBreak(s[n]))
  {
    if s == "" || IsLineBreak(s[0]) then 0 else 1 + LineEnd(s[1..])
  }

  function SplitLines(s: string): seq<string>
    decreases |s|
  {
    if s == "" then []
    else
      var n := LineEnd(s);
      if n == |s| then [s]
      else
        [s[..n]] + SplitLines(s[n + BreakLength(s, n)..])
  }

  // A carriage return and the line feed after it are one break.
  function BreakLength(s: string, n: nat): (k: nat)
    requires n < |s|
    ensures 1 <= k <= |s| - n
  {
    if s[n] == '\r' && n + 1 < |s| && s[n + 1] == '\n' then 2 else 1
  }

  function JoinLines(lines: seq<string>): string {
    if lines == [] then "" else if |lines| == 1 then lines[0] else lines[0] + "\n" + JoinLines(lines[1..])
  }

  /** Lines are joined by line feeds, with none at the end. */
  lemma {:induction false} JoinOfOneMore(lines: seq<string>, last: string)
    requires lines != []
    ensures JoinLines(lines + [last]) == JoinLines(lines) + "\n" + last
  {
    var more := lines + [last];
    assert more[0] == lines[0] && more[1..] == lines[1..] + [last];
    if |lines| > 1 {
      JoinOfOneMore(lines[1..], last);
    } else {
      assert more[1..] == [last];
    }
  }

  lemma SingleLine(l: string)
    requires l != "" && BreakFree(l)
    ensures SplitLines(l) == [l]
  {
    assert LineEnd(l) == |l|;
  }

  /** Splitting undoes joining when no line is empty or contains a boundary. */
  lemma {:induction false} SplitUndoesJoin(lines: seq<string>)
    requires forall l :: l in lines ==> l != "" && BreakFree(l)
    ensures SplitLines(JoinLines(lines)) == lines
  {
    if lines != [] {
      var first, others := lines[0], lines[1..];
      assert first in lines && lines == [first] + others;
      if others == [] {
        SingleLine(first);
      } else {
        assert forall l :: l in others ==> l in lines;
        SplitUndoesJoin(others);
        FirstLineOf(first, "\n", JoinLines(others));
      }
    }
  }

  /** What ends a line: any boundary, and a carriage return together with a line feed after it. */
  predicate EndsLine(brk: string, rest: string) {
    || brk == "\r\n"
    || (|brk| == 1 && IsLineBreak(brk[0]) && !(brk == "\r" && rest != "" && rest[0] == '\n'))
  }

  /** Whatever ends it, the first line is split off without its end. */
  lemma FirstLineOf(first: string, brk: string, rest: string)
    requires BreakFree(first) && EndsLine(brk, rest)
    ensures SplitLines(first + brk + rest) == [first] + SplitLines(rest)
  {
    var s := first + brk + rest;
    assert forall i :: 0 <= i < |first| ==> s[i] == first[i];
    assert s[|first|] == brk[0] && IsLineBreak(s[|first|]);
    assert LineEnd(s) == |first|;
    assert s[..|first|] == first && s[|first| + |brk|..] == rest;
    assert |first| + 1 < |s| ==> s[|first| + 1] == if |brk| == 2 then '\n' else rest[0];
  }

  // ------------------------------------------------------------------
  // Searching
  // ------------------------------------------------------------------

  lemma SliceOfSlice(s: string, i: nat, j: nat, a: nat, b: nat)
    requires i <= j <= |s| && a <= b <= j - i
    ensures s[i..j][a..b] == s[i + a..i + b]
  {
    var x, y := s[i..j][a..b], s[i + a..i + b];
    assert forall k :: 0 <= k < |x| ==> x[k] == y[k];
  }

  predicate At(s: string, i: nat, part: string) {
    i + |part| <= |s| && s[i..i + |part|] == part
  }

  predicate Contains(s: string, part: string) {
    exists i :: 0 <= i <= |s| && At(s, i, part)
  }

  /** Position of the first occurrence, or the length when there is none. */
  function Find(s: string, part: string): (n: nat)
    ensures n <= |s|
  {
    if s == "" || At(s, 0, part) then 0 else 1 + Find(s[1..], part)
  }

  function Lower(c: char): char {
    if 'A' <= c <= 'Z' then (c as int + 32) as char else c
  }

  function LowerCase(s: string): string {
    if s == "" then "" else [Lower(s[0])] + LowerCase(s[1..])
  }

  /** Position of the first `c`, or the length when there is none. */
  function IndexOf(s: string, c: char): (n: nat)
    ensures n <= |s| && c !in s[..n] && (n < |s| ==> s[n] == c) && (n == |s| ==> c !in s)
  {
    if s == "" then 0
    else if s[0] == c then 0
    else
      var n := 1 + IndexOf(s[1..], c);
      assert s[..n] == [s[0]] + s[1..][..n - 1] && s == [s[0]] + s[1..];
      n
  }
}
