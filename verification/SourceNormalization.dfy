/**
 Normalisation of a submitted source: its comment is percent-decoded (section
 2.1 of RFC 3986) until nothing changes. The lenient character decoder is a
 parameter.
 */
module SourceNormalization {
  import opened Subscriptions
  import opened Text
  import opened Base64

  // ------------------------------------------------------------------
  // Configs, bases and comments
  // ------------------------------------------------------------------

  /** The config without its comment, which is what gets hashed, and the comment. */
  function Split(config: string): (string, Option<string>) {
    var c := Strip(config);
    var n := IndexOf(c, '#');
    if n < |c| then (Strip(c[..n]), Some(Strip(c[n + 1..]))) else (c, None)
  }

  // ------------------------------------------------------------------
  // Percent-decoding
  // ------------------------------------------------------------------

  predicate IsAscii(c: char) {
    c as int < 128
  }

  function HexValue(c: char): (v: Option<nat>)
    ensures v.Some? ==> v.value < 16 && IsAscii(c)
  {
    if '0' <= c <= '9' then Some(c as int - 48)
    else if 'A' <= c <= 'F' then Some(c as int - 55)
    else if 'a' <= c <= 'f' then Some(c as int - 87)
    else None
  }

  predicate EscapeAt(s: string, i: nat) {
    i + 2 < |s| && s[i] == '%' && HexValue(s[i + 1]).Some? && HexValue(s[i + 2]).Some?
  }

  ghost predicate HasEscape(s: string) {
    exists i :: 0 <= i < |s| && EscapeAt(s, i)
  }

  /** The length of the longest ASCII prefix. */
  function AsciiEnd(s: string): (n: nat)
    ensures n <= |s| && (forall i :: 0 <= i < n ==> IsAscii(s[i])) && (n < |s| ==> !IsAscii(s[n]))
  {
    if s == "" || !IsAscii(s[0]) then 0 else 1 + AsciiEnd(s[1..])
  }

  /** The bytes of an ASCII run, escapes replaced by what they stand for. */
  function Bytes(run: string): seq<Byte>
    requires AsciiEnd(run) == |run|
  {
    if run == "" then []
    else if EscapeAt(run, 0) then [HexValue(run[1]).value * 16 + HexValue(run[2]).value] + Bytes(run[3..])
    else [run[0] as int] + Bytes(run[1..])
  }

  type Decoder = seq<Byte> -> string

  function Chars(bytes: seq<Byte>): string {
    if bytes == [] then "" else [bytes[0] as char] + Chars(bytes[1..])
  }

  /** No more characters than bytes come out, and ASCII bytes stand for themselves. */
  ghost predicate Lenient(decode: Decoder) {
    && (forall bs :: |decode(bs)| <= |bs|)
    && (forall bs :: (forall b :: b in bs ==> b < 128) ==> decode(bs) == Chars(bs))
  }

  /** One such decoder reads every byte as a character. */
  lemma {:induction false} CharsAreAsMany(bs: seq<Byte>)
    ensures |Chars(bs)| == |bs|
  {
    if bs != [] {
      CharsAreAsMany(bs[1..]);
    }
  }

  lemma CharsIsLenient()
    ensures Lenient(Chars)
  {
    forall bs: seq<Byte>
      ensures |Chars(bs)| <= |bs|
    {
      CharsAreAsMany(bs);
    }
  }

  /** ASCII runs are decoded one by one; everything else is left alone. */
  function UnquoteRuns(decode: Decoder, s: string): string
    decreases |s|
  {
    if s == "" then ""
    else
      var n := AsciiEnd(s);
      if n == 0 then [s[0]] + UnquoteRuns(decode, s[1..])
      else decode(Bytes(s[..n])) + UnquoteRuns(decode, s[n..])
  }

  function Unquote(decode: Decoder, s: string): string {
    if '%' !in s then s else UnquoteRuns(decode, s)
  }

  /** `t` is shorter by two characters or more when `s` has an escape, and is `s` otherwise. */
  ghost predicate ShrinksOrStays(s: string, t: string) {
    if HasEscape(s) then |t| + 2 <= |s| else t == s
  }

  lemma {:induction false} RunShrinks(run: string)
    requires AsciiEnd(run) == |run|
    ensures |Bytes(run)| <= |run| && (HasEscape(run) ==> |Bytes(run)| + 2 <= |run|)
  {
    if run != "" {
      if EscapeAt(run, 0) {
        RunShrinks(run[3..]);
      } else {
        RunShrinks(run[1..]);
        if HasEscape(run) {
          var i :| 0 <= i < |run| && EscapeAt(run, i);
          assert EscapeAt(run[1..], i - 1);
        }
      }
    }
  }

  lemma {:induction false} PlainRunIsItself(run: string)
    requires AsciiEnd(run) == |run| && !HasEscape(run)
    ensures Chars(Bytes(run)) == run && forall b :: b in Bytes(run) ==> b < 128
  {
    if run != "" {
      assert !EscapeAt(run, 0);
      forall i | 0 <= i < |run[1..]|
        ensures !EscapeAt(run[1..], i)
      {
        assert !EscapeAt(run, i + 1);
      }
      PlainRunIsItself(run[1..]);
      assert run == [run[0]] + run[1..];
    }
  }

  /** An escape never straddles the end of an ASCII run. */
  lemma EscapesSplit(s: string, n: nat)
    requires n <= |s| && (n < |s| ==> !IsAscii(s[n]))
    ensures HasEscape(s) <==> HasEscape(s[..n]) || HasEscape(s[n..])
  {
    if HasEscape(s) {
      var i :| 0 <= i < |s| && EscapeAt(s, i);
      if i < n {
        assert EscapeAt(s[..n], i);
      } else {
        assert EscapeAt(s[n..], i - n);
      }
    }
    PieceEscapes(s, 0, n);
    PieceEscapes(s, n, |s|);
    assert s[0..n] == s[..n] && s[n..|s|] == s[n..];
  }

  /** An escape of a piece is one of the whole. */
  lemma PieceEscapes(s: string, i: nat, j: nat)
    requires i <= j <= |s|
    ensures HasEscape(s[i..j]) ==> HasEscape(s)
  {
    if HasEscape(s[i..j]) {
      var k :| 0 <= k < |s[i..j]| && EscapeAt(s[i..j], k);
      assert EscapeAt(s, i + k);
    }
  }

  lemma RunShrinksOrStays(decode: Decoder, run: string)
    requires Lenient(decode) && AsciiEnd(run) == |run|
    ensures ShrinksOrStays(run, decode(Bytes(run)))
  {
    RunShrinks(run);
    if !HasEscape(run) {
      PlainRunIsItself(run);
    }
  }

  /** One pass shortens exactly the texts with an escape left, and keeps the others. */
  lemma {:induction false} RunsShrinkOrStay(decode: Decoder, s: string)
    requires Lenient(decode)
    ensures ShrinksOrStays(s, UnquoteRuns(decode, s))
    decreases |s|
  {
    if s != "" {
      var n := AsciiEnd(s);
      if n == 0 {
        RunsShrinkOrStay(decode, s[1..]);
        OtherCharacterStays(s, UnquoteRuns(decode, s[1..]));
      } else {
        var run, tail := s[..n], s[n..];
        AsciiRun(s, n);
        RunsShrinkOrStay(decode, tail);
        assert s == run + tail;
        FirstRunShrinksOrStays(decode, s, run, tail, UnquoteRuns(decode, tail));
      }
    }
  }

  lemma FirstRunShrinksOrStays(decode: Decoder, s: string, run: string, tail: string, rest: string)
    requires Lenient(decode) && s == run + tail && AsciiEnd(run) == |run| && (tail != "" ==> !IsAscii(tail[0]))
    requires ShrinksOrStays(tail, rest)
    ensures ShrinksOrStays(s, decode(Bytes(run)) + rest)
  {
    EscapesSplit(s, |run|);
    assert s[..|run|] == run && s[|run|..] == tail;
    RunShrinksOrStays(decode, run);
  }

  lemma OtherCharacterStays(s: string, rest: string)
    requires s != "" && !IsAscii(s[0])
    requires ShrinksOrStays(s[1..], rest)
    ensures ShrinksOrStays(s, [s[0]] + rest)
  {
    if HasEscape(s) {
      var i :| 0 <= i < |s| && EscapeAt(s, i);
      assert EscapeAt(s[1..], i - 1);
    }
    PieceEscapes(s, 1, |s|);
    assert s[1..|s|] == s[1..];
  }

  lemma AsciiRun(s: string, n: nat)
    requires n == AsciiEnd(s)
    ensures AsciiEnd(s[..n]) == n
  {
    var run := s[..n];
    assert forall i :: 0 <= i < n ==> IsAscii(run[i]);
  }

  lemma UnquoteShrinksOrStays(decode: Decoder, s: string)
    requires Lenient(decode)
    ensures ShrinksOrStays(s, Unquote(decode, s))
  {
    RunsShrinkOrStay(decode, s);
    assert forall i :: 0 <= i < |s| && EscapeAt(s, i) ==> s[i] in s;
  }

  // ------------------------------------------------------------------
  // The fixpoint
  // ------------------------------------------------------------------

  function Passes(decode: Decoder, s: string, k: nat): string
    decreases k
  {
    if k == 0 then s else Passes(decode, Unquote(decode, s), k - 1)
  }

  /** As many passes as it takes to leave no escape. */
  ghost function Decoded(decode: Decoder, s: string): string
    requires Lenient(decode)
    decreases |s|
  {
    if HasEscape(s) then
      UnquoteShrinksOrStays(decode, s);
      Decoded(decode, Unquote(decode, s))
    else s
  }

  ghost predicate EscapesFor(decode: Decoder, s: string, k: nat) {
    forall j :: 0 <= j < k ==> HasEscape(Passes(decode, s, j))
  }

  lemma OnePassMore(decode: Decoder, s: string, next: string, k: nat)
    requires HasEscape(s) && next == Unquote(decode, s) && EscapesFor(decode, next, k)
    ensures EscapesFor(decode, s, k + 1) && Passes(decode, s, k + 1) == Passes(decode, next, k)
  {
    forall j | 0 <= j < k + 1
      ensures HasEscape(Passes(decode, s, j))
    {
      if j > 0 {
        assert Passes(decode, s, j) == Passes(decode, next, j - 1);
      }
    }
  }

  /**
   The decoded text is what the first pass without escapes leaves; every pass
   before it takes at least two characters away.
   */
  lemma {:induction false} DecodedIsFirstWithoutEscape(decode: Decoder, s: string) returns (k: nat)
    requires Lenient(decode)
    ensures Decoded(decode, s) == Passes(decode, s, k) && !HasEscape(Decoded(decode, s))
    ensures EscapesFor(decode, s, k) && |Decoded(decode, s)| + 2 * k <= |s|
    decreases |s|
  {
    k := 0;
    if HasEscape(s) {
      UnquoteShrinksOrStays(decode, s);
      var next := Unquote(decode, s);
      k := DecodedIsFirstWithoutEscape(decode, next);
      OnePassMore(decode, s, next, k);
      k := k + 1;
    }
  }

  // ------------------------------------------------------------------
  // Normalisation
  // ------------------------------------------------------------------

  lemma CleanComment(decode: Decoder, s: string)
    requires Lenient(decode)
    ensures Stripped(Strip(Decoded(decode, s))) && !HasEscape(Strip(Decoded(decode, s)))
  {
    var k := DecodedIsFirstWithoutEscape(decode, s);
    var i, j := StripIsPiece(Decoded(decode, s));
    PieceEscapes(Decoded(decode, s), i, j);
  }

  /** The decoded and stripped comment; None without one. */
  ghost function DecodedComment(decode: Decoder, source: string): (comment: Option<string>)
    requires Lenient(decode)
    ensures comment.Some? ==> Stripped(comment.value) && !HasEscape(comment.value)
  {
    var n := IndexOf(source, '#');
    if n < |source| then
      CleanComment(decode, source[n + 1..]);
      Some(Strip(Decoded(decode, source[n + 1..])))
    else None
  }

  /** The normal form of a source, or None when its comment is too long. */
  ghost function Normalized(decode: Decoder, source: string, limit: Option<nat>): Option<string>
    requires Lenient(decode)
  {
    var n := IndexOf(source, '#');
    if n == |source| then Some(source)
    else
      var comment := DecodedComment(decode, source).value;
      if limit.Some? && |comment| > limit.value then None else Some(source[..n] + "#" + comment)
  }

  method NormalizeSource(decode: Decoder, source: string, limit: Option<nat>) returns (normal: Option<string>)
    requires Lenient(decode)
    ensures normal == Normalized(decode, source, limit)
  {
    var n := IndexOf(source, '#');
    if n == |source| {
      return Some(source);
    }
    var url, comment := source[..n], source[n + 1..];
    var prev := None;
    while prev != Some(comment)
      invariant Decoded(decode, comment) == Decoded(decode, source[n + 1..])
      invariant prev.Some? ==> comment == Unquote(decode, prev.value)
      decreases |comment|, if prev == Some(comment) then 0 else 1
    {
      UnquoteShrinksOrStays(decode, comment);
      prev := Some(comment);
      comment := Unquote(decode, comment);
    }
    UnquoteShrinksOrStays(decode, comment);
    comment := Strip(comment);
    if limit.Some? && |comment| > limit.value {
      return None;
    }
    return Some(url + "#" + comment);
  }

  lemma {:induction false} FirstOccurrence(s: string, c: char, n: nat)
    requires n < |s| && s[n] == c && c !in s[..n]
    ensures IndexOf(s, c) == n
  {
    if n > 0 {
      assert s[..n][0] == s[0];
      assert forall i :: 0 <= i < n - 1 ==> s[1..][i] == s[..n][i + 1];
      FirstOccurrence(s[1..], c, n - 1);
    }
  }

  lemma FirstHash(url: string, comment: string)
    requires '#' !in url
    ensures IndexOf(url + "#" + comment, '#') == |url|
  {
    var s := url + "#" + comment;
    FirstOccurrence(s, '#', |url|);
  }

  lemma StripLeftTwice(s: string)
    ensures StripLeft(StripLeft(s)) == StripLeft(s)
  {
    var k := StripLeftIsSuffix(s);
  }

  lemma StripLeftParts(url: string, tail: string)
    requires tail != "" && tail[0] == '#'
    ensures StripLeft(url + tail) == StripLeft(url) + tail
  {
    StripLeftOfJoin(url, tail);
  }

  lemma StripRightParts(head: string, comment: string)
    requires head != "" && head[|head| - 1] == '#'
    ensures StripRight(head + comment) == head + StripRight(comment)
  {
    StripRightOfJoin(head, comment);
  }

  lemma ConcatAssociates(a: string, b: string, c: string)
    ensures a + b + c == a + (b + c)
  {
  }

  lemma StripParts(url: string, comment: string)
    ensures Strip(url + "#" + comment) == StripLeft(url) + "#" + StripRight(comment)
  {
    var left := StripLeft(url);
    ConcatAssociates(url, "#", comment);
    StripLeftParts(url, "#" + comment);
    ConcatAssociates(left, "#", comment);
    StripRightParts(left + "#", comment);
  }

  lemma {:induction false} SpacesAreStripped(s: string)
    requires forall i :: 0 <= i < |s| ==> IsSpace(s[i])
    ensures StripLeft(s) == "" && StripRight(s) == ""
    decreases |s|
  {
    if s != "" {
      SpacesAreStripped(s[1..]);
      SpacesAreStripped(s[..|s| - 1]);
    }
  }

  lemma SpacesBefore(spaces: string, rest: string)
    requires (forall i :: 0 <= i < |spaces| ==> IsSpace(spaces[i])) && rest != "" && !IsSpace(rest[0])
    ensures StripLeft(spaces + rest) == rest
  {
    SpacesAreStripped(spaces);
    StripLeftOfJoin(spaces, rest);
  }

  lemma StripAround(spaces: string, c: char, rest: string)
    requires (forall i :: 0 <= i < |spaces| ==> IsSpace(spaces[i])) && !IsSpace(c)
    ensures Strip(spaces + [c] + rest) == [c] + StripRight(rest)
  {
    ConcatAssociates(spaces, [c], rest);
    SpacesBefore(spaces, [c] + rest);
    StripRightOfJoin([c], rest);
  }

  lemma PartsAt(s: string, k: nat)
    requires k < |s|
    ensures s == s[..k] + [s[k]] + s[k + 1..]
  {
  }

  /** Stripping the right end first makes no difference. */
  lemma StripOrder(s: string)
    ensures Strip(StripRight(s)) == Strip(s)
  {
    var k := StripLeftIsSuffix(s);
    if k == |s| {
      SpacesAreStripped(s);
    } else {
      var spaces, c, rest := s[..k], s[k], s[k + 1..];
      PartsAt(s, k);
      StripRightOfJoin(spaces + [c], rest);
      StripAround(spaces, c, rest);
      StripAround(spaces, c, StripRight(rest));
      StripRightTwice(rest);
    }
  }

  lemma StripRightTwice(s: string)
    ensures StripRight(StripRight(s)) == StripRight(s)
  {
    var k := StripRightIsPrefix(s);
  }

  lemma SplitParts(url: string, comment: string)
    requires '#' !in url
    ensures Split(url + "#" + comment) == (Strip(url), Some(Strip(comment)))
  {
    var left, right := StripLeft(url), StripRight(comment);
    StripParts(url, comment);
    assert '#' !in left by {
      var k := StripLeftIsSuffix(url);
    }
    FirstHash(left, right);
    var c := left + "#" + right;
    assert c[..|left|] == left && c[|left| + 1..] == right;
    StripLeftTwice(url);
    StripOrder(comment);
    SplitAt(url + "#" + comment, c, |left|);
  }

  lemma SplitAt(config: string, c: string, n: nat)
    requires c == Strip(config) && n == IndexOf(c, '#') < |c|
    ensures Split(config) == (Strip(c[..n]), Some(Strip(c[n + 1..])))
  {
  }

  lemma StrippedParts(url: string, comment: string)
    requires '#' !in url && Stripped(comment)
    ensures Split(url + "#" + comment) == (Strip(url), Some(comment))
  {
    SplitParts(url, comment);
    StrippedNeedsNoStrip(comment);
  }

  // ------------------------------------------------------------------
  // What normalisation promises
  // ------------------------------------------------------------------

  lemma CommentReplaced(source: string, url: string, before: string, comment: string)
    requires source == url + "#" + before && '#' !in url && Stripped(comment)
    ensures Split(url + "#" + comment).0 == Split(source).0 && Split(url + "#" + comment).1 == Some(comment)
  {
    SplitParts(url, before);
    StrippedParts(url, comment);
  }

  lemma PartsAround(source: string, n: nat)
    requires n < |source| && source[n] == '#'
    ensures source == source[..n] + "#" + source[n + 1..]
  {
  }

  /** What is hashed stays the same, and the comment is the decoded one. */
  lemma NormalizationKeepsBase(decode: Decoder, source: string, limit: Option<nat>, normal: string)
    requires Lenient(decode) && Normalized(decode, source, limit) == Some(normal)
    ensures Split(normal) == (Split(source).0, DecodedComment(decode, source))
  {
    var comment := DecodedComment(decode, source);
    if comment.Some? {
      var n := IndexOf(source, '#');
      PartsAround(source, n);
      CommentReplaced(source, source[..n], source[n + 1..], comment.value);
    } else {
      NoHashNoComment(source);
    }
  }

  lemma NoHashNoComment(source: string)
    requires '#' !in source
    ensures Split(source).1 == None
  {
    var i, j := StripIsPiece(source);
    assert '#' !in source[i..j];
  }

  lemma AssembledParts(url: string, comment: string, normal: string, n: nat)
    requires '#' !in url && normal == url + "#" + comment && n == IndexOf(normal, '#')
    ensures n == |url| < |normal| && normal[..n] == url && normal[n + 1..] == comment
  {
    FirstHash(url, comment);
  }

  lemma CleanCommentStays(decode: Decoder, comment: string)
    requires Lenient(decode) && Stripped(comment) && !HasEscape(comment)
    ensures Strip(Decoded(decode, comment)) == comment
  {
    StrippedNeedsNoStrip(comment);
  }

  /** Normalising again changes nothing. */
  lemma NormalizationSettles(decode: Decoder, source: string, limit: Option<nat>, normal: string)
    requires Lenient(decode) && Normalized(decode, source, limit) == Some(normal)
    ensures Normalized(decode, normal, limit) == Some(normal)
  {
    var n := IndexOf(source, '#');
    if n < |source| {
      var comment := DecodedComment(decode, source).value;
      AssembledParts(source[..n], comment, normal, IndexOf(normal, '#'));
      CleanCommentStays(decode, comment);
    }
  }

  /** The comment a normal form ends with has no escape left and is within the limit. */
  lemma NormalCommentIsClean(decode: Decoder, source: string, limit: Option<nat>, normal: string, n: nat)
    requires Lenient(decode) && Normalized(decode, source, limit) == Some(normal)
    requires n == IndexOf(normal, '#') < |normal|
    ensures var comment := normal[n + 1..];
            !HasEscape(comment) && Stripped(comment) && (limit.Some? ==> |comment| <= limit.value)
  {
    var h := IndexOf(source, '#');
    if h < |source| {
      AssembledParts(source[..h], DecodedComment(decode, source).value, normal, n);
    }
  }
}
