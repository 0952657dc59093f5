/**
 Percent-encoding as in section 2.1 of RFC 3986, written apart from the decoder:
 each byte as `%` and two hexadecimal digits, the high one first, in either case;
 or, for an ASCII character other than `%`, as itself.
 */
module PercentEncoding {
  import opened Text
  import opened Base64
  import opened Subscriptions
  import opened SourceNormalization

  datatype Style = Plain | Escaped(upperHigh: bool, upperLow: bool)

  const UPPER := "0123456789ABCDEF"
  const LOWER := "0123456789abcdef"

  function Digit(n: nat, upper: bool): char
    requires n < 16
  {
    if upper then UPPER[n] else LOWER[n]
  }

  predicate Writable(b: Byte, style: Style) {
    style.Plain? ==> b < 128 && b as char != '%'
  }

  function WriteByte(b: Byte, style: Style): string
    requires Writable(b, style)
  {
    match style
    case Plain => [b as char]
    case Escaped(high, low) => ['%', Digit(b / 16, high), Digit(b % 16, low)]
  }

  ghost predicate Writing(bs: seq<Byte>, styles: seq<Style>) {
    |styles| == |bs| && forall i :: 0 <= i < |bs| ==> Writable(bs[i], styles[i])
  }

  function Write(bs: seq<Byte>, styles: seq<Style>): string
    requires |styles| == |bs| && forall i :: 0 <= i < |bs| ==> Writable(bs[i], styles[i])
  {
    if bs == [] then "" else WriteByte(bs[0], styles[0]) + Write(bs[1..], styles[1..])
  }

  lemma DigitHasValue(n: nat, upper: bool)
    requires n < 16
    ensures HexValue(Digit(n, upper)) == Some(n)
  {
  }

  lemma AllAscii(s: string)
    requires forall i :: 0 <= i < |s| ==> IsAscii(s[i])
    ensures AsciiEnd(s) == |s|
  {
  }

  lemma AsciiJoin(s: string, t: string)
    requires (forall i :: 0 <= i < |s| ==> IsAscii(s[i])) && AsciiEnd(t) == |t|
    ensures AsciiEnd(s + t) == |s + t|
  {
    AllAscii(s + t);
  }

  lemma EscapedByteIsDecoded(b: Byte, high: bool, low: bool, rest: string)
    requires AsciiEnd(rest) == |rest|
    ensures var s := WriteByte(b, Escaped(high, low)) + rest;
            AsciiEnd(s) == |s| && Bytes(s) == [b] + Bytes(rest)
  {
    var s := WriteByte(b, Escaped(high, low)) + rest;
    DigitHasValue(b / 16, high);
    DigitHasValue(b % 16, low);
    AsciiJoin(WriteByte(b, Escaped(high, low)), rest);
    assert EscapeAt(s, 0) && s[3..] == rest;
  }

  lemma PlainByteIsDecoded(b: Byte, rest: string)
    requires Writable(b, Plain) && AsciiEnd(rest) == |rest|
    ensures var s := WriteByte(b, Plain) + rest;
            AsciiEnd(s) == |s| && Bytes(s) == [b] + Bytes(rest)
  {
    var s := WriteByte(b, Plain) + rest;
    AsciiJoin(WriteByte(b, Plain), rest);
    assert !EscapeAt(s, 0) && s[1..] == rest;
  }

  /** Decoding an encoded text gives the bytes back, whatever the style of each. */
  lemma {:induction false} BytesUndoWrite(bs: seq<Byte>, styles: seq<Style>)
    requires Writing(bs, styles)
    ensures var s := Write(bs, styles);
            AsciiEnd(s) == |s| && Bytes(s) == bs
  {
    if bs != [] {
      BytesUndoWrite(bs[1..], styles[1..]);
      assert bs == [bs[0]] + bs[1..];
      match styles[0]
      case Plain => PlainByteIsDecoded(bs[0], Write(bs[1..], styles[1..]));
      case Escaped(high, low) => EscapedByteIsDecoded(bs[0], high, low, Write(bs[1..], styles[1..]));
    }
  }

  lemma {:induction false} NoEscapeMeansPlain(bs: seq<Byte>, styles: seq<Style>)
    requires Writing(bs, styles) && '%' !in Write(bs, styles)
    ensures (forall b :: b in bs ==> b < 128) && Write(bs, styles) == Chars(bs)
  {
    if bs != [] {
      var first, rest := WriteByte(bs[0], styles[0]), Write(bs[1..], styles[1..]);
      assert forall c :: c in first ==> c in first + rest;
      assert forall c :: c in rest ==> c in first + rest;
      assert first[0] in first;
      NoEscapeMeansPlain(bs[1..], styles[1..]);
      assert bs == [bs[0]] + bs[1..];
    }
  }

  lemma OneRun(decode: Decoder, s: string)
    requires s != "" && AsciiEnd(s) == |s|
    ensures UnquoteRuns(decode, s) == decode(Bytes(s))
  {
    assert s[..|s|] == s && s[|s|..] == "";
  }

  /** Unquoting an encoded text decodes its bytes in one piece. */
  lemma UnquoteUndoesWrite(decode: Decoder, bs: seq<Byte>, styles: seq<Style>)
    requires Lenient(decode) && Writing(bs, styles)
    ensures Unquote(decode, Write(bs, styles)) == decode(bs)
  {
    var s := Write(bs, styles);
    BytesUndoWrite(bs, styles);
    if '%' !in s {
      NoEscapeMeansPlain(bs, styles);
    } else {
      OneRun(decode, s);
    }
  }

  function Codes(text: string): seq<Byte>
    requires forall i :: 0 <= i < |text| ==> IsAscii(text[i])
  {
    if text == "" then []
    else
      assert IsAscii(text[0]);
      var b: Byte := text[0] as int;
      [b] + Codes(text[1..])
  }

  lemma {:induction false} CodesAreAscii(text: string)
    requires forall i :: 0 <= i < |text| ==> IsAscii(text[i])
    ensures |Codes(text)| == |text| && (forall b :: b in Codes(text) ==> b < 128) && Chars(Codes(text)) == text
  {
    if text != "" {
      CodesAreAscii(text[1..]);
      assert text == [text[0]] + text[1..];
    }
  }

  /** An ASCII text encoded in any style unquotes to itself. */
  lemma AsciiTextComesBack(decode: Decoder, text: string, styles: seq<Style>)
    requires Lenient(decode) && forall i :: 0 <= i < |text| ==> IsAscii(text[i])
    requires Writing(Codes(text), styles)
    ensures Unquote(decode, Write(Codes(text), styles)) == text
  {
    CodesAreAscii(text);
    UnquoteUndoesWrite(decode, Codes(text), styles);
  }

  /** A source whose comment was encoded is normalised to the comment itself, stripped. */
  lemma EncodedCommentIsNormalized(decode: Decoder, url: string, text: string, styles: seq<Style>, limit: Option<nat>)
    requires Lenient(decode) && '#' !in url && !HasEscape(text)
    requires (forall i :: 0 <= i < |text| ==> IsAscii(text[i])) && Writing(Codes(text), styles)
    ensures Normalized(decode, url + "#" + Write(Codes(text), styles), limit) ==
            if limit.Some? && |Strip(text)| > limit.value then None else Some(url + "#" + Strip(text))
  {
    var written := Write(Codes(text), styles);
    var source := url + "#" + written;
    AsciiTextComesBack(decode, text, styles);
    UnquoteShrinksOrStays(decode, written);
    assert Decoded(decode, written) == text;
    AssembledParts(url, written, source, IndexOf(source, '#'));
  }
}
