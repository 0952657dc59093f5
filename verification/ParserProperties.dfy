/** Parsing of content that is not the endpoint's text as it was sent. */
module ParserProperties {
  import opened Collections
  import opened Subscriptions
  import opened Text
  import opened Base64
  import opened ConfigParser

  // ------------------------------------------------------------------
  // Recognising proxy URIs
  // ------------------------------------------------------------------

  /** The same letter, or its capital. */
  predicate SameLetter(c: char, small: char) {
    c == small || ('a' <= small <= 'z' && c as int == small as int - 32)
  }

  lemma {:induction false} CapitalsAreLowered(s: string, scheme: string)
    requires |s| == |scheme| && forall i :: 0 <= i < |s| ==>
                                              SameLetter(s[i], scheme[i]) && Lower(scheme[i]) == scheme[i]
    ensures LowerCase(s) == scheme
  {
    if s != "" {
      assert SameLetter(s[0], scheme[0]);
      CapitalsAreLowered(s[1..], scheme[1..]);
      assert scheme == [scheme[0]] + scheme[1..];
    }
  }

  lemma {:induction false} SeparatorIsFound(s: string, rest: string)
    requires ':' !in s
    ensures Find(s + "://" + rest, "://") == |s|
  {
    var text := s + "://" + rest;
    if s == "" {
      assert At(text, 0, "://");
    } else {
      assert s[0] in s && text[0..3][0] == text[0] == s[0];
      assert text[1..] == s[1..] + "://" + rest;
      SeparatorIsFound(s[1..], rest);
    }
  }

  const KNOWN := {"vless", "vmess", "trojan", "ss", "hysteria", "hysteria2", "tuic", "hy2"}

  lemma SchemeLetters(scheme: string)
    requires scheme in KNOWN
    ensures scheme in SCHEMES && forall i :: 0 <= i < |scheme| ==> Lower(scheme[i]) == scheme[i] && scheme[i] != ':'
  {
    assert SCHEMES[0] == "vless" && SCHEMES[1] == "vmess" && SCHEMES[2] == "trojan" && SCHEMES[3] == "ss";
    assert SCHEMES[4] == "hysteria" && SCHEMES[5] == "hysteria2" && SCHEMES[6] == "tuic" && SCHEMES[7] == "hy2";
  }

  /** Each known scheme is recognised, in small letters, capitals or both. */
  lemma SchemesAreRecognisedInAnyCase(scheme: string, s: string, rest: string)
    requires scheme in KNOWN && |s| == |scheme| && forall i :: 0 <= i < |s| ==> SameLetter(s[i], scheme[i])
    ensures IsValidProxyUri(s + "://" + rest)
  {
    SchemeLetters(scheme);
    forall i | 0 <= i < |s|
      ensures s[i] != ':'
    {
      assert SameLetter(s[i], scheme[i]);
    }
    SeparatorIsFound(s, rest);
    CapitalsAreLowered(s, scheme);
    assert (s + "://" + rest)[..|s|] == s;
  }

  /** And nothing else is: before its first separator, a proxy URI has a known scheme. */
  lemma OnlyKnownSchemesAreRecognised(s: string, rest: string)
    requires ':' !in s && IsValidProxyUri(s + "://" + rest)
    ensures LowerCase(s) in KNOWN
  {
    SeparatorIsFound(s, rest);
    assert (s + "://" + rest)[..|s|] == s;
  }

  // ------------------------------------------------------------------
  // Plain text
  // ------------------------------------------------------------------

  /** The lines kept are those that are, stripped, a proxy URI; blank lines and comments are not. */
  lemma {:induction false} KeptExactly(lines: seq<string>, config: string)
    ensures config in ConfigLines(lines) <==>
            exists l :: l in lines && Strip(l) == config && config != "" && config[0] != '#' && IsValidProxyUri(config)
  {
    if lines != [] {
      KeptExactly(lines[1..], config);
      assert forall l :: l in lines <==> l == lines[0] || l in lines[1..];
    }
  }

  lemma {:induction false} JoinIsStripped(lines: seq<string>)
    requires lines != [] && forall l :: l in lines ==> l != "" && Stripped(l)
    ensures Stripped(JoinLines(lines)) && JoinLines(lines) != "" && JoinLines(lines)[0] == lines[0][0]
  {
    assert lines[0] in lines;
    if |lines| > 1 {
      assert forall l :: l in lines[1..] ==> l in lines;
      JoinIsStripped(lines[1..]);
    }
  }

  lemma PlainTextIsLeft(u: Utf8, s: string)
    requires Stripped(s) && (Contains(s, "://") || '\n' in s)
    ensures DecodeSubscription(u, s) == s
  {
    StrippedNeedsNoStrip(s);
  }

  lemma PieceHasSeparator(s: string, at: nat, config: string)
    requires CleanConfig(config) && at + |config| <= |s| && s[at..at + |config|] == config
    ensures Contains(s, "://")
  {
    FoundIsThere(config, "://");
    PartOfPiece(s, at, at + |config|, Find(config, "://"), "://");
  }

  lemma JoinHasSeparator(configs: seq<string>)
    requires configs != [] && CleanConfig(configs[0])
    ensures Contains(JoinLines(configs), "://")
  {
    var at := LineInJoin(configs, 0);
    PieceHasSeparator(JoinLines(configs), at, configs[0]);
  }

  /** Configs written plainly, one a line, are parsed back, whatever the character encoding. */
  lemma PlainTextIsParsed(u: Utf8, configs: seq<string>)
    requires configs != [] && forall c :: c in configs ==> CleanConfig(c)
    ensures Parse(u, JoinLines(configs)) == configs
  {
    forall c | c in configs
      ensures c != "" && BreakFree(c) && Stripped(c)
    {
      assert CleanConfig(c);
    }
    assert CleanConfig(configs[0]);
    JoinIsStripped(configs);
    JoinHasSeparator(configs);
    PlainTextIsLeft(u, JoinLines(configs));
    SplitUndoesJoin(configs);
    CleanConfigsKept(configs);
  }

  lemma {:induction false} FoundIsThere(s: string, part: string)
    requires Find(s, part) < |s|
    ensures At(s, Find(s, part), part)
  {
    if !At(s, 0, part) {
      FoundIsThere(s[1..], part);
      var n := Find(s[1..], part);
      SliceOfSlice(s, 1, |s|, n, n + |part|);
    }
  }

  // ------------------------------------------------------------------
  // The endpoint's text, respaced
  // ------------------------------------------------------------------

  lemma OneLineSplits(s: string)
    requires s != "" && LineEnd(s) == |s|
    ensures SplitLines(s) == [s]
  {
  }

  lemma {:induction false} FirstLineSplits(s: string, n: nat, rest: string)
    requires n == LineEnd(s) && n < |s| && rest == s[n + BreakLength(s, n)..]
    ensures SplitLines(s) == [s[..n]] + SplitLines(rest)
  {
  }

  lemma {:induction false} LinesHoldNothingElse(s: string, l: string, c: char)
    requires l in SplitLines(s) && c in l
    ensures c in s
    decreases |s|
  {
    var n := LineEnd(s);
    if n == |s| {
      OneLineSplits(s);
    } else {
      FirstLineSplits(s, n, s[n + BreakLength(s, n)..]);
      if l != s[..n] {
        LinesHoldNothingElse(s[n + BreakLength(s, n)..], l, c);
      }
    }
  }

  lemma {:induction false} NoColonInLines(lines: seq<string>)
    requires forall l :: l in lines ==> ':' !in l
    ensures ConfigLines(lines) == []
  {
    if lines != [] {
      LineWithoutColon(lines[0]);
      NoColonInLines(lines[1..]);
      assert lines == [lines[0]] + lines[1..];
      DroppedLine(lines[0], lines[1..]);
    }
  }

  lemma NoColonNoConfig(s: string)
    requires ':' !in s
    ensures ConfigLines(SplitLines(s)) == []
  {
    forall l | l in SplitLines(s)
      ensures ':' !in l
    {
      if ':' in l {
        LinesHoldNothingElse(s, l, ':');
      }
    }
    NoColonInLines(SplitLines(s));
  }

  lemma DroppedLine(line: string, rest: seq<string>)
    requires !IsConfigLine(Strip(line))
    ensures ConfigLines([line] + rest) == ConfigLines(rest)
  {
    assert ([line] + rest)[1..] == rest;
  }

  lemma LineWithoutColon(line: string)
    requires ':' !in line
    ensures !IsConfigLine(Strip(line))
  {
    var i, j := StripIsPiece(line);
    NoSeparator(Strip(line));
  }

  lemma {:induction false} CompactOfStripped(s: string)
    ensures Compact(StripLeft(s)) == Compact(s)
  {
    if s != "" && IsSpace(s[0]) {
      CompactOfStripped(s[1..]);
    }
  }

  lemma {:induction false} CompactOfJoin(s: string, t: string)
    ensures Compact(s + t) == Compact(s) + Compact(t)
  {
    if s == "" {
      assert s + t == t;
    } else {
      assert (s + t)[1..] == s[1..] + t;
      CompactOfJoin(s[1..], t);
    }
  }

  lemma {:induction false} CompactOfRightStripped(s: string)
    ensures Compact(StripRight(s)) == Compact(s)
  {
    if s != "" && IsSpace(s[|s| - 1]) {
      var last := [s[|s| - 1]];
      CompactOfRightStripped(s[..|s| - 1]);
      CompactOfJoin(s[..|s| - 1], last);
      assert s == s[..|s| - 1] + last && last[1..] == "";
      assert Compact(last) == Compact(last[1..]);
    }
  }

  /**
   Spaces anywhere in the endpoint's text, padded or not, change nothing, as long
   as there is no line feed among them once the ends are stripped.
   */
  lemma SpacedTextIsParsedAlike(u: Utf8, configs: seq<string>, t: string, r: nat, spaced: string)
    requires Inverse(u) && r <= 2 && t + Signs(r) == PublicText(u, configs)
    requires Compact(spaced) == t && '\n' !in Strip(spaced)
    ensures Parse(u, spaced) == Parse(u, t)
  {
    var c := Strip(spaced);
    DecodedPublicText(u, configs, t, r);
    Base64TextIsPlain(t);
    CompactOfStrip(spaced);
    SelectElements(c, NotSpace());
    assert ':' !in c by {
      assert NotSpace()(':');
    }
    forall i | 0 <= i <= |c|
      ensures !At(c, i, "://")
    {
      if At(c, i, "://") {
        SeparatorHasColon(c, i);
      }
    }
    NoColonNoConfig(c);
    NoColonNoConfig(t);
  }

  lemma CompactOfStrip(s: string)
    ensures Compact(Strip(s)) == Compact(s)
  {
    CompactOfStripped(s);
    CompactOfRightStripped(StripLeft(s));
  }

  lemma ForeignTextIsNotDecoded(s: string, c: char)
    requires c in s && !IsSpace(c) && !IsBase64Char(c)
    ensures Decode(Pad(Compact(Strip(s)))).None?
  {
    CompactOfStrip(s);
    SelectElements(s, NotSpace());
    assert NotSpace()(c);
    if Decode(Pad(Compact(s))).Some? {
      OnlyTheAlphabetIsDecoded(Pad(Compact(s)), c);
    }
  }

  lemma NotDecodedIsLeft(u: Utf8, text: string)
    requires Decode(Pad(Compact(Strip(text)))).None?
    ensures DecodeSubscription(u, text) == Strip(text)
  {
  }

  /** The URL-safe alphabet (section 5 of RFC 4648) has `-` and `_`, and text with either yields nothing. */
  lemma UrlSafeTextYieldsNothing(u: Utf8, text: string, c: char)
    requires ':' !in text && c in text && (c == '-' || c == '_')
    ensures Parse(u, text) == []
  {
    var i, j := StripIsPiece(text);
    ForeignTextIsNotDecoded(text, c);
    NotDecodedIsLeft(u, text);
    NoColonNoConfig(Strip(text));
  }

  /** Content is left as it is, but for space around it, unless it decodes to a text with a known scheme. */
  lemma LeftUnlessSchemeIsFound(u: Utf8, content: string)
    ensures DecodeSubscription(u, content) == Strip(content) || MentionsScheme(DecodeSubscription(u, content))
  {
  }

  /** With a line feed left inside, the text is taken for plain, and yields nothing. */
  lemma WrappedTextYieldsNothing(u: Utf8, text: string)
    requires '\n' in Strip(text) && ':' !in text
    ensures Parse(u, text) == []
  {
    var i, j := StripIsPiece(text);
    NoColonNoConfig(Strip(text));
  }
}
