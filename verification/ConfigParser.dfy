/**
 Parsing of subscription content, and the public endpoint's encoding that
 parsing must undo. The character encoding is a parameter: any pair in which
 decoding undoes encoding.
 */
module ConfigParser {
  import opened Collections
  import opened Subscriptions
  import opened Text
  import opened Base64

  datatype Utf8 = Utf8(encode: string -> seq<Byte>, decode: seq<Byte> -> Option<string>)

  ghost predicate Inverse(u: Utf8) {
    forall s :: u.decode(u.encode(s)) == Some(s)
  }

  // ------------------------------------------------------------------
  // Recognising proxy URIs
  // ------------------------------------------------------------------

  /** Every URI scheme recognised, aliases included. */
  const SCHEMES := ["vless", "vmess", "trojan", "ss", "hysteria", "hysteria2", "tuic", "hy2"]

  predicate IsValidProxyUri(uri: string) {
    var n := Find(uri, "://");
    n < |uri| && LowerCase(uri[..n]) in SCHEMES
  }

  /** Some known scheme, in lower case, is followed by its separator somewhere in the text. */
  predicate MentionsScheme(s: string) {
    exists i :: 0 <= i < |SCHEMES| && Contains(s, SCHEMES[i] + "://")
  }

  // ------------------------------------------------------------------
  // Decoding and parsing
  // ------------------------------------------------------------------

  function NotSpace(): char -> bool {
    (c: char) => !IsSpace(c)
  }

  function Compact(s: string): string {
    Select(s, NotSpace())
  }

  function Signs(n: nat): (signs: string)
    ensures |signs| == n
  {
    if n == 0 then "" else "=" + Signs(n - 1)
  }

  function Pad(s: string): string {
    s + Signs((4 - |s| % 4) % 4)
  }

  function DecodeSubscription(u: Utf8, content: string): string {
    var c := Strip(content);
    if Contains(c, "://") || '\n' in c then c
    else
      var bytes := Decode(Pad(Compact(c)));
      if bytes.None? then c
      else
        var decoded := u.decode(bytes.value);
        if decoded.Some? && MentionsScheme(decoded.value) then decoded.value else c
  }

  /** Blank lines, comment lines and anything but a proxy URI are skipped. */
  predicate IsConfigLine(line: string) {
    line != "" && line[0] != '#' && IsValidProxyUri(line)
  }

  /** The stripped lines that pass `keep`. */
  function KeptLines(lines: seq<string>, keep: string -> bool): seq<string> {
    if lines == [] then []
    else if keep(Strip(lines[0])) then [Strip(lines[0])] + KeptLines(lines[1..], keep)
    else KeptLines(lines[1..], keep)
  }

  function ConfigLines(lines: seq<string>): seq<string> {
    KeptLines(lines, IsConfigLine)
  }

  function Parse(u: Utf8, content: string): seq<string> {
    ConfigLines(SplitLines(DecodeSubscription(u, content)))
  }

  lemma KeptStep(kept: seq<string>, lines: seq<string>, i: nat, line: string, keep: string -> bool)
    requires i < |lines| && line == Strip(lines[i])
    ensures kept + KeptLines(lines[i..], keep) ==
            (if keep(line) then kept + [line] else kept) + KeptLines(lines[i + 1..], keep)
  {
    assert lines[i..][0] == lines[i] && lines[i..][1..] == lines[i + 1..];
    if keep(line) {
      assert KeptLines(lines[i..], keep) == [line] + KeptLines(lines[i + 1..], keep);
    }
  }

  method CollectLines(lines: seq<string>, keep: string -> bool) returns (kept: seq<string>)
    ensures kept == KeptLines(lines, keep)
  {
    kept := [];
    assert lines[0..] == lines;
    for i := 0 to |lines|
      invariant kept + KeptLines(lines[i..], keep) == KeptLines(lines, keep)
    {
      var line := Strip(lines[i]);
      KeptStep(kept, lines, i, line, keep);
      if keep(line) {
        kept := kept + [line];
      }
    }
  }

  method ParseSubscriptionContent(u: Utf8, content: string) returns (configs: seq<string>)
    ensures configs == Parse(u, content)
  {
    configs := CollectLines(SplitLines(DecodeSubscription(u, content)), IsConfigLine);
  }

  // ------------------------------------------------------------------
  // The public endpoint
  // ------------------------------------------------------------------

  function NonEmpty(configs: seq<string>): seq<string> {
    if configs == [] then [] else (if configs[0] != "" then [configs[0]] else []) + NonEmpty(configs[1..])
  }

  function PublicText(u: Utf8, configs: seq<string>): string {
    Encode(u.encode(JoinLines(NonEmpty(configs))))
  }

  // ------------------------------------------------------------------
  // Round trip
  // ------------------------------------------------------------------

  /** A config as the resolver emits it: stripped, on one line, a recognised URI. */
  ghost predicate CleanConfig(s: string) {
    Stripped(s) && BreakFree(s) && IsValidProxyUri(s)
  }

  ghost predicate AllBase64(s: string) {
    forall c :: c in s ==> IsBase64Char(c)
  }

  lemma Base64CharsAreNoSpace(c: char)
    requires IsBase64Char(c)
    ensures !IsSpace(c) && c != ':' && c != '\n'
  {
  }

  lemma Base64TextIsCompact(s: string)
    requires AllBase64(s)
    ensures Compact(s) == s
  {
    forall c | c in s
      ensures NotSpace()(c)
    {
      Base64CharsAreNoSpace(c);
    }
    SelectAll(s, NotSpace());
  }

  lemma SeparatorHasColon(s: string, i: nat)
    requires At(s, i, "://")
    ensures ':' in s
  {
    assert s[i..i + 3][0] == ':';
  }

  lemma Base64TextIsPlain(s: string)
    requires AllBase64(s)
    ensures Strip(s) == s && Compact(s) == s && BreakFree(s)
    ensures !Contains(s, "://") && '\n' !in s && ':' !in s
  {
    Base64TextIsCompact(s);
    forall i | 0 <= i < |s|
      ensures !IsSpace(s[i]) && s[i] != ':' && s[i] != '\n' && !IsLineBreak(s[i])
    {
      assert s[i] in s;
      Base64CharsAreNoSpace(s[i]);
    }
    StrippedNeedsNoStrip(s);
    forall i | 0 <= i <= |s|
      ensures !At(s, i, "://")
    {
      if At(s, i, "://") {
        SeparatorHasColon(s, i);
      }
    }
  }

  /** Taking up to two padding signs off an encoding, padding restores them. */
  lemma PaddingIsRestored(t: string, text: string, r: nat)
    requires |text| % 4 == 0 && r <= 2 && t + Signs(r) == text
    ensures Pad(t) == text
  {
    assert (4 - |t| % 4) % 4 == r;
  }

  /** What the parser makes of the endpoint's text, with any padding left out. */
  lemma DecodedPublicText(u: Utf8, configs: seq<string>, t: string, r: nat)
    requires Inverse(u) && r <= 2 && t + Signs(r) == PublicText(u, configs)
    ensures var joined := JoinLines(NonEmpty(configs));
            DecodeSubscription(u, t) == if MentionsScheme(joined) then joined else t
    ensures AllBase64(t)
  {
    var joined := JoinLines(NonEmpty(configs));
    var bytes, text := u.encode(joined), PublicText(u, configs);
    EncodedShape(bytes);
    assert AllBase64(t) by {
      forall c | c in t
        ensures IsBase64Char(c)
      {
        assert c in t + Signs(r);
      }
    }
    Base64TextIsPlain(t);
    PaddingIsRestored(t, text, r);
    DecodeUndoesEncode(bytes);
  }

  lemma {:induction false} CleanConfigsKept(configs: seq<string>)
    requires forall c :: c in configs ==> CleanConfig(c)
    ensures NonEmpty(configs) == configs && ConfigLines(configs) == configs
  {
    if configs != [] {
      var c := configs[0];
      assert c in configs;
      assert forall x :: x in configs[1..] ==> x in configs;
      CleanConfigsKept(configs[1..]);
      CleanConfigIsLine(c);
      assert configs == [c] + configs[1..];
    }
  }

  lemma CleanConfigIsLine(c: string)
    requires CleanConfig(c)
    ensures Strip(c) == c && IsConfigLine(c)
  {
    StrippedNeedsNoStrip(c);
    var n := Find(c, "://");
    if c[0] == '#' {
      SchemeHasNoHash(c, n);
    }
  }

  lemma SchemeHasNoHash(c: string, n: nat)
    requires n < |c| && LowerCase(c[..n]) in SCHEMES
    ensures c[0] != '#'
  {
    if n > 0 {
      assert LowerCase(c[..n])[0] == Lower(c[0]);
    }
  }

  /**
   Parsing the endpoint's text, padded or not, gives the configs back exactly
   when there are none or some known scheme stands in lower case in the text.
   */
  lemma ParseUndoesPublicTextExactlyWhen(u: Utf8, configs: seq<string>, t: string, r: nat)
    requires Inverse(u) && r <= 2 && t + Signs(r) == PublicText(u, configs)
    requires forall c :: c in configs ==> CleanConfig(c)
    ensures Parse(u, t) == configs <==> configs == [] || MentionsScheme(JoinLines(configs))
  {
    DecodedPublicText(u, configs, t, r);
    CleanConfigsKept(configs);
    if MentionsScheme(JoinLines(configs)) {
      forall c | c in configs
        ensures c != "" && BreakFree(c)
      {
        assert CleanConfig(c);
      }
      SplitUndoesJoin(configs);
    } else {
      Base64TextIsPlain(t);
      PlainTextHasNoConfig(t);
    }
  }

  lemma PlainTextHasNoConfig(t: string)
    requires BreakFree(t) && Strip(t) == t && ':' !in t
    ensures ConfigLines(SplitLines(t)) == []
  {
    if t != "" {
      SingleLine(t);
      NoSeparator(t);
      assert !IsConfigLine(t);
      assert KeptLines([t], IsConfigLine) == KeptLines([t][1..], IsConfigLine);
      assert [t][1..] == [];
    }
  }

  lemma {:induction false} NoSeparator(t: string)
    requires ':' !in t
    ensures Find(t, "://") == |t|
  {
    if t != "" {
      if At(t, 0, "://") {
        SeparatorHasColon(t, 0);
      }
      NoSeparator(t[1..]);
    }
  }

  lemma PartOfPiece(s: string, i: nat, j: nat, n: nat, part: string)
    requires i <= j <= |s| && At(s[i..j], n, part)
    ensures Contains(s, part)
  {
    SliceOfSlice(s, i, j, n, n + |part|);
    assert At(s, i + n, part);
  }

  /** One config written with a lower-case scheme is enough. */
  lemma LowerCaseSchemeSuffices(u: Utf8, configs: seq<string>, t: string, r: nat, k: nat, scheme: string)
    requires Inverse(u) && r <= 2 && t + Signs(r) == PublicText(u, configs)
    requires forall c :: c in configs ==> CleanConfig(c)
    requires k < |configs| && scheme in SCHEMES && At(configs[k], 0, scheme + "://")
    ensures Parse(u, t) == configs
  {
    var at := LineInJoin(configs, k);
    PartOfPiece(JoinLines(configs), at, at + |configs[k]|, 0, scheme + "://");
    ParseUndoesPublicTextExactlyWhen(u, configs, t, r);
  }

  lemma {:induction false} LineInJoin(lines: seq<string>, k: nat) returns (at: nat)
    requires k < |lines|
    ensures at + |lines[k]| <= |JoinLines(lines)| && JoinLines(lines)[at..at + |lines[k]|] == lines[k]
  {
    if k == 0 {
      at := 0;
    } else {
      var inner := LineInJoin(lines[1..], k - 1);
      at := |lines[0]| + 1 + inner;
      assert JoinLines(lines)[|lines[0]| + 1..] == JoinLines(lines[1..]);
      assert JoinLines(lines)[at..at + |lines[k]|] == JoinLines(lines[1..])[inner..inner + |lines[k]|];
    }
  }
}
