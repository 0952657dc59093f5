/** Base64 as in section 4 of RFC 4648: the encoder, and the strict decoder. */
module Base64 {
  import opened Subscriptions

  type Byte = n: nat | n < 256
  type Sextet = n: nat | n < 64

  // ------------------------------------------------------------------
  // Bytes and sextets
  // ------------------------------------------------------------------

  /** The sextets of one, two or three bytes. */
  datatype Group =
    | One(a: Sextet, b: Sextet)
    | Two(a: Sextet, b: Sextet, c: Sextet)
    | Three(a: Sextet, b: Sextet, c: Sextet, d: Sextet)

  function SextetsOf(bs: seq<Byte>): Group
    requires 1 <= |bs| <= 3
  {
    if |bs| == 1 then One(bs[0] / 4, bs[0] % 4 * 16)
    else if |bs| == 2 then Two(bs[0] / 4, bs[0] % 4 * 16 + bs[1] / 16, bs[1] % 16 * 4)
    else Three(bs[0] / 4, bs[0] % 4 * 16 + bs[1] / 16, bs[1] % 16 * 4 + bs[2] / 64, bs[2] % 64)
  }

  function BytesOf(g: Group): seq<Byte> {
    match g
    case One(a, b) => [a * 4 + b / 16]
    case Two(a, b, c) => [a * 4 + b / 16, b % 16 * 16 + c / 4]
    case Three(a, b, c, d) => [a * 4 + b / 16, b % 16 * 16 + c / 4, c % 4 * 64 + d]
  }

  lemma Rejoined(x: Byte, y: Byte, z: Byte)
    ensures x / 4 * 4 + (x % 4 * 16 + y / 16) / 16 == x
    ensures (x % 4 * 16 + y / 16) % 16 * 16 + (y % 16 * 4 + z / 64) / 4 == y
    ensures (y % 16 * 4 + z / 64) % 4 * 64 + z % 64 == z
  {
  }

  lemma SextetsGiveBytes(bs: seq<Byte>)
    requires 1 <= |bs| <= 3
    ensures BytesOf(SextetsOf(bs)) == bs
  {
    var y: Byte := if |bs| > 1 then bs[1] else 0;
    var z: Byte := if |bs| > 2 then bs[2] else 0;
    Rejoined(bs[0], y, z);
    if |bs| == 1 {
      assert BytesOf(SextetsOf(bs)) == [bs[0]];
    } else if |bs| == 2 {
      assert BytesOf(SextetsOf(bs)) == [bs[0], bs[1]];
    } else {
      assert BytesOf(SextetsOf(bs)) == [bs[0], bs[1], bs[2]];
    }
  }

  // ------------------------------------------------------------------
  // Sextets and characters
  // ------------------------------------------------------------------

  function Letter(n: Sextet): char {
    if n < 26 then (n + 65) as char
    else if n < 52 then (n + 71) as char
    else if n < 62 then (n - 4) as char
    else if n == 62 then '+' else '/'
  }

  function Value(c: char): Option<Sextet> {
    if 'A' <= c <= 'Z' then Some(c as int - 65)
    else if 'a' <= c <= 'z' then Some(c as int - 71)
    else if '0' <= c <= '9' then Some(c as int + 4)
    else if c == '+' then Some(62) else if c == '/' then Some(63) else None
  }

  predicate IsBase64Char(c: char) {
    Value(c).Some? || c == '='
  }

  lemma LetterHasValue(n: Sextet)
    ensures Value(Letter(n)) == Some(n) && Letter(n) != '='
  {
  }

  /** Four characters for each group, padding signs in place of missing letters. */
  function Characters(g: Group): (s: string)
    ensures |s| == 4
  {
    match g
    case One(a, b) => [Letter(a), Letter(b), '=', '=']
    case Two(a, b, c) => [Letter(a), Letter(b), Letter(c), '=']
    case Three(a, b, c, d) => [Letter(a), Letter(b), Letter(c), Letter(d)]
  }

  function ReadGroup(s: string): Option<Group>
    requires |s| == 4
  {
    var a, b, c, d := Value(s[0]), Value(s[1]), Value(s[2]), Value(s[3]);
    if a.None? || b.None? then None
    else if s[2] == '=' && s[3] == '=' then Some(One(a.value, b.value))
    else if c.None? then None
    else if s[3] == '=' then Some(Two(a.value, b.value, c.value))
    else if d.None? then None
    else Some(Three(a.value, b.value, c.value, d.value))
  }

  lemma CharactersAreRead(g: Group)
    ensures ReadGroup(Characters(g)) == Some(g)
    ensures forall c :: c in Characters(g) ==> IsBase64Char(c)
  {
    LetterHasValue(g.a);
    LetterHasValue(g.b);
    if !g.One? {
      LetterHasValue(g.c);
    }
    if g.Three? {
      LetterHasValue(g.d);
    }
  }

  // ------------------------------------------------------------------
  // Whole texts
  // ------------------------------------------------------------------

  function Encode(bs: seq<Byte>): string {
    if bs == [] then ""
    else
      var n := if |bs| < 3 then |bs| else 3;
      Characters(SextetsOf(bs[..n])) + Encode(bs[n..])
  }

  /** Groups of four characters; only the last may be padded. */
  function Decode(s: string): Option<seq<Byte>> {
    if s == "" then Some([])
    else if |s| < 4 then None
    else
      var group := ReadGroup(s[..4]);
      if group.None? || (!group.value.Three? && |s| > 4) then None
      else
        var rest := Decode(s[4..]);
        if rest.None? then None else Some(BytesOf(group.value) + rest.value)
  }

  lemma GroupIsDecoded(g: Group, rest: string)
    requires g.Three? || rest == ""
    ensures var decoded := Decode(rest);
            Decode(Characters(g) + rest) == if decoded.None? then None else Some(BytesOf(g) + decoded.value)
  {
    var s := Characters(g) + rest;
    CharactersAreRead(g);
    assert s[..4] == Characters(g) && s[4..] == rest;
  }

  lemma {:induction false} DecodeUndoesEncode(bs: seq<Byte>)
    ensures Decode(Encode(bs)) == Some(bs)
  {
    if bs != [] {
      var n := if |bs| < 3 then |bs| else 3;
      var first, rest := bs[..n], bs[n..];
      DecodeUndoesEncode(rest);
      SextetsGiveBytes(first);
      GroupIsDecoded(SextetsOf(first), Encode(rest));
      assert bs == first + rest;
    }
  }

  ghost predicate IsBase64(s: string) {
    |s| % 4 == 0 && forall c :: c in s ==> IsBase64Char(c)
  }

  lemma JoinedBase64(s: string, t: string)
    requires IsBase64(s) && IsBase64(t)
    ensures IsBase64(s + t)
  {
    assert (|s| + |t|) % 4 == 0;
  }

  lemma {:induction false} EncodedShape(bs: seq<Byte>)
    ensures IsBase64(Encode(bs))
  {
    if bs != [] {
      var n := if |bs| < 3 then |bs| else 3;
      var g := SextetsOf(bs[..n]);
      CharactersAreRead(g);
      EncodedShape(bs[n..]);
      JoinedBase64(Characters(g), Encode(bs[n..]));
    }
  }

  /** Nothing but letters of the alphabet and padding signs is decoded. */
  lemma {:induction false} OnlyTheAlphabetIsDecoded(s: string, c: char)
    requires Decode(s).Some? && c in s
    ensures IsBase64Char(c)
  {
    if c in s[4..] {
      OnlyTheAlphabetIsDecoded(s[4..], c);
    } else {
      assert s == s[..4] + s[4..] && c in s[..4];
    }
  }

  // ------------------------------------------------------------------
  // The alphabet, and test vectors of section 10 of RFC 4648
  // ------------------------------------------------------------------

  /** Capitals, small letters, digits, `+` and `/`, each kind in its usual order. */
  lemma LettersFollowTheAlphabet(n: Sextet)
    ensures Letter(0) == 'A' && Letter(25) == 'Z' && Letter(26) == 'a' && Letter(51) == 'z'
    ensures Letter(52) == '0' && Letter(61) == '9' && Letter(62) == '+' && Letter(63) == '/'
    ensures n < 61 && n != 25 && n != 51 ==> Letter(n + 1) as int == Letter(n) as int + 1
  {
  }

  lemma GroupsOfThree(first: seq<Byte>, rest: seq<Byte>)
    requires |first| == 3
    ensures Encode(first + rest) == Characters(SextetsOf(first)) + Encode(rest)
  {
    assert (first + rest)[..3] == first && (first + rest)[3..] == rest;
  }

  lemma LastGroup(bs: seq<Byte>)
    requires 1 <= |bs| <= 3
    ensures Encode(bs) == Characters(SextetsOf(bs))
  {
    assert bs[..|bs|] == bs && bs[|bs|..] == [];
  }

  /** "f", "fo", "foo" and "bar". */
  lemma ShortVectors()
    ensures Encode([0x66]) == "Zg==" && Encode([0x66, 0x6F]) == "Zm8="
    ensures Encode([0x66, 0x6F, 0x6F]) == "Zm9v" && Encode([0x62, 0x61, 0x72]) == "YmFy"
  {
    LastGroup([0x66]);
    LastGroup([0x66, 0x6F]);
    LastGroup([0x66, 0x6F, 0x6F]);
    LastGroup([0x62, 0x61, 0x72]);
  }

  lemma TwoGroups(first: seq<Byte>, second: seq<Byte>, s: string, t: string)
    requires |first| == 3 && 1 <= |second| <= 3 && Encode(first) == s && Encode(second) == t
    ensures Encode(first + second) == s + t
  {
    LastGroup(first);
    GroupsOfThree(first, second);
  }

  /** "foobar". */
  lemma LongVector()
    ensures Encode([0x66, 0x6F, 0x6F] + [0x62, 0x61, 0x72]) == "Zm9vYmFy"
  {
    ShortVectors();
    TwoGroups([0x66, 0x6F, 0x6F], [0x62, 0x61, 0x72], "Zm9v", "YmFy");
  }
}
