/**
 Standard padded base64 (section 4 of RFC 4648) as the telegram service uses it: a strict alphabet,
 mandatory padding, CR and LF skipped on input, unused trailing bits ignored on input.
 */
module Base64 {
  import opened GoText

  function Symbol(v: int): Byte
    requires 0 <= v < 64
  {
    if v < 26 then 65 + v
    else if v < 52 then 97 + v - 26
    else if v < 62 then 48 + v - 52
    else if v == 62 then 43
    else 47
  }

  /** The six bits a symbol stands for, or -1 for a byte outside the alphabet. */
  function SymbolValue(c: Byte): (v: int)
    ensures -1 <= v < 64
  {
    if 65 <= c <= 90 then c - 65
    else if 97 <= c <= 122 then c - 97 + 26
    else if 48 <= c <= 57 then c - 48 + 52
    else if c == 43 then 62
    else if c == 47 then 63
    else -1
  }

  lemma SymbolRoundTrip(v: int)
    requires 0 <= v < 64
    ensures SymbolValue(Symbol(v)) == v
    ensures Symbol(v) !in {EQUALS, LINE_FEED, CARRIAGE_RETURN}
  {
  }

  function EncodeToString(b: Text): Text {
    if |b| == 0 then []
    else if |b| == 1 then
      [Symbol(b[0] / 4), Symbol(b[0] % 4 * 16), EQUALS, EQUALS]
    else if |b| == 2 then
      [Symbol(b[0] / 4), Symbol(b[0] % 4 * 16 + b[1] / 16), Symbol(b[1] % 16 * 4), EQUALS]
    else
      [Symbol(b[0] / 4), Symbol(b[0] % 4 * 16 + b[1] / 16),
       Symbol(b[1] % 16 * 4 + b[2] / 64), Symbol(b[2] % 64)] + EncodeToString(b[3..])
  }

  /** Decodes text from which line breaks were removed; a padded group may only be the last. */
  function DecodeGroups(s: Text): Option<Text> {
    if |s| == 0 then Some([])
    else if |s| < 4 then None
    else
      var v0, v1, v2, v3 := SymbolValue(s[0]), SymbolValue(s[1]), SymbolValue(s[2]), SymbolValue(s[3]);
      if v0 < 0 || v1 < 0 then None
      else if s[2] == EQUALS then
        if s[3] == EQUALS && |s| == 4 then Some([v0 * 4 + v1 / 16]) else None
      else if v2 < 0 then None
      else if s[3] == EQUALS then
        if |s| == 4 then Some([v0 * 4 + v1 / 16, v1 % 16 * 16 + v2 / 4]) else None
      else if v3 < 0 then None
      else
        match DecodeGroups(s[4..])
        case None => None
        case Some(rest) => Some([v0 * 4 + v1 / 16, v1 % 16 * 16 + v2 / 4, v2 % 4 * 64 + v3] + rest)
  }

  function WithoutLineBreaks(s: Text): Text {
    if s == [] then []
    else if s[0] == LINE_FEED || s[0] == CARRIAGE_RETURN then WithoutLineBreaks(s[1..])
    else [s[0]] + WithoutLineBreaks(s[1..])
  }

  function DecodeString(s: Text): Option<Text> {
    DecodeGroups(WithoutLineBreaks(s))
  }

  lemma {:induction false} NothingToStrip(s: Text)
    requires forall i :: 0 <= i < |s| ==> s[i] != LINE_FEED && s[i] != CARRIAGE_RETURN
    ensures WithoutLineBreaks(s) == s
  {
    if s != [] {
      NothingToStrip(s[1..]);
    }
  }

  lemma {:induction false} EncodedShape(b: Text)
    ensures |EncodeToString(b)| == (|b| + 2) / 3 * 4
    ensures var e := EncodeToString(b); forall i :: 0 <= i < |e| ==> e[i] != LINE_FEED && e[i] != CARRIAGE_RETURN
  {
    if |b| >= 3 {
      EncodedShape(b[3..]);
    }
  }

  /** Three bytes split into four sextets and reassembled are the same three bytes. */
  lemma SextetsRejoin(x: Byte, y: Byte, z: Byte)
    ensures var v0, v1, v2, v3 := x / 4, x % 4 * 16 + y / 16, y % 16 * 4 + z / 64, z % 64;
            0 <= v0 < 64 && 0 <= v1 < 64 && 0 <= v2 < 64 && 0 <= v3 < 64 &&
            v0 * 4 + v1 / 16 == x && v1 % 16 * 16 + v2 / 4 == y && v2 % 4 * 64 + v3 == z
  {
  }

  /** What the decoder makes of one full group in front of anything it can decode. */
  lemma FullGroupDecodes(v0: int, v1: int, v2: int, v3: int, rest: Text)
    requires 0 <= v0 < 64 && 0 <= v1 < 64 && 0 <= v2 < 64 && 0 <= v3 < 64
    requires DecodeGroups(rest).Some?
    ensures DecodeGroups([Symbol(v0), Symbol(v1), Symbol(v2), Symbol(v3)] + rest)
         == Some([v0 * 4 + v1 / 16, v1 % 16 * 16 + v2 / 4, v2 % 4 * 64 + v3] + DecodeGroups(rest).value)
  {
    SymbolRoundTrip(v0);
    SymbolRoundTrip(v1);
    SymbolRoundTrip(v2);
    SymbolRoundTrip(v3);
    assert ([Symbol(v0), Symbol(v1), Symbol(v2), Symbol(v3)] + rest)[4..] == rest;
  }

  lemma PaddedGroupDecodes(v0: int, v1: int, v2: int)
    requires 0 <= v0 < 64 && 0 <= v1 < 64 && 0 <= v2 < 64
    ensures DecodeGroups([Symbol(v0), Symbol(v1), EQUALS, EQUALS]) == Some([v0 * 4 + v1 / 16])
    ensures DecodeGroups([Symbol(v0), Symbol(v1), Symbol(v2), EQUALS])
         == Some([v0 * 4 + v1 / 16, v1 % 16 * 16 + v2 / 4])
  {
    SymbolRoundTrip(v0);
    SymbolRoundTrip(v1);
    SymbolRoundTrip(v2);
  }

  lemma NothingRoundTrip()
    ensures DecodeGroups(EncodeToString([])) == Some([])
  {
  }

  lemma OneByteRoundTrip(x: Byte)
    ensures DecodeGroups(EncodeToString([x])) == Some([x])
  {
    hide Symbol, DecodeGroups;
    SextetsRejoin(x, 0, 0);
    PaddedGroupDecodes(x / 4, x % 4 * 16, 0);
  }

  lemma TwoByteRoundTrip(x: Byte, y: Byte)
    ensures DecodeGroups(EncodeToString([x, y])) == Some([x, y])
  {
    hide Symbol, DecodeGroups;
    SextetsRejoin(x, y, 0);
    PaddedGroupDecodes(x / 4, x % 4 * 16 + y / 16, y % 16 * 4);
  }

  lemma GroupRoundTrip(x: Byte, y: Byte, z: Byte, rest: Text)
    requires DecodeGroups(EncodeToString(rest)) == Some(rest)
    ensures DecodeGroups(EncodeToString([x, y, z] + rest)) == Some([x, y, z] + rest)
  {
    hide Symbol, DecodeGroups;
    var b := [x, y, z] + rest;
    assert b[0] == x && b[1] == y && b[2] == z && b[3..] == rest;
    var v0, v1, v2, v3 := x / 4, x % 4 * 16 + y / 16, y % 16 * 4 + z / 64, z % 64;
    SextetsRejoin(x, y, z);
    assert EncodeToString(b) == [Symbol(v0), Symbol(v1), Symbol(v2), Symbol(v3)] + EncodeToString(rest);
    FullGroupDecodes(v0, v1, v2, v3, EncodeToString(rest));
  }

  lemma {:induction false} GroupsRoundTrip(b: Text)
    ensures DecodeGroups(EncodeToString(b)) == Some(b)
  {
    hide EncodeToString, DecodeGroups;
    if b == [] {
      NothingRoundTrip();
    } else if |b| == 1 {
      OneByteRoundTrip(b[0]);
      assert b == [b[0]];
    } else if |b| == 2 {
      TwoByteRoundTrip(b[0], b[1]);
      assert b == [b[0], b[1]];
    } else if |b| >= 3 {
      GroupsRoundTrip(b[3..]);
      GroupRoundTrip(b[0], b[1], b[2], b[3..]);
      assert b == [b[0], b[1], b[2]] + b[3..];
    }
  }

  lemma OneGroup(x: Byte, y: Byte, z: Byte)
    ensures EncodeToString([x, y, z])
         == [Symbol(x / 4), Symbol(x % 4 * 16 + y / 16), Symbol(y % 16 * 4 + z / 64), Symbol(z % 64)]
  {
    assert [x, y, z][3..] == [];
  }

  lemma LastGroup(x: Byte, y: Byte)
    ensures EncodeToString([x]) == [Symbol(x / 4), Symbol(x % 4 * 16), EQUALS, EQUALS]
    ensures EncodeToString([x, y]) == [Symbol(x / 4), Symbol(x % 4 * 16 + y / 16), Symbol(y % 16 * 4), EQUALS]
  {
  }

  /** The alphabet, table 1 of RFC 4648: capitals, small letters, digits, plus and slash. */
  lemma Alphabet(v: int)
    requires 0 <= v < 64
    ensures v < 26 ==> Symbol(v) as char == ('A' as int + v) as char
    ensures 26 <= v < 52 ==> Symbol(v) as char == ('a' as int + v - 26) as char
    ensures 52 <= v < 62 ==> Symbol(v) as char == ('0' as int + v - 52) as char
    ensures v >= 62 ==> Symbol(v) as char == if v == 62 then '+' else '/'
  {
  }

  /** Test vectors of section 10 of RFC 4648. */
  lemma TestVectors()
    ensures EncodeToString(Ascii("f")) == Ascii("Zg==") && EncodeToString(Ascii("fo")) == Ascii("Zm8=")
    ensures EncodeToString(Ascii("foo")) == Ascii("Zm9v") && EncodeToString(Ascii("bar")) == Ascii("YmFy")
  {
    hide EncodeToString;
    assert Ascii("f") == [102] && Ascii("fo") == [102, 111];
    assert Ascii("foo") == [102, 111, 111] && Ascii("bar") == [98, 97, 114];
    LastGroup(102, 111);
    OneGroup(102, 111, 111);
    OneGroup(98, 97, 114);
  }

  /** Decoding undoes encoding, for every byte string. */
  lemma RoundTrip(b: Text)
    ensures DecodeString(EncodeToString(b)) == Some(b)
  {
    EncodedShape(b);
    NothingToStrip(EncodeToString(b));
    GroupsRoundTrip(b);
  }
}
