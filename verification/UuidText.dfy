/** The textual forms of a UUID that the UUID library reads, and the one form it writes (section 4 of RFC 9562). */
module UuidText {
  import opened GoText

  type Uuid = u: Text | |u| == 16 witness seq(16, _ => 0)

  function HexDigit(v: int): Byte
    requires 0 <= v < 16
  {
    if v < 10 then 48 + v else 97 + v - 10
  }

  /** The value of a hexadecimal digit in either case, or -1. */
  function HexValue(c: Byte): (v: int)
    ensures -1 <= v < 16
  {
    if 48 <= c <= 57 then c - 48
    else if 97 <= c <= 102 then c - 97 + 10
    else if 65 <= c <= 70 then c - 65 + 10
    else -1
  }

  /** Where the two digits of byte i start in the hyphenated form. */
  function HexAt(i: int): int {
    2 * i + (if i >= 4 then 1 else 0) + (if i >= 6 then 1 else 0)
    + (if i >= 8 then 1 else 0) + (if i >= 10 then 1 else 0)
  }

  predicate IsHyphenAt(j: int) {
    j == 8 || j == 13 || j == 18 || j == 23
  }

  predicate ReadableHyphenated(s: Text)
    requires |s| >= 36
  {
    && (forall j :: 0 <= j < 36 && IsHyphenAt(j) ==> s[j] == HYPHEN)
    && (forall i :: 0 <= i < 16 ==> HexValue(s[HexAt(i)]) >= 0 && HexValue(s[HexAt(i) + 1]) >= 0)
  }

  /** Reads the first 36 bytes; the library ignores anything after them. */
  function ParseHyphenated(s: Text): Option<Uuid>
    requires |s| >= 36
  {
    if ReadableHyphenated(s)
    then Some(seq(16, i requires 0 <= i < 16 => HexValue(s[HexAt(i)]) * 16 + HexValue(s[HexAt(i) + 1])))
    else None
  }

  predicate ReadableCompact(s: Text)
    requires |s| == 32
  {
    forall j :: 0 <= j < 32 ==> HexValue(s[j]) >= 0
  }

  function ParseCompact(s: Text): Option<Uuid>
    requires |s| == 32
  {
    if ReadableCompact(s)
    then Some(seq(16, i requires 0 <= i < 16 => HexValue(s[2 * i]) * 16 + HexValue(s[2 * i + 1])))
    else None
  }

  function LowerCase(c: Byte): Byte {
    if 65 <= c <= 90 then c + 32 else c
  }

  predicate IsUrnPrefix(s: Text) {
    |s| == 9 && forall j :: 0 <= j < 9 ==> LowerCase(s[j]) == Ascii("urn:uuid:")[j]
  }

  /** Four spellings are told apart by length; the braces of the third are skipped without being looked at. */
  function Parse(s: Text): Option<Uuid> {
    if |s| == 36 then ParseHyphenated(s)
    else if |s| == 45 then (if IsUrnPrefix(s[..9]) then ParseHyphenated(s[9..]) else None)
    else if |s| == 38 then ParseHyphenated(s[1..])
    else if |s| == 32 then ParseCompact(s)
    else None
  }

  /** Which of the 32 digits stands at position j. */
  function DigitOf(j: int): int {
    j - (if j > 8 then 1 else 0) - (if j > 13 then 1 else 0) - (if j > 18 then 1 else 0) - (if j > 23 then 1 else 0)
  }

  function FormatAt(u: Uuid, j: int): Byte
    requires 0 <= j < 36
  {
    if IsHyphenAt(j) then HYPHEN
    else
      var k := DigitOf(j);
      HexDigit(if k % 2 == 0 then u[k / 2] / 16 else u[k / 2] % 16)
  }

  function Format(u: Uuid): (s: Text)
    ensures |s| == 36
  {
    seq(36, j requires 0 <= j < 36 => FormatAt(u, j))
  }

  lemma FormatDigits(u: Uuid, i: int)
    requires 0 <= i < 16
    ensures 0 <= HexAt(i) && HexAt(i) + 1 < 36
    ensures FormatAt(u, HexAt(i)) == HexDigit(u[i] / 16)
    ensures FormatAt(u, HexAt(i) + 1) == HexDigit(u[i] % 16)
  {
  }

  /** A formatted UUID reads back as itself, for every UUID. */
  lemma ParseUndoesFormat(u: Uuid)
    ensures Parse(Format(u)) == Some(u)
  {
    var s := Format(u);
    forall i | 0 <= i < 16
      ensures HexValue(s[HexAt(i)]) == u[i] / 16 && HexValue(s[HexAt(i) + 1]) == u[i] % 16
    {
      FormatDigits(u, i);
    }
    assert ReadableHyphenated(s);
    var w := ParseHyphenated(s).value;
    assert forall i :: 0 <= i < 16 ==> w[i] == u[i];
    assert w == u;
  }

  predicate IsLowerHex(c: Byte) {
    48 <= c <= 57 || 97 <= c <= 102
  }

  /** The one spelling that is written: lower-case digits with hyphens. */
  predicate IsUuidText(s: Text) {
    |s| == 36 && forall j :: 0 <= j < 36 ==> if IsHyphenAt(j) then s[j] == HYPHEN else IsLowerHex(s[j])
  }

  lemma FormatIsUuidText(u: Uuid)
    ensures IsUuidText(Format(u))
  {
    forall j | 0 <= j < 36
      ensures if IsHyphenAt(j) then FormatAt(u, j) == HYPHEN else IsLowerHex(FormatAt(u, j))
    {
    }
  }

  lemma DigitPlaces(j: int)
    requires 0 <= j < 36 && !IsHyphenAt(j)
    ensures var k := DigitOf(j); 0 <= k < 32 && j == HexAt(k / 2) + k % 2
  {
  }

  lemma HexPlaces(i: int)
    requires 0 <= i < 16
    ensures 0 <= HexAt(i) && HexAt(i) + 1 < 36 && !IsHyphenAt(HexAt(i)) && !IsHyphenAt(HexAt(i) + 1)
  {
  }

  lemma HexRoundTrip(c: Byte)
    requires IsLowerHex(c)
    ensures 0 <= HexValue(c) < 16 && HexDigit(HexValue(c)) == c
  {
  }

  lemma UuidTextIsReadable(s: Text)
    requires IsUuidText(s)
    ensures ReadableHyphenated(s)
  {
    hide HexValue;
    forall i | 0 <= i < 16
      ensures HexValue(s[HexAt(i)]) >= 0 && HexValue(s[HexAt(i) + 1]) >= 0
    {
      HexPlaces(i);
      HexRoundTrip(s[HexAt(i)]);
      HexRoundTrip(s[HexAt(i) + 1]);
    }
  }

  /** A text in that spelling reads as the UUID that is written so. */
  lemma FormatUndoesParse(s: Text) returns (u: Uuid)
    requires IsUuidText(s)
    ensures Parse(s) == Some(u) && Format(u) == s
  {
    hide HexValue, HexDigit, HexAt, DigitOf, ReadableHyphenated;
    UuidTextIsReadable(s);
    u := ParseHyphenated(s).value;
    forall j | 0 <= j < 36
      ensures FormatAt(u, j) == s[j]
    {
      if !IsHyphenAt(j) {
        DigitWritesBack(s, u, j);
      }
    }
    assert Format(u) == s;
  }

  /** The sixteen bytes are written in order, each as two digits, the higher first, in groups of 4, 2, 2, 2 and 6. */
  lemma BytesInOrder(u: Uuid, i: nat, at: nat)
    requires i < 16
    requires at == 2 * i + if i < 4 then 0 else if i < 6 then 1 else if i < 8 then 2 else if i < 10 then 3 else 4
    ensures at < 35 && Format(u)[at] == HexDigit(u[i] / 16) && Format(u)[at + 1] == HexDigit(u[i] % 16)
  {
    hide HexDigit, FormatAt;
    FormatDigits(u, i);
    assert at == HexAt(i);
  }

  function Lowered(s: Text): (r: Text)
    ensures |r| == |s|
  {
    seq(|s|, i requires 0 <= i < |s| => LowerCase(s[i]))
  }

  lemma HexIgnoresCase(c: Byte)
    ensures HexValue(c) == HexValue(LowerCase(c)) && (HexValue(c) >= 0 ==> IsLowerHex(LowerCase(c)))
    ensures LowerCase(c) == HYPHEN ==> c == HYPHEN
  {
  }

  lemma SameDigitsReadTheSame(s: Text, t: Text)
    requires |s| == 36 == |t| && ReadableHyphenated(t)
    requires forall j :: 0 <= j < 36 ==> HexValue(s[j]) == HexValue(t[j]) && (IsHyphenAt(j) ==> s[j] == HYPHEN)
    ensures ReadableHyphenated(s) && ParseHyphenated(s) == ParseHyphenated(t)
  {
    hide HexValue, HexAt;
    forall i | 0 <= i < 16
      ensures 0 <= HexAt(i) < 35
      ensures HexValue(s[HexAt(i)]) == HexValue(t[HexAt(i)]) && HexValue(s[HexAt(i) + 1]) == HexValue(t[HexAt(i) + 1])
    {
      HexPlaces(i);
    }
    assert ReadableHyphenated(s);
    var u, v := ParseHyphenated(s).value, ParseHyphenated(t).value;
    assert forall i :: 0 <= i < 16 ==> u[i] == v[i];
    assert u == v;
  }

  /** Capitals, or a mixture, read as the UUID that is written in lower case. */
  lemma CapitalsReadTheSame(s: Text) returns (u: Uuid)
    requires IsUuidText(Lowered(s))
    ensures Parse(s) == Some(u) && Format(u) == Lowered(s)
  {
    hide HexValue, HexAt, ReadableHyphenated, ParseHyphenated, Format;
    var low := Lowered(s);
    u := FormatUndoesParse(low);
    UuidTextIsReadable(low);
    forall j | 0 <= j < 36
      ensures HexValue(s[j]) == HexValue(low[j]) && (IsHyphenAt(j) ==> s[j] == HYPHEN)
    {
      HexIgnoresCase(s[j]);
    }
    SameDigitsReadTheSame(s, low);
  }

  /** Thirty-two digits without hyphens, in either case, read as the UUID that is written with the same digits. */
  lemma CompactReadsTheSame(s: Text) returns (u: Uuid)
    requires |s| == 32 && forall j :: 0 <= j < 32 ==> IsLowerHex(LowerCase(s[j]))
    ensures Parse(s) == Some(u)
    ensures forall i :: 0 <= i < 16 ==>
              && 0 <= HexAt(i) < 35
              && Format(u)[HexAt(i)] == LowerCase(s[2 * i]) && Format(u)[HexAt(i) + 1] == LowerCase(s[2 * i + 1])
  {
    hide HexValue, HexDigit, HexAt, FormatAt;
    forall j | 0 <= j < 32
      ensures 0 <= HexValue(s[j]) < 16 && HexDigit(HexValue(s[j])) == LowerCase(s[j])
    {
      HexIgnoresCase(s[j]);
      HexRoundTrip(LowerCase(s[j]));
    }
    u := ParseCompact(s).value;
    forall i | 0 <= i < 16
      ensures 0 <= HexAt(i) < 35 && Format(u)[HexAt(i)] == LowerCase(s[2 * i])
           && Format(u)[HexAt(i) + 1] == LowerCase(s[2 * i + 1])
    {
      FormatDigits(u, i);
      assert u[i] == HexValue(s[2 * i]) * 16 + HexValue(s[2 * i + 1]);
    }
  }

  lemma DigitWritesBack(s: Text, u: Uuid, j: int)
    requires IsUuidText(s) && ReadableHyphenated(s) && ParseHyphenated(s) == Some(u)
    requires 0 <= j < 36 && !IsHyphenAt(j)
    ensures FormatAt(u, j) == s[j]
  {
    hide HexValue, HexDigit, HexAt;
    DigitPlaces(j);
    var i := DigitOf(j) / 2;
    HexPlaces(i);
    HexRoundTrip(s[HexAt(i)]);
    HexRoundTrip(s[HexAt(i) + 1]);
    assert u[i] == HexValue(s[HexAt(i)]) * 16 + HexValue(s[HexAt(i) + 1]);
  }
}
