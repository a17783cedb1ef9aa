/**
 Sort values as texts in cursors: numbers the index client decodes to floating point, which fmt.Sprint prints with an
 exponent from a million on, and the score and id of the search by relevance.
 */
module SortValueText {
  import opened GoText
  import opened OffsetFormat
  import opened SearchChain
  import opened Sessions
  import opened TelegramListing
  import Base64
  import DecimalText
  import UuidText

  const EXPONENT: Byte := 101
  const PLUS: Byte := 43
  const POINT: Byte := 46

  /**
   Below this every integer is a float64 of its own, and its digits without trailing zeros are the shortest that tell it
   apart.
   */
  const EXACT_LIMIT := 0x20_0000_0000_0000

  /** Digits without their trailing zeros. */
  function Significant(s: Text): (d: Text)
    ensures s != [] ==> d != []
  {
    if |s| > 1 && s[|s| - 1] == ZERO then Significant(s[..|s| - 1]) else s
  }

  /** One digit before the point, if more than one there is, and an exponent of two digits. */
  function Scientific(digits: Text, exponent: nat): Text
    requires digits != [] && exponent < 100
  {
    (if |digits| == 1 then digits else [digits[0], POINT] + digits[1..])
    + [EXPONENT, PLUS, ZERO + exponent / 10, ZERO + exponent % 10]
  }

  /**
   How a natural number held as float64 is printed: with an exponent if it has more digits than are written in full.
   */
  function Magnitude(n: nat, full: nat): Text {
    var digits := DecimalText.Format(n);
    DecimalText.FormatReadsBack(n);
    if |digits| <= full || |digits| > 100 then digits else Scientific(Significant(digits), |digits| - 1)
  }

  function FloatText(v: int, full: nat): Text {
    if v < 0 then [HYPHEN] + Magnitude(-v, full) else Magnitude(v, full)
  }

  predicate HasExponent(t: Text) {
    |t| >= 5 && t[|t| - 4] == EXPONENT && DecimalText.IsDigit(t[|t| - 2]) && DecimalText.IsDigit(t[|t| - 1])
  }

  /** The number such a text denotes; 0 if it denotes no natural number. */
  function ReadMagnitude(t: Text): nat {
    if HasExponent(t) then
      var mantissa := t[..|t| - 4];
      var fraction := if |mantissa| <= 2 then [] else mantissa[2..];
      var exponent := (t[|t| - 2] - ZERO) * 10 + (t[|t| - 1] - ZERO);
      if DecimalText.AllDigits([t[0]] + fraction) && |fraction| <= exponent
      then DecimalText.Value([t[0]] + fraction) * DecimalText.PowerOfTen(exponent - |fraction|) else 0
    else if DecimalText.AllDigits(t) then DecimalText.Value(t)
    else 0
  }

  function ReadFloat(t: Text): int {
    if t != [] && t[0] == HYPHEN then 0 - ReadMagnitude(t[1..]) else ReadMagnitude(t)
  }

  /**
   Creation times as the client decodes and prints them, with so many digits written in full; fmt.Sprint writes six.
   */
  function FloatKeys(full: nat): KeyText {
    KeyText(rank => [FloatText(-rank, full)], key => if key == [] then 0 else -ReadFloat(key[0]))
  }

  lemma {:induction false} SignificantDigits(s: Text)
    requires s != [] && DecimalText.AllDigits(s)
    ensures var d := Significant(s);
            && d != [] && |d| <= |s| && DecimalText.AllDigits(d)
            && DecimalText.Value(s) == DecimalText.Value(d) * DecimalText.PowerOfTen(|s| - |d|)
  {
    if |s| > 1 && s[|s| - 1] == ZERO {
      SignificantDigits(s[..|s| - 1]);
    }
  }

  lemma ScientificReadsBack(digits: Text, exponent: nat)
    requires digits != [] && DecimalText.AllDigits(digits) && |digits| <= exponent + 1 <= 100
    ensures ReadMagnitude(Scientific(digits, exponent))
         == DecimalText.Value(digits) * DecimalText.PowerOfTen(exponent + 1 - |digits|)
    ensures HasExponent(Scientific(digits, exponent)) && |Scientific(digits, exponent)| <= |digits| + 5
    ensures DecimalText.IsDigit(Scientific(digits, exponent)[0])
  {
    var t := Scientific(digits, exponent);
    var mantissa := t[..|t| - 4];
    var fraction := if |mantissa| <= 2 then [] else mantissa[2..];
    assert mantissa == if |digits| == 1 then digits else [digits[0], POINT] + digits[1..];
    assert fraction == digits[1..];
    assert [t[0]] + fraction == digits;
  }

  lemma SixteenDigits(n: nat)
    requires n <= EXACT_LIMIT
    ensures |DecimalText.Format(n)| <= 16
  {
    assert DecimalText.PowerOfTen(4) == 10000;
    assert DecimalText.PowerOfTen(8) == 100000000;
    assert DecimalText.PowerOfTen(12) == 1000000000000;
    DecimalText.FormatLength(n, 16);
  }

  lemma MagnitudeReadsBack(n: nat, full: nat)
    requires n <= EXACT_LIMIT
    ensures ReadMagnitude(Magnitude(n, full)) == n && 1 <= |Magnitude(n, full)| <= 21
    ensures DecimalText.IsDigit(Magnitude(n, full)[0])
    ensures DecimalText.AllDigits(Magnitude(n, full)) ==> Magnitude(n, full) == DecimalText.Format(n)
  {
    var digits := DecimalText.Format(n);
    DecimalText.FormatReadsBack(n);
    SixteenDigits(n);
    if |digits| > full {
      SignificantDigits(digits);
      ScientificReadsBack(Significant(digits), |digits| - 1);
      var t := Magnitude(n, full);
      assert !DecimalText.IsDigit(t[|t| - 4]);
    }
  }

  lemma FloatTextReadsBack(v: int, full: nat)
    requires -EXACT_LIMIT <= v <= EXACT_LIMIT
    ensures ReadFloat(FloatText(v, full)) == v
    ensures Canonical(FloatText(v, full)) == FloatText(v, full) && 1 <= |FloatText(v, full)| <= 22
  {
    hide Magnitude, ReadMagnitude;
    var n := if v < 0 then -v else v;
    MagnitudeReadsBack(n, full);
    var t := FloatText(v, full);
    assert UuidText.Parse(t) == None;
    if v < 0 {
      assert t[1..] == Magnitude(n, full);
      assert !DecimalText.IsDigit(t[0]);
    } else if DecimalText.AllDigits(t) {
      DecimalText.FormatReadsBack(n);
    }
  }

  /** Tokens of cursors of one short text stay within Telegram's 64 bytes. */
  lemma ShortKeyToken(t: Text)
    requires 1 <= |t| <= 30
    ensures |Token(Some(PaginationOffset(ALL_SEARCHER, [t])))| <= 64
  {
    NamesAreDistinct();
    assert ListBytes([t]) == ElementBytes(Classify(t)) + [];
    TokenSize(PaginationOffset(ALL_SEARCHER, [t]));
  }

  /**
   However many digits are written in full, creation times up to 2^53 printed this way survive the token, unchanged and
   within 64 bytes.
   */
  lemma FloatKeysTravel(created: int, full: nat)
    requires -EXACT_LIMIT <= created <= EXACT_LIMIT
    ensures KeyTravels(FloatKeys(full), ALL_SEARCHER, -created)
    ensures var p := PaginationOffset(ALL_SEARCHER, FloatKeys(full).write(-created));
            Offset(Token(Some(p))) == Some(p) && |Token(Some(p))| <= 64
  {
    var t := FloatText(created, full);
    FloatTextReadsBack(created, full);
    ShortKeyToken(t);
    NamesAreDistinct();
    hide FloatText, ReadFloat, Canonical;
    var p := PaginationOffset(ALL_SEARCHER, [t]);
    assert FloatKeys(full).write(-created) == [t];
    assert CanonicalAll([t]) == [t];
    assert Fits(p);
    TokenRoundTrip(p);
  }

  // ------------------------------------------------------------------ score and id

  /** The cursor of the search by relevance: the last hit's score and image id. */
  function ScoreCursor(score: Text, id: UuidText.Uuid): PaginationOffset {
    PaginationOffset(HYBRID_SEARCHER, [score, UuidText.Format(id)])
  }

  lemma ScoreCursorBytes(score: Text, id: UuidText.Uuid)
    ensures |OffsetBytes(ScoreCursor(score, id))| == 35 + |ElementBytes(Classify(score))|
  {
    var key := [score, UuidText.Format(id)];
    UuidText.ParseUndoesFormat(id);
    assert key[1..] == [UuidText.Format(id)];
    assert ListBytes(key[1..]) == ElementBytes(Classify(key[1])) + [];
    assert ListBytes(key) == ElementBytes(Classify(score)) + (ElementBytes(Identifier(id)) + []);
  }

  /**
   It comes back from its token as it is exactly if the score is spelled canonically and not too long for the format.
   */
  lemma ScoreCursorTravels(score: Text, id: UuidText.Uuid)
    ensures Offset(Token(Some(ScoreCursor(score, id)))) == Some(ScoreCursor(score, id))
       <==> IsCanonicalText(score) && ElementFits(score)
  {
    hide Classify, IsCanonicalText, ElementFits, Offset, Token;
    var p := ScoreCursor(score, id);
    TokenPreservesIff(p);
    IdIsCanonical(id);
    assert p.sortingAfter[0] == score && p.sortingAfter[1] == UuidText.Format(id);
  }

  lemma IdIsCanonical(id: UuidText.Uuid)
    ensures IsCanonicalText(UuidText.Format(id)) && ElementFits(UuidText.Format(id))
  {
    UuidText.FormatIsUuidText(id);
    UuidText.ParseUndoesFormat(id);
  }

  lemma TokenSize(p: PaginationOffset)
    requires p.searcher != []
    ensures |Token(Some(p))| == (|OffsetBytes(p)| + 2) / 3 * 4
  {
    Base64.EncodedShape(OffsetBytes(p));
  }

  /** Its token stays within 64 bytes exactly if the score is a small number, or a text of ten characters at most. */
  lemma ScoreTokenIsShortIff(score: Text, id: UuidText.Uuid)
    ensures |Token(Some(ScoreCursor(score, id)))| <= 64 <==>
              Classify(score).Number? || (Classify(score).Plain? && |score| <= 10)
  {
    var p := ScoreCursor(score, id);
    ScoreCursorBytes(score, id);
    TokenSize(p);
    hide Token, OffsetBytes, Classify;
  }
}
