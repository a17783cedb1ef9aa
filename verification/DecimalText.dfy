/** Unsigned decimal text as strconv reads and writes it. */
module DecimalText {
  import opened GoText

  const UINT32_LIMIT := 0x1_0000_0000

  predicate IsDigit(c: Byte) {
    48 <= c <= 57
  }

  predicate AllDigits(s: Text) {
    forall i :: 0 <= i < |s| ==> IsDigit(s[i])
  }

  /** The number a text of digits denotes; the empty text denotes 0. */
  function Value(s: Text): nat
    requires AllDigits(s)
  {
    if s == [] then 0 else Value(s[..|s| - 1]) * 10 + (s[|s| - 1] - ZERO)
  }

  /** strconv.ParseUint(s, 10, 32): digits only, leading zeros allowed, no sign, below 2^32. */
  function ParseUint32(s: Text): (r: Option<nat>)
    ensures r.Some? ==> r.value < UINT32_LIMIT
  {
    if s != [] && AllDigits(s) && Value(s) < UINT32_LIMIT then Some(Value(s)) else None
  }

  /** strconv.FormatUint(n, 10). */
  function Format(n: nat): Text {
    if n < 10 then [ZERO + n] else Format(n / 10) + [ZERO + n % 10]
  }

  lemma {:induction false} FormatReadsBack(n: nat)
    ensures |Format(n)| >= 1
    ensures AllDigits(Format(n))
    ensures Value(Format(n)) == n
  {
    if n >= 10 {
      FormatReadsBack(n / 10);
      var s := Format(n);
      assert s[..|s| - 1] == Format(n / 10);
    } else {
      assert Format(n)[..0] == [];
    }
  }

  function PowerOfTen(k: nat): nat {
    if k == 0 then 1 else 10 * PowerOfTen(k - 1)
  }

  lemma {:induction false} FormatLength(n: nat, k: nat)
    requires 1 <= k && n < PowerOfTen(k)
    ensures |Format(n)| <= k
  {
    if n >= 10 {
      FormatLength(n / 10, k - 1);
    }
  }

  /** A 32-bit number is written in at most ten digits and reads back as itself. */
  lemma Uint32RoundTrip(n: nat)
    requires n < UINT32_LIMIT
    ensures ParseUint32(Format(n)) == Some(n)
    ensures |Format(n)| <= 10
  {
    FormatReadsBack(n);
    assert PowerOfTen(3) == 1000;
    assert PowerOfTen(6) == 1000000;
    assert PowerOfTen(9) == 1000000000;
    FormatLength(n, 10);
  }

  /** The one spelling of a 32-bit number that is written: no leading zeros. */
  predicate IsNumberText(s: Text) {
    s != [] && AllDigits(s) && (|s| == 1 || s[0] != ZERO) && Value(s) < UINT32_LIMIT
  }

  lemma {:induction false} ValueWritesBack(s: Text)
    requires s != [] && AllDigits(s) && (|s| == 1 || s[0] != ZERO)
    ensures Format(Value(s)) == s
  {
    var rest := s[..|s| - 1];
    if rest == [] {
      assert Value(rest) == 0 && s == [s[0]];
    } else {
      ValueWritesBack(rest);
      assert Value(rest) == 0 ==> rest == [ZERO];
      assert s == rest + [s[|s| - 1]];
    }
  }

  lemma {:induction false} FormatHasNoLeadingZero(n: nat)
    ensures Format(n) != [] && (|Format(n)| == 1 || Format(n)[0] != ZERO)
    ensures n > 0 ==> Format(n)[0] != ZERO
  {
    if n >= 10 {
      FormatHasNoLeadingZero(n / 10);
    }
  }

  lemma NumberTextIsWritten(s: Text, n: nat)
    requires n < UINT32_LIMIT
    ensures Format(n) == s <==> IsNumberText(s) && Value(s) == n
  {
    FormatReadsBack(n);
    FormatHasNoLeadingZero(n);
    if IsNumberText(s) {
      ValueWritesBack(s);
    }
  }
}
