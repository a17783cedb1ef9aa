/**
 What a pagination token means: the byte layout written by the telegram service, the layout read back,
 and the theorems relating the two. The methods that produce and consume tokens are in OffsetCodec.
 */
module OffsetFormat {
  import opened GoText
  import Base64
  import UuidText
  import DecimalText

  datatype PaginationOffset = PaginationOffset(searcher: Text, sortingAfter: seq<Text>)

  const TYP_UINT32: Byte := 0
  const TYP_STRING: Byte := 1
  const TYP_UUID: Byte := 2

  const SHORT_LIMIT := 0x1_0000
  const BYTE_LIMIT := 0x100

  /** How a cursor element travels. */
  datatype Element = Number(n: nat) | Identifier(id: UuidText.Uuid) | Plain(text: Text)

  /** The UUID reading is tried first, then the number. */
  function Classify(v: Text): (e: Element)
    ensures e.Number? ==> e.n < DecimalText.UINT32_LIMIT
  {
    match UuidText.Parse(v)
    case Some(u) => Identifier(u)
    case None =>
      match DecimalText.ParseUint32(v)
      case Some(n) => Number(n)
      case None => Plain(v)
  }

  function Render(e: Element): Text {
    match e
    case Number(n) => DecimalText.Format(n)
    case Identifier(u) => UuidText.Format(u)
    case Plain(t) => t
  }

  /** The text an element comes back as. */
  function Canonical(v: Text): Text {
    Render(Classify(v))
  }

  function CanonicalAll(list: seq<Text>): (r: seq<Text>)
    ensures |r| == |list|
    ensures forall i :: 0 <= i < |list| ==> r[i] == Canonical(list[i])
  {
    seq(|list|, i requires 0 <= i < |list| => Canonical(list[i]))
  }

  function CanonicalOffset(p: PaginationOffset): PaginationOffset {
    PaginationOffset(p.searcher, CanonicalAll(p.sortingAfter))
  }

  // ---------------------------------------------------------------- layout

  /** Little-endian 16 and 32 bit numbers. The conversion to the field width drops the high part. */
  function ShortBytes(n: nat): (b: Text)
    ensures |b| == 2
  {
    [n % 256, n / 256 % 256]
  }

  function IntBytes(n: nat): (b: Text)
    ensures |b| == 4
  {
    [n % 256, n / 256 % 256, n / 256 / 256 % 256, n / 256 / 256 / 256 % 256]
  }

  function StrBytes(s: Text): Text {
    ShortBytes(|s|) + s
  }

  function ElementBytes(e: Element): Text {
    match e
    case Number(n) => [TYP_UINT32] + IntBytes(n)
    case Identifier(u) => [TYP_UUID] + u
    case Plain(t) => [TYP_STRING] + StrBytes(t)
  }

  function ListBytes(list: seq<Text>): Text {
    if list == [] then [] else ElementBytes(Classify(list[0])) + ListBytes(list[1..])
  }

  function OffsetBytes(p: PaginationOffset): Text {
    StrBytes(p.searcher) + [|p.sortingAfter| % BYTE_LIMIT] + ListBytes(p.sortingAfter)
  }

  /** An offset without content has the empty token, like a missing one. */
  predicate Blank(p: PaginationOffset) {
    p.searcher == [] && p.sortingAfter == []
  }

  function Token(p: Option<PaginationOffset>): Text {
    if p.None? || Blank(p.value) then [] else Base64.EncodeToString(OffsetBytes(p.value))
  }

  // ---------------------------------------------------------------- reading: each Take yields a value and the rest

  function TakeBytes(r: Text, n: nat): Option<(Text, Text)> {
    if n <= |r| then Some((r[..n], r[n..])) else None
  }

  /** The number a little-endian field denotes. */
  function FieldValue(b: Text): nat {
    if b == [] then 0 else b[0] as int + 256 * FieldValue(b[1..])
  }

  function TakeField(r: Text, width: nat): Option<(nat, Text)> {
    match TakeBytes(r, width)
    case None => None
    case Some((field, rest)) => Some((FieldValue(field), rest))
  }

  function TakeStr(r: Text): Option<(Text, Text)> {
    match TakeField(r, 2)
    case None => None
    case Some((n, rest)) => TakeBytes(rest, n)
  }

  function TakeElement(r: Text): Option<(Text, Text)> {
    if r == [] then None
    else if r[0] == TYP_STRING then TakeStr(r[1..])
    else if r[0] == TYP_UUID then
      match TakeBytes(r[1..], 16)
      case None => None
      case Some((u, rest)) => Some((UuidText.Format(u), rest))
    else if r[0] == TYP_UINT32 then
      match TakeField(r[1..], 4)
      case None => None
      case Some((n, rest)) => Some((DecimalText.Format(n), rest))
    else None
  }

  function TakeList(r: Text, n: nat): Option<(seq<Text>, Text)> {
    if n == 0 then Some(([], r))
    else
      match TakeElement(r)
      case None => None
      case Some((v, rest)) =>
        match TakeList(rest, n - 1)
        case None => None
        case Some((vs, end)) => Some(([v] + vs, end))
  }

  /** Bytes after the last element are ignored. */
  function TakeOffset(r: Text): Option<PaginationOffset> {
    match TakeStr(r)
    case None => None
    case Some((searcher, rest)) =>
      if rest == [] then None
      else
        match TakeList(rest[1..], rest[0])
        case None => None
        case Some((list, _)) => Some(PaginationOffset(searcher, list))
  }

  function Offset(token: Text): Option<PaginationOffset> {
    if token == [] then None
    else
      match Base64.DecodeString(token)
      case None => None
      case Some(raw) => TakeOffset(raw)
  }

  // ---------------------------------------------------------------- canonical elements

  /** Classifying what an element renders as finds the element again. */
  lemma ClassifyUndoesRender(v: Text)
    ensures Classify(Canonical(v)) == Classify(v)
  {
    match Classify(v)
    case Identifier(u) => UuidText.ParseUndoesFormat(u);
    case Number(n) => DecimalText.Uint32RoundTrip(n);
    case Plain(t) =>
  }

  lemma CanonicalIsIdempotent(v: Text)
    ensures Canonical(Canonical(v)) == Canonical(v)
  {
    ClassifyUndoesRender(v);
  }

  /** How an element must be spelled to come back as it is. */
  predicate IsCanonicalText(v: Text) {
    || UuidText.IsUuidText(v)
    || DecimalText.IsNumberText(v)
    || (UuidText.Parse(v).None? && DecimalText.ParseUint32(v).None?)
  }

  /**
   Exactly lower-case hyphenated UUIDs, small numbers without leading zeros, and everything that is neither UUID nor
   small number.
   */
  lemma CanonicalIffSpelled(v: Text)
    ensures Canonical(v) == v <==> IsCanonicalText(v)
  {
    hide UuidText.Parse, DecimalText.Format, DecimalText.Value, UuidText.Format;
    if UuidText.IsUuidText(v) {
      var u := UuidText.FormatUndoesParse(v);
    } else if DecimalText.IsNumberText(v) {
      NumberIsNoUuid(v);
      DecimalText.NumberTextIsWritten(v, DecimalText.Value(v));
    } else {
      match Classify(v)
      case Identifier(u) => UuidText.FormatIsUuidText(u);
      case Number(n) => DecimalText.NumberTextIsWritten(v, n);
      case Plain(t) =>
    }
  }

  lemma NumberIsNoUuid(v: Text)
    requires DecimalText.IsNumberText(v)
    ensures |v| <= 10 && UuidText.Parse(v).None?
  {
    var n := DecimalText.Value(v);
    DecimalText.ValueWritesBack(v);
    DecimalText.Uint32RoundTrip(n);
  }

  // ---------------------------------------------------------------- round trip

  /** The lengths the format has room for. */
  predicate ElementFits(v: Text) {
    Classify(v).Plain? ==> |v| < SHORT_LIMIT
  }

  predicate AllFit(list: seq<Text>) {
    forall i :: 0 <= i < |list| ==> ElementFits(list[i])
  }

  predicate Fits(p: PaginationOffset) {
    |p.searcher| < SHORT_LIMIT && |p.sortingAfter| < BYTE_LIMIT && AllFit(p.sortingAfter)
  }

  lemma ShortReadsBack(n: nat, tail: Text)
    ensures TakeField(ShortBytes(n) + tail, 2) == Some((n % SHORT_LIMIT, tail))
  {
    var r := ShortBytes(n) + tail;
    assert r[..2] == ShortBytes(n) && r[2..] == tail;
    ShortFieldValue(n % 256, n / 256 % 256);
    LowBytes(n);
  }

  lemma ShortFieldValue(a: Byte, b: Byte)
    ensures FieldValue([a, b]) == a as int + 256 * b as int
  {
    assert [a, b][1..] == [b] && [b][1..] == [];
    assert FieldValue([b]) == b;
  }

  lemma LowBytes(n: nat)
    ensures n % 256 + 256 * (n / 256 % 256) == n % SHORT_LIMIT
  {
  }

  lemma IntFieldValue(a: Byte, b: Byte, c: Byte, d: Byte)
    ensures FieldValue([a, b, c, d]) == a as int + 256 * (b as int + 256 * (c as int + 256 * d as int))
  {
    assert [a, b, c, d][1..] == [b, c, d];
    assert [b, c, d][1..] == [c, d];
    assert [c, d][1..] == [d];
    assert [d][1..] == [];
    assert FieldValue([d]) == d;
    assert FieldValue([c, d]) == c as int + 256 * d as int;
    assert FieldValue([b, c, d]) == b as int + 256 * (c as int + 256 * d as int);
  }

  lemma IntReadsBack(n: nat, tail: Text)
    requires n < DecimalText.UINT32_LIMIT
    ensures TakeField(IntBytes(n) + tail, 4) == Some((n, tail))
  {
    var r := IntBytes(n) + tail;
    assert r[..4] == IntBytes(n) && r[4..] == tail;
    var n1 := n / 256;
    var n2 := n1 / 256;
    IntFieldValue(n % 256, n1 % 256, n2 % 256, n2 / 256 % 256);
  }

  /** Reading a written string, whatever its length: a string too long for its length field loses its tail. */
  lemma StrReadsBack(s: Text, tail: Text)
    ensures TakeStr(StrBytes(s) + tail) == Some(((s + tail)[..|s| % SHORT_LIMIT], (s + tail)[|s| % SHORT_LIMIT..]))
  {
    assert StrBytes(s) + tail == ShortBytes(|s|) + (s + tail);
    ShortReadsBack(|s|, s + tail);
  }

  lemma ShortStrReadsBack(s: Text, tail: Text)
    requires |s| < SHORT_LIMIT
    ensures TakeStr(StrBytes(s) + tail) == Some((s, tail))
  {
    hide TakeStr, StrBytes;
    StrReadsBack(s, tail);
    assert (s + tail)[..|s|] == s;
    assert (s + tail)[|s|..] == tail;
  }

  lemma ElementReadsBack(v: Text, tail: Text)
    requires ElementFits(v)
    ensures TakeElement(ElementBytes(Classify(v)) + tail) == Some((Canonical(v), tail))
  {
    var e := Classify(v);
    var r := ElementBytes(e) + tail;
    match e
    case Number(n) =>
      assert r[1..] == IntBytes(n) + tail;
      IntReadsBack(n, tail);
    case Identifier(u) =>
      assert r[1..] == u + tail;
      assert (u + tail)[..16] == u;
      assert (u + tail)[16..] == tail;
    case Plain(t) =>
      assert r[1..] == StrBytes(t) + tail;
      ShortStrReadsBack(t, tail);
  }

  lemma {:induction false} ListReadsBack(list: seq<Text>, tail: Text)
    requires AllFit(list)
    ensures TakeList(ListBytes(list) + tail, |list|) == Some((CanonicalAll(list), tail))
  {
    hide ElementFits, ElementBytes, Classify, TakeElement, Canonical;
    if list == [] {
      assert ListBytes(list) + tail == tail;
    } else {
      var rest := ListBytes(list[1..]) + tail;
      assert ListBytes(list) + tail == ElementBytes(Classify(list[0])) + rest;
      ElementReadsBack(list[0], rest);
      ListReadsBack(list[1..], tail);
      assert CanonicalAll(list) == [Canonical(list[0])] + CanonicalAll(list[1..]);
    }
  }

  lemma ElementReadsBackOnlyIfFits(v: Text, tail: Text)
    requires TakeElement(ElementBytes(Classify(v)) + tail).Some?
    requires TakeElement(ElementBytes(Classify(v)) + tail).value.0 == Canonical(v)
    ensures ElementFits(v)
  {
    hide UuidText.Parse, DecimalText.ParseUint32, DecimalText.Format, UuidText.Format, TakeStr, StrBytes;
    if Classify(v).Plain? {
      assert (ElementBytes(Classify(v)) + tail)[1..] == StrBytes(v) + tail;
      StrReadsBack(v, tail);
    }
  }

  lemma TakeListStep(r: Text, n: nat)
    requires TakeList(r, n).Some? && n > 0
    ensures TakeElement(r).Some? && TakeList(TakeElement(r).value.1, n - 1).Some?
    ensures TakeList(r, n).value.0 == [TakeElement(r).value.0] + TakeList(TakeElement(r).value.1, n - 1).value.0
  {
  }

  predicate ReadsBack(list: seq<Text>, r: Text) {
    TakeList(r, |list|).Some? && TakeList(r, |list|).value.0 == CanonicalAll(list)
  }

  lemma FirstReadsBack(v: Text, list: seq<Text>, tail: Text)
    requires ReadsBack([v] + list, ElementBytes(Classify(v)) + tail)
    ensures ElementFits(v) && ReadsBack(list, tail)
  {
    var all, r := [v] + list, ElementBytes(Classify(v)) + tail;
    TakeListStep(r, |all|);
    assert CanonicalAll(all)[0] == Canonical(v);
    assert CanonicalAll(all)[1..] == CanonicalAll(list);
    ElementReadsBackOnlyIfFits(v, tail);
    ElementReadsBack(v, tail);
  }

  /** A list that comes back canonicalised had only elements that fit. */
  lemma {:induction false} ListReadsBackOnlyIfFit(list: seq<Text>, tail: Text)
    requires ReadsBack(list, ListBytes(list) + tail)
    ensures AllFit(list)
  {
    hide ElementFits, ReadsBack, ElementBytes, Classify;
    if list != [] {
      assert ListBytes(list) + tail == ElementBytes(Classify(list[0])) + (ListBytes(list[1..]) + tail);
      assert list == [list[0]] + list[1..];
      FirstReadsBack(list[0], list[1..], ListBytes(list[1..]) + tail);
      ListReadsBackOnlyIfFit(list[1..], tail);
      forall i | 0 <= i < |list|
        ensures ElementFits(list[i])
      {
        assert i > 0 ==> list[i] == list[1..][i - 1];
      }
    }
  }

  /** Where the three parts of a written offset are found again. */
  lemma OffsetParts(p: PaginationOffset)
    requires |p.searcher| < SHORT_LIMIT
    ensures TakeStr(OffsetBytes(p)) == Some((p.searcher, [|p.sortingAfter| % BYTE_LIMIT] + ListBytes(p.sortingAfter)))
    ensures ([|p.sortingAfter| % BYTE_LIMIT] + ListBytes(p.sortingAfter))[1..] == ListBytes(p.sortingAfter) + []
  {
    var rest := [|p.sortingAfter| % BYTE_LIMIT] + ListBytes(p.sortingAfter);
    assert OffsetBytes(p) == StrBytes(p.searcher) + rest;
    ShortStrReadsBack(p.searcher, rest);
  }

  lemma OffsetReadsBack(p: PaginationOffset)
    requires Fits(p)
    ensures TakeOffset(OffsetBytes(p)) == Some(CanonicalOffset(p))
  {
    hide ListBytes, TakeList, CanonicalAll;
    OffsetParts(p);
    ListReadsBack(p.sortingAfter, []);
    var tail := [|p.sortingAfter| % BYTE_LIMIT] + ListBytes(p.sortingAfter);
    assert tail[0] == |p.sortingAfter|;
    assert TakeList(tail[1..], tail[0]) == Some((CanonicalAll(p.sortingAfter), []));
  }

  lemma {:induction false} TakeListLength(r: Text, n: nat)
    ensures TakeList(r, n).Some? ==> |TakeList(r, n).value.0| == n
    decreases n
  {
    if n > 0 && TakeElement(r).Some? {
      TakeListLength(TakeElement(r).value.1, n - 1);
    }
  }

  lemma OffsetReadsBackOnlyIfFits(p: PaginationOffset)
    requires TakeOffset(OffsetBytes(p)) == Some(CanonicalOffset(p))
    ensures Fits(p)
  {
    hide ListBytes, TakeList, AllFit, Canonical;
    var tail := [|p.sortingAfter| % BYTE_LIMIT] + ListBytes(p.sortingAfter);
    assert OffsetBytes(p) == StrBytes(p.searcher) + tail;
    StrReadsBack(p.searcher, tail);
    assert |p.searcher| < SHORT_LIMIT;
    OffsetParts(p);
    TakeListLength(tail[1..], tail[0]);
    ListReadsBackOnlyIfFit(p.sortingAfter, []);
  }

  lemma TokenIsNotEmpty(p: PaginationOffset)
    requires !Blank(p)
    ensures Token(Some(p)) != []
  {
    Base64.EncodedShape(OffsetBytes(p));
  }

  /**
   Parsing the token of an offset gives the offset back with every element in canonical form exactly when the offset
   is not blank and its lengths fit the fields of the format.
   */
  lemma TokenRoundTrip(p: PaginationOffset)
    ensures Offset(Token(Some(p))) == Some(CanonicalOffset(p)) <==>
              (p.searcher != [] || p.sortingAfter != []) && Fits(p)
  {
    if !Blank(p) {
      TokenIsNotEmpty(p);
      Base64.RoundTrip(OffsetBytes(p));
      assert Offset(Token(Some(p))) == TakeOffset(OffsetBytes(p));
      if Fits(p) {
        OffsetReadsBack(p);
      }
      if TakeOffset(OffsetBytes(p)) == Some(CanonicalOffset(p)) {
        OffsetReadsBackOnlyIfFits(p);
      }
    }
  }

  lemma {:induction false} CanonicalListBytes(list: seq<Text>)
    ensures ListBytes(CanonicalAll(list)) == ListBytes(list)
  {
    if list != [] {
      ClassifyUndoesRender(list[0]);
      CanonicalListBytes(list[1..]);
      assert CanonicalAll(list)[1..] == CanonicalAll(list[1..]);
    }
  }

  /** Canonicalising changes neither the token nor, done twice, the offset. No length limit is needed. */
  lemma CanonicalOffsetSameToken(p: PaginationOffset)
    ensures Token(Some(CanonicalOffset(p))) == Token(Some(p))
    ensures CanonicalOffset(CanonicalOffset(p)) == CanonicalOffset(p)
  {
    CanonicalListBytes(p.sortingAfter);
    forall i | 0 <= i < |p.sortingAfter|
      ensures Canonical(Canonical(p.sortingAfter[i])) == Canonical(p.sortingAfter[i])
    {
      CanonicalIsIdempotent(p.sortingAfter[i]);
    }
    var once := CanonicalAll(p.sortingAfter);
    assert CanonicalAll(once) == once;
  }

  /** Re-serializing what was parsed gives the token back; tokens are equal exactly for equal canonical offsets. */
  lemma TokensAreFaithful(p: PaginationOffset, q: PaginationOffset)
    requires !Blank(p) && Fits(p) && !Blank(q) && Fits(q)
    ensures Token(Offset(Token(Some(p)))) == Token(Some(p))
    ensures Token(Some(p)) == Token(Some(q)) <==> CanonicalOffset(p) == CanonicalOffset(q)
  {
    TokenRoundTrip(p);
    TokenRoundTrip(q);
    CanonicalOffsetSameToken(p);
    CanonicalOffsetSameToken(q);
  }

  lemma FieldIsSmall(b: Text)
    ensures |b| == 2 ==> FieldValue(b) < SHORT_LIMIT
    ensures |b| == 4 ==> FieldValue(b) < DecimalText.UINT32_LIMIT
  {
    if |b| == 2 {
      assert b[1..][1..] == [];
      assert FieldValue(b[1..]) == b[1];
    } else if |b| == 4 {
      assert b == [b[0], b[1], b[2], b[3]];
      IntFieldValue(b[0], b[1], b[2], b[3]);
    }
  }

  lemma TakenStrIsShort(r: Text)
    ensures TakeStr(r).Some? ==> |TakeStr(r).value.0| < SHORT_LIMIT
  {
    hide FieldValue;
    if |r| >= 2 {
      FieldIsSmall(r[..2]);
    }
  }

  lemma TakenElementIsShort(r: Text)
    ensures TakeElement(r).Some? ==> |TakeElement(r).value.0| < SHORT_LIMIT
  {
    hide FieldValue, DecimalText.Format, UuidText.Format;
    if r != [] {
      TakenStrIsShort(r[1..]);
      if |r| >= 5 {
        FieldIsSmall(r[1..][..4]);
        DecimalText.Uint32RoundTrip(FieldValue(r[1..][..4]));
      }
    }
  }

  lemma {:induction false} TakenListIsShort(r: Text, n: nat)
    ensures TakeList(r, n).Some? ==>
              |TakeList(r, n).value.0| == n && forall i :: 0 <= i < n ==> |TakeList(r, n).value.0[i]| < SHORT_LIMIT
    decreases n
  {
    hide TakeElement;
    if n > 0 && TakeElement(r).Some? {
      TakenElementIsShort(r);
      TakenListIsShort(TakeElement(r).value.1, n - 1);
    }
  }

  /** Whatever a token yields fits. */
  lemma TakenOffsetFits(r: Text)
    ensures TakeOffset(r).Some? ==> Fits(TakeOffset(r).value)
  {
    hide TakeStr, TakeList, Classify;
    if TakeStr(r).Some? {
      TakenStrIsShort(r);
      var rest := TakeStr(r).value.1;
      if rest != [] {
        TakenListIsShort(rest[1..], rest[0]);
      }
    }
  }

  lemma CanonicalOffsetIsSame(p: PaginationOffset)
    ensures CanonicalOffset(p) == p <==> forall i :: 0 <= i < |p.sortingAfter| ==> IsCanonicalText(p.sortingAfter[i])
  {
    hide Canonical, IsCanonicalText;
    var list := p.sortingAfter;
    forall i | 0 <= i < |list|
      ensures Canonical(list[i]) == list[i] <==> IsCanonicalText(list[i])
    {
      CanonicalIffSpelled(list[i]);
    }
    if forall i :: 0 <= i < |list| ==> IsCanonicalText(list[i]) {
      assert CanonicalAll(list) == list;
    }
  }

  /**
   An offset comes back from its token exactly as it is if and only if it is not blank, its lengths fit, and each
   element is spelled canonically.
   */
  lemma TokenPreservesIff(p: PaginationOffset)
    ensures Offset(Token(Some(p))) == Some(p)
       <==> (p.searcher != [] || p.sortingAfter != []) && Fits(p) && forall i :: 0 <= i < |p.sortingAfter| ==>
         IsCanonicalText(p.sortingAfter[i])
  {
    hide Fits, IsCanonicalText, CanonicalOffset, OffsetBytes, TakeOffset;
    TokenRoundTrip(p);
    CanonicalOffsetIsSame(p);
    if Offset(Token(Some(p))) == Some(p) {
      TakenOffsetFits(Base64.DecodeString(Token(Some(p))).value);
    }
  }

  /**
   The bytes of an offset with a number, a UUID and a text: lengths and numbers little-endian, types 0, 2 and 1, the
   UUID as its sixteen bytes.
   */
  lemma LayoutExample(id: UuidText.Uuid)
    ensures OffsetBytes(PaginationOffset(Ascii("ab"), [Ascii("513"), UuidText.Format(id), Ascii("x")]))
         == [2, 0, 97, 98, 3, 0, 1, 2, 0, 0, 2] + id + [1, 1, 0, 120]
  {
    hide Classify, UuidText.Format, DecimalText.Format;
    var number, uuid, last := Ascii("513"), UuidText.Format(id), Ascii("x");
    ExampleElements(id);
    OneElement(number, [uuid, last]);
    OneElement(uuid, [last]);
    OneElement(last, []);
    assert [number, uuid, last] == [number] + ([uuid] + ([last] + []));
    assert ListBytes([number, uuid, last]) == [0, 1, 2, 0, 0] + ([2] + id + ([1, 1, 0, 120] + []));
    assert Ascii("ab") == [97, 98];
  }

  lemma OneElement(v: Text, list: seq<Text>)
    ensures ListBytes([v] + list) == ElementBytes(Classify(v)) + ListBytes(list)
  {
    assert ([v] + list)[1..] == list;
  }

  lemma ExampleElements(id: UuidText.Uuid)
    ensures ElementBytes(Classify(Ascii("513"))) == [0, 1, 2, 0, 0]
    ensures ElementBytes(Classify(UuidText.Format(id))) == [2] + id
    ensures ElementBytes(Classify(Ascii("x"))) == [1, 1, 0, 120]
  {
    hide UuidText.ParseHyphenated, UuidText.ParseCompact;
    DecimalText.Uint32RoundTrip(513);
    assert Ascii("513") == [53, 49, 51] && Ascii("x") == [120];
    assert DecimalText.Format(51) == [53, 49] && DecimalText.Format(513) == [53, 49, 51];
    UuidText.ParseUndoesFormat(id);
  }

  /** "007" comes back as "7". */
  lemma LeadingZerosAreLost()
    ensures var p := PaginationOffset(Ascii("s"), [Ascii("007")]);
            Fits(p) && Offset(Token(Some(p))) == Some(PaginationOffset(Ascii("s"), [Ascii("7")])) != Some(p)
  {
    var v := Ascii("007");
    assert v == [48, 48, 55];
    assert v[..2] == [48, 48] && v[..2][..1] == [48] && v[..1][..0] == [];
    assert DecimalText.Value(v[..1]) == 0;
    assert DecimalText.Value(v[..2]) == 0;
    assert DecimalText.Value(v) == 7;
    assert Canonical(v) == [55] == Ascii("7");
    var p := PaginationOffset(Ascii("s"), [v]);
    TokenRoundTrip(p);
    assert CanonicalAll([v]) == [Ascii("7")];
  }
}
