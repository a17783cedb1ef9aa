/** The writers and readers of pagination tokens, proved against OffsetFormat. */
module OffsetCodec {
  import opened GoText
  import opened OffsetFormat
  import Base64
  import DecimalText
  import UuidText

  /** bytes.Buffer: writing appends. */
  class Buffer {
    var data: Text

    constructor ()
      ensures data == []
    {
      data := [];
    }

    method WriteByte(b: Byte)
      modifies this
      ensures data == old(data) + [b]
    {
      data := data + [b];
    }

    method WriteShort(n: nat)
      modifies this
      ensures data == old(data) + ShortBytes(n)
    {
      data := data + ShortBytes(n);
    }

    method WriteInt(n: nat)
      modifies this
      ensures data == old(data) + IntBytes(n)
    {
      data := data + IntBytes(n);
    }

    method WriteStr(s: Text)
      modifies this
      ensures data == old(data) + StrBytes(s)
    {
      WriteShort(|s|);
      data := data + s;
    }

    /** A value that reads as a UUID is written as 16 bytes, else as a 32-bit number if it is one, else as text. */
    method WriteTypObj(v: Text)
      modifies this
      ensures data == old(data) + ElementBytes(Classify(v))
    {
      hide UuidText.Parse, DecimalText.ParseUint32, IntBytes, StrBytes;
      ghost var before := data;
      var asUuid := UuidText.Parse(v);
      if asUuid.Some? {
        WriteByte(TYP_UUID);
        data := data + asUuid.value;
        assert data == before + ([TYP_UUID] + asUuid.value);
        return;
      }
      var asInt := DecimalText.ParseUint32(v);
      if asInt.Some? {
        WriteByte(TYP_UINT32);
        WriteInt(asInt.value);
        assert data == before + ([TYP_UINT32] + IntBytes(asInt.value));
        return;
      }
      WriteByte(TYP_STRING);
      WriteStr(v);
      assert data == before + ([TYP_STRING] + StrBytes(v));
    }
  }

  /** What a reader method returns for a Take result. */
  function Taken<T>(t: Option<(T, Text)>): Option<T> {
    if t.None? then None else Some(t.value.0)
  }

  /** bytes.Reader: reading advances a position; a read that runs short fails. */
  class Reader {
    const raw: Text
    var pos: nat

    ghost predicate Valid()
      reads this
    {
      pos <= |raw|
    }

    function Rest(): Text
      reads this
      requires Valid()
    {
      raw[pos..]
    }

    constructor (raw: Text)
      ensures Valid() && this.raw == raw && Rest() == raw
    {
      this.raw := raw;
      pos := 0;
    }

    /** io.ReadFull: a short read consumes what there is. */
    method ReadFull(n: nat) returns (r: Option<Text>)
      requires Valid()
      modifies this
      ensures Valid()
      ensures r == Taken(TakeBytes(old(Rest()), n))
      ensures Rest() == if r.Some? then TakeBytes(old(Rest()), n).value.1 else []
    {
      if pos + n <= |raw| {
        assert raw[pos..][..n] == raw[pos..pos + n] && raw[pos..][n..] == raw[pos + n..];
        r := Some(raw[pos..pos + n]);
        pos := pos + n;
      } else {
        r := None;
        pos := |raw|;
      }
    }

    method ReadByte() returns (r: Option<Byte>)
      requires Valid()
      modifies this
      ensures Valid()
      ensures r.None? <==> old(Rest()) == []
      ensures r.Some? ==> [r.value] + Rest() == old(Rest())
    {
      var field := ReadFull(1);
      r := if field.Some? then Some(field.value[0]) else None;
    }

    method ReadField(width: nat) returns (r: Option<nat>)
      requires Valid()
      modifies this
      ensures Valid()
      ensures r == Taken(TakeField(old(Rest()), width))
      ensures r.Some? ==> Rest() == TakeField(old(Rest()), width).value.1
    {
      var field := ReadFull(width);
      r := if field.Some? then Some(FieldValue(field.value)) else None;
    }

    method ReadStr() returns (r: Option<Text>)
      requires Valid()
      modifies this
      ensures Valid()
      ensures r == Taken(TakeStr(old(Rest())))
      ensures r.Some? ==> Rest() == TakeStr(old(Rest())).value.1
    {
      var n := ReadField(2);
      if n.None? {
        return None;
      }
      r := ReadFull(n.value);
    }

    method ReadTypObj() returns (r: Option<Text>)
      requires Valid()
      modifies this
      ensures Valid()
      ensures r == Taken(TakeElement(old(Rest())))
      ensures r.Some? ==> Rest() == TakeElement(old(Rest())).value.1
    {
      var typ := ReadByte();
      if typ.None? {
        return None;
      }
      assert old(Rest())[1..] == Rest();
      if typ.value == TYP_STRING {
        r := ReadStr();
      } else if typ.value == TYP_UUID {
        var u := ReadFull(16);
        r := if u.Some? then Some(UuidText.Format(u.value)) else None;
      } else if typ.value == TYP_UINT32 {
        var n := ReadField(4);
        r := if n.Some? then Some(DecimalText.Format(n.value)) else None;
      } else {
        r := None;
      }
    }
  }

  method SerializeOffset(p: Option<PaginationOffset>) returns (token: Text)
    ensures token == Token(p)
  {
    hide Base64.EncodeToString, Classify, ElementBytes, StrBytes;
    if p.None? || (p.value.searcher == [] && |p.value.sortingAfter| == 0) {
      return [];
    }
    var list := p.value.sortingAfter;
    var buf := new Buffer();
    buf.WriteStr(p.value.searcher);
    buf.WriteByte(|list| % BYTE_LIMIT);
    assert list[0..] == list;
    for i := 0 to |list|
      invariant OffsetBytes(p.value) == buf.data + ListBytes(list[i..])
    {
      assert list[i..][0] == list[i] && list[i..][1..] == list[i + 1..];
      buf.WriteTypObj(list[i]);
    }
    assert list[|list|..] == [] && buf.data + [] == buf.data;
    token := Base64.EncodeToString(buf.data);
  }

  /** Reading m more elements from rest, after those in acc, is reading all n from body. */
  ghost predicate ReadsOn(body: Text, n: nat, acc: seq<Text>, rest: Text, m: nat) {
    match TakeList(rest, m)
    case None => TakeList(body, n) == None
    case Some((vs, end)) => TakeList(body, n) == Some((acc + vs, end))
  }

  lemma ReadsOnStart(body: Text, n: nat)
    ensures ReadsOn(body, n, [], body, n)
  {
    assert forall vs: seq<Text> :: [] + vs == vs;
  }

  lemma ReadsOnStep(body: Text, n: nat, acc: seq<Text>, rest: Text, m: nat)
    requires m >= 1 && ReadsOn(body, n, acc, rest, m)
    ensures TakeElement(rest).None? ==> TakeList(body, n) == None
    ensures TakeElement(rest).Some? ==>
              ReadsOn(body, n, acc + [TakeElement(rest).value.0], TakeElement(rest).value.1, m - 1)
  {
    hide TakeElement;
    if TakeElement(rest).Some? {
      var v := TakeElement(rest).value.0;
      assert forall vs: seq<Text> :: acc + ([v] + vs) == acc + [v] + vs;
    }
  }

  lemma ReadsOnEnd(body: Text, n: nat, acc: seq<Text>, rest: Text)
    requires ReadsOn(body, n, acc, rest, 0)
    ensures TakeList(body, n) == Some((acc, rest))
  {
    assert acc + [] == acc;
  }

  /** The loop of ParseOffset. */
  method ReadList(r: Reader, n: nat) returns (list: Option<seq<Text>>)
    requires r.Valid()
    modifies r
    ensures list == Taken(TakeList(old(r.Rest()), n))
  {
    hide TakeElement, TakeList, ReadsOn;
    ghost var body := r.Rest();
    var sortingAfter := new Text[n](_ => []);
    assert sortingAfter[..0] == [];
    ReadsOnStart(body, n);
    for i := 0 to n
      invariant r.Valid() && fresh(sortingAfter)
      invariant ReadsOn(body, n, sortingAfter[..i], r.Rest(), n - i)
    {
      ReadsOnStep(body, n, sortingAfter[..i], r.Rest(), n - i);
      ghost var acc := sortingAfter[..i];
      var v := r.ReadTypObj();
      if v.None? {
        return None;
      }
      sortingAfter[i] := v.value;
      assert sortingAfter[..i + 1] == acc + [v.value];
    }
    assert sortingAfter[..n] == sortingAfter[..];
    ReadsOnEnd(body, n, sortingAfter[..], r.Rest());
    list := Some(sortingAfter[..]);
  }

  /** Any malformed token, and the empty one, yields no offset. */
  method ParseOffset(token: Text) returns (p: Option<PaginationOffset>)
    ensures p == Offset(token)
  {
    hide Base64.DecodeString, TakeElement, TakeStr, TakeList;
    if token == [] {
      return None;
    }
    var raw := Base64.DecodeString(token);
    if raw.None? {
      return None;
    }
    var r := new Reader(raw.value);
    var searcher := r.ReadStr();
    if searcher.None? {
      return None;
    }
    ghost var rest := r.Rest();
    var listLen := r.ReadByte();
    if listLen.None? {
      return None;
    }
    assert rest[0] == listLen.value && rest[1..] == r.Rest();
    var sortingAfter := ReadList(r, listLen.value);
    if sortingAfter.None? {
      return None;
    }
    p := Some(PaginationOffset(searcher.value, sortingAfter.value));
  }
}
