/**
 Records by their numbers and bytes (sections 3.2 to 4.1 of RFC 1035, RFC 1886 and RFC 2782): which
 records are decoded as which class, and what the encoder writes for each class.
 */
module DnsRecords {
  import opened DnsWire
  import opened DnsMessage
  import opened DnsEncoder
  import opened DnsDecoder
  import opened DnsRoundTrip

  // ---- which class a record is decoded as

  /** The decoders of class IN give record data of their own kind. */
  lemma ReadersKinds(data: seq<byte>, limit: nat, at: nat)
    ensures GetNS(data, limit, at).Ok? ==> GetNS(data, limit, at).value.NS?
    ensures GetCNAME(data, limit, at).Ok? ==> GetCNAME(data, limit, at).value.CNAME?
    ensures GetPTR(data, limit, at).Ok? ==> GetPTR(data, limit, at).value.PTR?
    ensures GetSOA(data, limit, at).Ok? ==> GetSOA(data, limit, at).value.SOA?
    ensures GetHINFO(data, limit, at).Ok? ==> GetHINFO(data, limit, at).value.HINFO?
    ensures GetMX(data, limit, at).Ok? ==> GetMX(data, limit, at).value.MX?
    ensures GetTXT(data, limit, at).Ok? ==> GetTXT(data, limit, at).value.TXT?
    ensures GetA(data, limit, at).Ok? ==> GetA(data, limit, at).value.A?
    ensures GetAAAA(data, limit, at).Ok? ==> GetAAAA(data, limit, at).value.AAAA?
    ensures GetWKS(data, limit, at).Ok? ==> GetWKS(data, limit, at).value.WKS?
    ensures GetSRV(data, limit, at).Ok? ==> GetSRV(data, limit, at).value.SRV?
  {
  }

  /** Whatever the bytes are, the data of class 1 with one of the eleven types is of that type's own kind. */
  lemma KnownType(data: seq<byte>, limit: nat, at: nat, rtype: nat, g: Got<RData>)
    requires g == GetRData(data, limit, at, rtype, 1) && g.Ok?
    ensures rtype == 1 ==> g.value.A?
    ensures rtype == 2 ==> g.value.NS?
    ensures rtype == 5 ==> g.value.CNAME?
    ensures rtype == 6 ==> g.value.SOA?
    ensures rtype == 11 ==> g.value.WKS?
    ensures rtype == 12 ==> g.value.PTR?
    ensures rtype == 13 ==> g.value.HINFO?
    ensures rtype == 15 ==> g.value.MX?
    ensures rtype == 16 ==> g.value.TXT?
    ensures rtype == 28 ==> g.value.AAAA?
    ensures rtype == 33 ==> g.value.SRV?
    ensures rtype != 14 && rtype != 255
  {
    ReadersKinds(data, limit, at);
  }

  /** A block of another class, or of class 1 with another type, is kept as it is, numbers and bytes;
      it may reach behind the end of the data. */
  lemma OtherIsGeneric(data: seq<byte>, limit: nat, at: nat, rtype: nat, rclass: nat, stop: nat)
    requires rclass != 1 || rtype !in {1, 2, 5, 6, 11, 12, 13, 14, 15, 16, 28, 33, 255}
    requires at <= limit && at <= |data| && stop == if limit <= |data| then limit else |data|
    ensures GetRData(data, limit, at, rtype, rclass) == Ok(Generic(rtype, rclass, data[at..stop]), limit)
  {
    assert data[at..] == data[at..|data|];
  }

  /** What is decoded bears the type and class numbers of the message, and it is generic exactly if
      the class is not 1 or the type is none of those registered for it. */
  lemma DecodedBearsItsNumbers(data: seq<byte>, limit: nat, at: nat, rtype: nat, rclass: nat, g: Got<RData>)
    requires g == GetRData(data, limit, at, rtype, rclass) && g.Ok?
    ensures TypeOf(g.value) == rtype && ClassOf(g.value) == rclass
    ensures g.value.Generic? <==> rclass != 1 || rtype !in {1, 2, 5, 6, 11, 12, 13, 14, 15, 16, 28, 33, 255}
  {
    if rclass == 1 && rtype in {1, 2, 5, 6, 11, 12, 13, 14, 15, 16, 28, 33, 255} {
      KnownType(data, limit, at, rtype, g);
    }
  }

  /** The same of a whole block with its length in front. */
  lemma OtherBlockIsGeneric(data: seq<byte>, limit: nat, at: nat, len: nat, rtype: nat, rclass: nat, stop: nat)
    requires rclass != 1 || rtype !in {1, 2, 5, 6, 11, 12, 13, 14, 15, 16, 28, 33, 255}
    requires at + 2 <= limit && Window(data, at, Pack16(len)) && Bits16(len)
    requires stop == if at + 2 + len <= |data| then at + 2 + len else |data|
    ensures GetLength16(data, limit, at, rtype, rclass) == Ok(Generic(rtype, rclass, data[at + 2..stop]), at + 2 + len)
  {
    Int16Reads(data, limit, at, len);
    OtherIsGeneric(data, at + 2 + len, at + 2, rtype, rclass, stop);
    BlockReads(data, limit, at, len, rtype, rclass, GetRData(data, at + 2 + len, at + 2, rtype, rclass));
  }

  /** A decoded record has the three numbers that stand behind its name. */
  lemma RecordBearsItsNumbers(data: seq<byte>, limit: nat, at: nat)
    requires GetRecord(data, limit, at).Ok?
    ensures var r, i := GetRecord(data, limit, at).value, GetName(data, limit, at).index;
            && i + 8 <= |data| && r.name == GetName(data, limit, at).value
            && TypeOf(r.data) == Unpack16(data[i], data[i + 1])
            && ClassOf(r.data) == Unpack16(data[i + 2], data[i + 3])
            && r.ttl == Unpack16(data[i + 4], data[i + 5]) * 0x1_0000 + Unpack16(data[i + 6], data[i + 7])
  {
    var i := GetName(data, limit, at).index;
    var f := GetFixed(data, limit, i);
    var len := Get16(data, limit, f.index);
    var d := GetLength16(data, limit, f.index, f.value.0, f.value.1);
    DecodedBearsItsNumbers(data, len.index + len.value, len.index, f.value.0, f.value.1, d);
  }

  /** A block is used up exactly, or the message is refused. */
  lemma BlockIsUsedUp(data: seq<byte>, limit: nat, at: nat, rtype: nat, rclass: nat)
    requires GetLength16(data, limit, at, rtype, rclass).Ok?
    ensures at + 2 <= |data| && GetLength16(data, limit, at, rtype, rclass).index
         == at + 2 + Unpack16(data[at], data[at + 1])
  {
  }

  /** A pointer in place of a name stands for the name it points to, if that lies before it, and is
      refused otherwise. */
  lemma PointerReads(data: seq<byte>, limit: nat, at: nat, p: nat)
    requires p < 0x4000 && at + 2 <= limit && Window(data, at, [192 + p / 0x100, p % 0x100])
    ensures GetName(data, limit, at) ==
      if p >= at then Err(NonBackward)
      else
        var name := GetName(data, limit, p);
        if name.Ok? then Ok(name.value, at + 2) else name
  {
    assert data[at] == [192 + p / 0x100, p % 0x100][0] && data[at + 1] == [192 + p / 0x100, p % 0x100][1];
    assert Unpack16(data[at], data[at + 1]) == 0xc000 + p;
  }

  // ---- the bytes

  const ROOT := Name([], true)

  function OneLabel(b: byte): Name { Name([[b]], true) }

  /** The bytes of a record of the root name, with a time to live of 0x1020304, first in a message. */
  function Wire(d: RData): seq<byte> {
    PutRecord(map[], 12, Record(ROOT, 0x0102_0304, d)).bytes
  }

  /** Its first eleven bytes: name, type, class, time to live and length. */
  function Head(rtype: byte, len: byte): seq<byte> {
    [0, 0, rtype, 0, 1, 1, 2, 3, 4, 0, len]
  }

  lemma NameBytes(names: Names, at: nat, b: byte)
    requires [[Downcase(b)]] !in names
    ensures PutName(names, at, OneLabel(b)) == Part([1, b, 0], names[[[Downcase(b)]] := at])
  {
    assert FoldLabel([b]) == [Downcase(b)];
    assert Fold([[b]]) == [[Downcase(b)]];
    var names' := names[[[Downcase(b)]] := at];
    assert [[b]][1..] == [] && PutLabels(names', at + 2, []) == Part([0], names');
    assert PutString([b]) + [0] == [1, b, 0];
  }

  lemma SmallNumbers(x: byte)
    ensures Pack16(x) == [0, x] && Pack32(x) == [0, 0, 0, x]
  {
    assert Pack16(0) == [0, 0];
  }

  lemma TimeBytes()
    ensures Pack32(0x0102_0304) == [1, 2, 3, 4]
  {
    assert Pack16(0x0102) == [1, 2];
    Pack16Low(0x0102_0304, 0x0102, 0x0304);
  }

  /** A record of the root name is its fixed front and the data. */
  lemma WireIs(d: RData, rtype: byte, bytes: seq<byte>)
    requires TypeOf(d) == rtype && ClassOf(d) == 1 && PutRData(map[], 23, d).bytes == bytes && |bytes| < 256
    ensures Wire(d) == Head(rtype, |bytes|) + bytes
  {
    SmallNumbers(rtype);
    SmallNumbers(1);
    SmallNumbers(|bytes|);
    TimeBytes();
    assert PutLength16(map[], 21, d).bytes == [0, |bytes|] + bytes;
    HeadAnd(rtype, |bytes|, bytes);
  }

  lemma HeadAnd(rtype: byte, len: byte, bytes: seq<byte>)
    ensures [0] + (([0, rtype] + ([0, 1] + [1, 2, 3, 4])) + ([0, len] + bytes)) == Head(rtype, len) + bytes
  {
  }

  lemma AddressRecords(address: seq<byte>, wide: seq<byte>)
    requires |address| == 4 && |wide| == 16
    ensures Wire(A(address)) == Head(1, 4) + address
    ensures Wire(AAAA(wide)) == Head(28, 16) + wide
  {
    WireIs(A(address), 1, address);
    WireIs(AAAA(wide), 28, wide);
  }

  lemma ServiceRecord(address: seq<byte>, protocol: byte, bitmap: seq<byte>)
    requires |address| == 4 && |bitmap| < 200
    ensures Wire(WKS(address, protocol, bitmap)) == Head(11, 6 + |bitmap|) + (address + ([0, protocol] + bitmap))
  {
    SmallNumbers(protocol);
    WireIs(WKS(address, protocol, bitmap), 11, address + ([0, protocol] + bitmap));
  }

  lemma StringRecords(x: byte, y: byte)
    ensures Wire(HINFO([x], [y])) == Head(13, 4) + [1, x, 1, y]
    ensures Wire(TXT([[x], [y]])) == Head(16, 4) + [1, x, 1, y]
  {
    assert PutString([x]) == [1, x] && PutString([y]) == [1, y];
    WireIs(HINFO([x], [y]), 13, [1, x, 1, y]);
    assert [[x], [y]][1..] == [[y]] && [[y]][1..] == [];
    assert PutStrings([[y]]) == [1, y];
    WireIs(TXT([[x], [y]]), 16, [1, x, 1, y]);
  }

  lemma NameRecords(b: byte)
    ensures Wire(NS(OneLabel(b))) == Head(2, 3) + [1, b, 0]
    ensures Wire(CNAME(OneLabel(b))) == Head(5, 3) + [1, b, 0]
    ensures Wire(PTR(OneLabel(b))) == Head(12, 3) + [1, b, 0]
  {
    NameBytes(map[], 23, b);
    WireIs(NS(OneLabel(b)), 2, [1, b, 0]);
    WireIs(CNAME(OneLabel(b)), 5, [1, b, 0]);
    WireIs(PTR(OneLabel(b)), 12, [1, b, 0]);
  }

  lemma ExchangeRecord(x: byte, b: byte)
    ensures Wire(MX(x, OneLabel(b))) == Head(15, 5) + [0, x, 1, b, 0]
  {
    NameBytes(map[], 25, b);
    SmallNumbers(x);
    assert [0, x] + [1, b, 0] == [0, x, 1, b, 0];
    WireIs(MX(x, OneLabel(b)), 15, [0, x, 1, b, 0]);
  }

  lemma ServerRecord(x: byte, y: byte, z: byte, b: byte)
    ensures Wire(SRV(x, y, z, OneLabel(b))) == Head(33, 9) + [0, x, 0, y, 0, z, 1, b, 0]
  {
    NameBytes(map[], 29, b);
    SmallNumbers(x);
    SmallNumbers(y);
    SmallNumbers(z);
    assert [0, x] + ([0, y] + ([0, z] + [1, b, 0])) == [0, x, 0, y, 0, z, 1, b, 0];
    WireIs(SRV(x, y, z, OneLabel(b)), 33, [0, x, 0, y, 0, z, 1, b, 0]);
  }

  lemma TwoNames(a: byte, b: byte)
    requires Downcase(a) != Downcase(b)
    ensures PutName(map[], 23, OneLabel(a)).bytes == [1, a, 0]
    ensures PutName(PutName(map[], 23, OneLabel(a)).names, 26, OneLabel(b)).bytes == [1, b, 0]
  {
    var first: Names := map[[[Downcase(a)]] := 23];
    NameBytes(map[], 23, a);
    assert [[Downcase(b)]] !in first by { assert [[Downcase(b)]][0][0] == Downcase(b); }
    NameBytes(first, 26, b);
  }

  lemma FiveNumbers(v: byte, w: byte, x: byte, y: byte, z: byte)
    ensures Pack32(v) + (Pack32(w) + (Pack32(x) + (Pack32(y) + Pack32(z))))
         == [0, 0, 0, v, 0, 0, 0, w, 0, 0, 0, x, 0, 0, 0, y, 0, 0, 0, z]
  {
    SmallNumbers(v);
    SmallNumbers(w);
    SmallNumbers(x);
    SmallNumbers(y);
    SmallNumbers(z);
  }

  /** The start of authority, its second name a different one. */
  lemma AuthorityRecord(a: byte, b: byte, v: byte, w: byte, x: byte, y: byte, z: byte)
    requires Downcase(a) != Downcase(b)
    ensures Wire(SOA(OneLabel(a), OneLabel(b), v, w, x, y, z)) ==
      Head(6, 26) + ([1, a, 0] + ([1, b, 0] + [0, 0, 0, v, 0, 0, 0, w, 0, 0, 0, x, 0, 0, 0, y, 0, 0, 0, z]))
  {
    var five := [0, 0, 0, v, 0, 0, 0, w, 0, 0, 0, x, 0, 0, 0, y, 0, 0, 0, z];
    TwoNames(a, b);
    FiveNumbers(v, w, x, y, z);
    WireIs(SOA(OneLabel(a), OneLabel(b), v, w, x, y, z), 6, [1, a, 0] + ([1, b, 0] + five));
  }

  /** A name put before is a pointer to where it was put. */
  lemma PointerBytes(names: Names, at: nat, name: Name)
    requires name.labels != [] && Fold(name.labels) in names && names[Fold(name.labels)] < 0x4000
    ensures var p := names[Fold(name.labels)]; PutName(names, at, name) == Part([192 + p / 0x100, p % 0x100], names)
  {
    PointerPacked(names[Fold(name.labels)]);
  }

  lemma PointerPacked(p: nat)
    requires p < 0x4000
    ensures Pack16(0xc000 + p % 0x4000) == [192 + p / 0x100, p % 0x100]
  {
    assert p == 0x100 * (p / 0x100) + p % 0x100;
    TwoBytes(0xc000 + p, 192 + p / 0x100, p % 0x100);
  }

  lemma HeaderOfMessage(m: Message)
    ensures |Encode(m)| >= 12 && Encode(m)[..12] == Header(m)
  {
  }

  lemma FlagBytes(m: Message)
    requires MessageOk(m)
    ensures Pack16(Flags(m)) == [0x80 * m.qr + 8 * m.opcode + 4 * m.aa + 2 * m.tc + m.rd, 0x80 * m.ra + m.rcode]
  {
    FlagsSum(m);
    TwoBytes(Flags(m), 0x80 * m.qr + 8 * m.opcode + 4 * m.aa + 2 * m.tc + m.rd, 0x80 * m.ra + m.rcode);
  }

  lemma TwoBytes(x: nat, high: byte, low: byte)
    requires x == 0x100 * high + low
    ensures Pack16(x) == [high, low]
  {
    ByteDivision(high, low);
    ByteDivision(0, high);
  }

  /** The twelve bytes at the front of a message. */
  lemma HeaderBytes(m: Message)
    requires MessageOk(m)
    ensures |Encode(m)| >= 12
    ensures Encode(m)[..2] == Pack16(m.id)
    ensures Encode(m)[2] == 0x80 * m.qr + 8 * m.opcode + 4 * m.aa + 2 * m.tc + m.rd
    ensures Encode(m)[3] == 0x80 * m.ra + m.rcode
    ensures Encode(m)[4..6] == Pack16(|m.question|) && Encode(m)[6..8] == Pack16(|m.answer|)
    ensures Encode(m)[8..10] == Pack16(|m.authority|) && Encode(m)[10..12] == Pack16(|m.additional|)
  {
    HeaderOfMessage(m);
    FlagBytes(m);
    var e, h := Encode(m), Header(m);
    assert forall i :: 0 <= i < 12 ==> e[i] == e[..12][i] == h[i];
  }
}
