/**
 What Message#encode writes, as functions of the suffix table and the position reached.
 The encoder never reads back what it wrote, so each part is the bytes it appends and the
 table it leaves.
 */
module DnsEncoder {
  import opened DnsWire
  import opened DnsMessage

  type Names = map<Key, nat>

  datatype Part = Part(bytes: seq<byte>, names: Names)

  /** put_string: a length byte (the low 8 bits of the length) and the bytes. */
  function PutString(s: seq<byte>): (r: seq<byte>)
    ensures |r| == 1 + |s|
  {
    [|s| % 0x100] + s
  }

  function PutStrings(ss: seq<seq<byte>>): seq<byte> {
    if ss == [] then [] else PutString(ss[0]) + PutStrings(ss[1..])
  }

  /** put_labels: a suffix seen before becomes a pointer, any other is recorded at its position. */
  function PutLabels(names: Names, at: nat, d: seq<Label>): (r: Part)
    ensures r.bytes != []
    decreases |d|
  {
    if d == [] then Part([0], names)
    else if Fold(d) in names then Part(Pack16(0xc000 + names[Fold(d)] % 0x4000), names)
    else
      var rest := PutLabels(names[Fold(d) := at], at + 1 + |d[0]|, d[1..]);
      Part(PutString(d[0]) + rest.bytes, rest.names)
  }

  function PutName(names: Names, at: nat, name: Name): Part {
    PutLabels(names, at, name.labels)
  }

  function PutSOA(names: Names, at: nat, d: RData): Part
    requires d.SOA?
  {
    var m := PutName(names, at, d.mname);
    var r := PutName(m.names, at + |m.bytes|, d.rname);
    var five := Pack32(d.serial) + (Pack32(d.refresh) + (Pack32(d.retry) + (Pack32(d.expire) + Pack32(d.minimum))));
    Part(m.bytes + (r.bytes + five), r.names)
  }

  function PutMX(names: Names, at: nat, d: RData): Part
    requires d.MX?
  {
    var e := PutName(names, at + 2, d.exchange);
    Part(Pack16(d.preference) + e.bytes, e.names)
  }

  function PutSRV(names: Names, at: nat, d: RData): Part
    requires d.SRV?
  {
    var t := PutName(names, at + 6, d.target);
    Part(Pack16(d.priority) + (Pack16(d.weight) + (Pack16(d.port) + t.bytes)), t.names)
  }

  /** The encode_rdata of a resource: the table and the position give the part it appends. */
  type RDataWriter = (Names, nat) -> Part

  function RDataWriterOf(d: RData): RDataWriter {
    match d
    case NS(name) => (names: Names, at: nat) => PutName(names, at, name)
    case CNAME(name) => (names: Names, at: nat) => PutName(names, at, name)
    case PTR(name) => (names: Names, at: nat) => PutName(names, at, name)
    case SOA(_, _, _, _, _, _, _) => (names: Names, at: nat) => PutSOA(names, at, d)
    case HINFO(cpu, os) => (names: Names, at: nat) => Part(PutString(cpu) + PutString(os), names)
    case MX(_, _) => (names: Names, at: nat) => PutMX(names, at, d)
    case TXT(strings) => (names: Names, at: nat) => Part(PutStrings(strings), names)
    case A(address) => (names: Names, at: nat) => Part(address, names)
    case WKS(address, protocol, bitmap) => (names: Names, at: nat) => Part(address + (Pack16(protocol) + bitmap), names)
    case AAAA(address) => (names: Names, at: nat) => Part(address, names)
    case SRV(_, _, _, _) => (names: Names, at: nat) => PutSRV(names, at, d)
    case Generic(_, _, data) => (names: Names, at: nat) => Part(data, names)
  }

  function PutRData(names: Names, at: nat, d: RData): Part {
    RDataWriterOf(d)(names, at)
  }

  /** put_length16 around the record data. */
  function PutLength16(names: Names, at: nat, d: RData): Part {
    var r := PutRData(names, at + 2, d);
    Part(Pack16(|r.bytes|) + r.bytes, r.names)
  }

  function PutRecord(names: Names, at: nat, r: Record): Part {
    var n := PutName(names, at, r.name);
    var head := Pack16(TypeOf(r.data)) + (Pack16(ClassOf(r.data)) + Pack32(r.ttl));
    var d := PutLength16(n.names, at + |n.bytes| + 8, r.data);
    Part(n.bytes + (head + d.bytes), d.names)
  }

  function PutQuestion(names: Names, at: nat, q: Question): Part {
    var n := PutName(names, at, q.name);
    Part(n.bytes + (Pack16(q.qtype) + Pack16(q.qclass)), n.names)
  }

  /** Items put one behind the other. */
  function PutAll<T>(put: (Names, nat, T) -> Part, names: Names, at: nat, ts: seq<T>): Part
    decreases |ts|
  {
    if ts == [] then Part([], names)
    else
      var first := put(names, at, ts[0]);
      var rest := PutAll(put, first.names, at + |first.bytes|, ts[1..]);
      Part(first.bytes + rest.bytes, rest.names)
  }

  /** The second header word; each field is masked to its width, so the sum is the bitwise or. */
  function Flags(m: Message): (r: nat)
    ensures r < 0x1_0000
  {
    m.qr % 2 * 0x8000 + m.opcode % 16 * 0x800 + m.aa % 2 * 0x400 + m.tc % 2 * 0x200
    + m.rd % 2 * 0x100 + m.ra % 2 * 0x80 + m.rcode % 16
  }

  function Header(m: Message): (r: seq<byte>)
    ensures |r| == 12
  {
    Pack16(m.id) + (Pack16(Flags(m)) + (Pack16(|m.question|) + (Pack16(|m.answer|) +
      (Pack16(|m.authority|) + Pack16(|m.additional|)))))
  }

  /** One list put behind another. */
  function PutBoth<S, T>(put: (Names, nat, S) -> Part, put': (Names, nat, T) -> Part,
                         names: Names, at: nat, ss: seq<S>, ts: seq<T>): Part
  {
    var p := PutAll(put, names, at, ss);
    var p' := PutAll(put', p.names, at + |p.bytes|, ts);
    Part(p.bytes + p'.bytes, p'.names)
  }

  /** What follows the header: the questions, then the records of the three sections in turn. */
  function PutBody(names: Names, at: nat, qs: seq<Question>, rs: seq<Record>): Part {
    PutBoth(PutQuestion, PutRecord, names, at, qs, rs)
  }

  function Records(m: Message): seq<Record> {
    m.answer + m.authority + m.additional
  }

  /** Message#encode */
  function Encode(m: Message): seq<byte> {
    Header(m) + PutBody(map[], 12, m.question, Records(m)).bytes
  }
}
