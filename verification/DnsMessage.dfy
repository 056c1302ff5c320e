/**
 DNS messages: header fields, questions and resource records.
 */
module DnsMessage {
  import opened DnsWire

  datatype Name = Name(labels: seq<Label>, absolute: bool)

  datatype Question = Question(name: Name, qtype: nat, qclass: nat)

  /** The record data of the classes the library registers, and the generic one. */
  datatype RData =
    | NS(name: Name)
    | CNAME(name: Name)
    | PTR(name: Name)
    | SOA(mname: Name, rname: Name, serial: nat, refresh: nat, retry: nat, expire: nat, minimum: nat)
    | HINFO(cpu: seq<byte>, os: seq<byte>)
    | MX(preference: nat, exchange: Name)
    | TXT(strings: seq<seq<byte>>)
    | A(address: seq<byte>)
    | WKS(address: seq<byte>, protocol: nat, bitmap: seq<byte>)
    | AAAA(address: seq<byte>)
    | SRV(priority: nat, weight: nat, port: nat, target: Name)
    | Generic(rtype: nat, rclass: nat, data: seq<byte>)

  datatype Record = Record(name: Name, ttl: nat, data: RData)

  datatype Message = Message(
    id: nat, qr: nat, opcode: nat, aa: nat, tc: nat, rd: nat, ra: nat, rcode: nat,
    question: seq<Question>,
    answer: seq<Record>,
    authority: seq<Record>,
    additional: seq<Record>)

  /** The classes registered for (type, class IN), MINFO and the query class ANY included. */
  predicate Registered(rtype: nat, rclass: nat) {
    rclass == 1 && rtype in {1, 2, 5, 6, 11, 12, 13, 14, 15, 16, 28, 33, 255}
  }

  function TypeOf(d: RData): nat {
    match d
    case NS(_) => 2
    case CNAME(_) => 5
    case PTR(_) => 12
    case SOA(_, _, _, _, _, _, _) => 6
    case HINFO(_, _) => 13
    case MX(_, _) => 15
    case TXT(_) => 16
    case A(_) => 1
    case WKS(_, _, _) => 11
    case AAAA(_) => 28
    case SRV(_, _, _, _) => 33
    case Generic(rtype, _, _) => rtype
  }

  function ClassOf(d: RData): nat {
    if d.Generic? then d.rclass else 1
  }

  // ---- what a message must satisfy to be encodable

  /** Every label is non-empty and its length byte is not read as a pointer. RFC 1035 allows up
      to 63 bytes; the code itself reads length bytes up to 191 as label lengths. */
  predicate NameOk(name: Name) {
    name.absolute && forall i :: 0 <= i < |name.labels| ==> 1 <= |name.labels[i]| <= 191
  }

  predicate Bits16(x: nat) { x < 0x1_0000 }

  predicate Bits32(x: nat) { x < 0x1_0000_0000 }

  predicate StringOk(s: seq<byte>) { |s| < 256 }

  predicate RDataOk(d: RData) {
    match d
    case NS(name) => NameOk(name)
    case CNAME(name) => NameOk(name)
    case PTR(name) => NameOk(name)
    case SOA(mname, rname, serial, refresh, retry, expire, minimum) =>
      NameOk(mname) && NameOk(rname) && Bits32(serial) && Bits32(refresh) && Bits32(retry) && Bits32(expire) &&
        Bits32(minimum)
    case HINFO(cpu, os) => StringOk(cpu) && StringOk(os)
    case MX(preference, exchange) => Bits16(preference) && NameOk(exchange)
    case TXT(strings) => strings != [] && forall i :: 0 <= i < |strings| ==> StringOk(strings[i])
    case A(address) => |address| == 4
    case WKS(address, protocol, bitmap) => |address| == 4 && Bits16(protocol)
    case AAAA(address) => |address| == 16
    case SRV(priority, weight, port, target) => Bits16(priority) && Bits16(weight) && Bits16(port) && NameOk(target)
    case Generic(rtype, rclass, data) =>
      Bits16(rtype) && Bits16(rclass) && (rclass != 1 || rtype !in {1, 2, 5, 6, 11, 12, 13, 14, 15, 16, 28, 33, 255})
  }

  predicate RecordOk(r: Record) {
    NameOk(r.name) && Bits32(r.ttl) && RDataOk(r.data)
  }

  predicate QuestionOk(q: Question) {
    NameOk(q.name) && Bits16(q.qtype) && Bits16(q.qclass)
  }

  predicate MessageOk(m: Message) {
    && Bits16(m.id) && m.qr < 2 && m.opcode < 16 && m.aa < 2 && m.tc < 2 && m.rd < 2 && m.ra < 2 && m.rcode < 16
    && Bits16(|m.question|) && Bits16(|m.answer|) && Bits16(|m.authority|) && Bits16(|m.additional|)
    && (forall i :: 0 <= i < |m.question| ==> QuestionOk(m.question[i]))
    && (forall i :: 0 <= i < |m.answer| ==> RecordOk(m.answer[i]))
    && (forall i :: 0 <= i < |m.authority| ==> RecordOk(m.authority[i]))
    && (forall i :: 0 <= i < |m.additional| ==> RecordOk(m.additional[i]))
  }

  // ---- equality up to the case of names

  ghost predicate SameName(a: Name, b: Name) {
    Fold(a.labels) == Fold(b.labels) && a.absolute == b.absolute
  }

  ghost predicate SameRData(a: RData, b: RData) {
    match a
    case NS(name) => b.NS? && SameName(name, b.name)
    case CNAME(name) => b.CNAME? && SameName(name, b.name)
    case PTR(name) => b.PTR? && SameName(name, b.name)
    case SOA(mname, rname, _, _, _, _, _) =>
      b.SOA? && SameName(mname, b.mname) && SameName(rname, b.rname) && b == a.(mname := b.mname, rname := b.rname)
    case MX(preference, exchange) => b.MX? && b.preference == preference && SameName(exchange, b.exchange)
    case SRV(_, _, _, target) => b.SRV? && SameName(target, b.target) && b == a.(target := b.target)
    case _ => b == a
  }

  ghost predicate SameRecord(a: Record, b: Record) {
    SameName(a.name, b.name) && a.ttl == b.ttl && SameRData(a.data, b.data)
  }

  ghost predicate SameQuestion(a: Question, b: Question) {
    SameName(a.name, b.name) && a.qtype == b.qtype && a.qclass == b.qclass
  }

  ghost predicate SameRecords(a: seq<Record>, b: seq<Record>) {
    |a| == |b| && forall i :: 0 <= i < |a| ==> SameRecord(a[i], b[i])
  }

  ghost predicate SameQuestions(a: seq<Question>, b: seq<Question>) {
    |a| == |b| && forall i :: 0 <= i < |a| ==> SameQuestion(a[i], b[i])
  }

  ghost predicate SameMessage(a: Message, b: Message) {
    && b == a.(question := b.question, answer := b.answer, authority := b.authority, additional := b.additional)
    && SameQuestions(a.question, b.question)
    && SameRecords(a.answer, b.answer)
    && SameRecords(a.authority, b.authority)
    && SameRecords(a.additional, b.additional)
  }
}
