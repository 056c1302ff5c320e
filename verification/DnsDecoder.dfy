/**
 What Message.decode reads, as functions of the whole message, the current limit and the
 current position. The limit is that of the innermost length-prefixed block; it may lie
 behind the end of the data, because get_length16 does not check it.
 */
module DnsDecoder {
  import opened DnsWire
  import opened DnsMessage

  datatype Fault =
    | LimitExceeded   // DecodeError "limit exceeded"
    | NonBackward     // DecodeError "non-backward name pointer"
    | Junk            // DecodeError "junk exists"
    | IsQuery         // DecodeError "... is query."
    | BadArgument     // ArgumentError of IPv4.new, IPv6.new or TXT.new
    | PastEnd         // a read behind the end of the data
    | Unmodelled      // an MINFO record

  datatype Got<+T> = Ok(value: T, index: nat) | Err(fault: Fault)

  /** A part of the data, shorter at its end. */
  function Slice(data: seq<byte>, index: nat, len: nat): seq<byte>
    requires index <= |data|
  {
    if index + len <= |data| then data[index..index + len] else data[index..]
  }

  function Get16(data: seq<byte>, limit: nat, index: nat): (r: Got<nat>)
    ensures r.Ok? ==> r.index == index + 2 && r.value < 0x1_0000
  {
    if limit < index + 2 then Err(LimitExceeded)
    else if |data| < index + 2 then Err(PastEnd)
    else Ok(Unpack16(data[index], data[index + 1]), index + 2)
  }

  function Get32(data: seq<byte>, limit: nat, index: nat): (r: Got<nat>)
    ensures r.Ok? ==> r.index == index + 4
  {
    if limit < index + 4 then Err(LimitExceeded)
    else if |data| < index + 4 then Err(PastEnd)
    else Ok(Unpack16(data[index], data[index + 1]) * 0x1_0000 + Unpack16(data[index + 2], data[index + 3]), index + 4)
  }

  function GetString(data: seq<byte>, limit: nat, index: nat): (r: Got<seq<byte>>)
    ensures r.Ok? ==> index < r.index <= limit
  {
    if |data| <= index then Err(PastEnd)
    else
      var len := data[index];
      if limit < index + 1 + len then Err(LimitExceeded)
      else Ok(Slice(data, index + 1, len), index + 1 + len)
  }

  function GetStrings(data: seq<byte>, limit: nat, index: nat): Got<seq<seq<byte>>>
    decreases if index < limit then limit - index else 0
  {
    if limit <= index then Ok([], index)
    else
      var s := GetString(data, limit, index);
      if s.Err? then Err(s.fault)
      else
        var rest := GetStrings(data, limit, s.index);
        if rest.Err? then rest else Ok([s.value] + rest.value, rest.index)
  }

  /** get_bytes checks no limit and may come back short. */
  function GetBytes(data: seq<byte>, index: nat, len: nat): Got<seq<byte>> {
    if |data| < index then Err(PastEnd) else Ok(Slice(data, index, len), index + len)
  }

  /** get_labels inside the bound it was given: every pointer must point below `bound`, and what
      it points to is read with that position as the new bound. */
  function GetLabels(data: seq<byte>, limit: nat, index: nat, bound: nat): (r: Got<seq<Label>>)
    decreases bound, if index < |data| then |data| - index else 0
  {
    if |data| <= index then Err(PastEnd)
    else if data[index] == 0 then Ok([], index + 1)
    else if data[index] >= 192 then
      var p := Get16(data, limit, index);
      if p.Err? then Err(p.fault)
      else
        var target := p.value % 0x4000;
        if bound <= target then Err(NonBackward)
        else
          var rest := GetLabels(data, limit, target, target);
          if rest.Err? then rest else Ok(rest.value, index + 2)
    else
      var l := GetString(data, limit, index);
      if l.Err? then Err(l.fault)
      else
        var rest := GetLabels(data, limit, l.index, bound);
        if rest.Err? then rest else Ok([l.value] + rest.value, rest.index)
  }

  function GetName(data: seq<byte>, limit: nat, index: nat): Got<Name> {
    var r := GetLabels(data, limit, index, index);
    if r.Err? then Err(r.fault) else Ok(Name(r.value, true), r.index)
  }

  /** get_unpack("NNNNN") checks the limit once for all five. */
  function GetFive(data: seq<byte>, limit: nat, index: nat): Got<(nat, nat, nat, nat, nat)> {
    if limit < index + 20 then Err(LimitExceeded) else
    var a, b, c, d, e := Get32(data, limit, index), Get32(data, limit, index + 4), Get32(data, limit, index + 8),
                         Get32(data, limit, index + 12), Get32(data, limit, index + 16);
    if e.Err? || a.Err? || b.Err? || c.Err? || d.Err? then Err(PastEnd)
    else Ok((a.value, b.value, c.value, d.value, e.value), e.index)
  }

  function GetSOA(data: seq<byte>, limit: nat, index: nat): Got<RData> {
    var m := GetName(data, limit, index);
    if m.Err? then Err(m.fault) else
    var r := GetName(data, limit, m.index);
    if r.Err? then Err(r.fault) else
    var f := GetFive(data, limit, r.index);
    if f.Err? then Err(f.fault)
    else Ok(SOA(m.value, r.value, f.value.0, f.value.1, f.value.2, f.value.3, f.value.4), f.index)
  }

  function GetHINFO(data: seq<byte>, limit: nat, index: nat): Got<RData> {
    var c := GetString(data, limit, index);
    if c.Err? then Err(c.fault) else
    var o := GetString(data, limit, c.index);
    if o.Err? then Err(o.fault) else Ok(HINFO(c.value, o.value), o.index)
  }

  function GetMX(data: seq<byte>, limit: nat, index: nat): Got<RData> {
    var p := Get16(data, limit, index);
    if p.Err? then Err(p.fault) else
    var e := GetName(data, limit, p.index);
    if e.Err? then Err(e.fault) else Ok(MX(p.value, e.value), e.index)
  }

  function GetWKS(data: seq<byte>, limit: nat, index: nat): Got<RData> {
    var a := GetBytes(data, index, 4);
    if a.Err? then Err(a.fault) else
    if |a.value| != 4 then Err(BadArgument) else
    var p := Get16(data, limit, a.index);
    if p.Err? then Err(p.fault) else
    var b := GetBytes(data, p.index, limit - p.index);
    if b.Err? then Err(b.fault) else Ok(WKS(a.value, p.value, b.value), b.index)
  }

  function GetSRV(data: seq<byte>, limit: nat, index: nat): Got<RData> {
    var p := Get16(data, limit, index);
    if p.Err? then Err(p.fault) else
    var w := Get16(data, limit, p.index);
    if w.Err? then Err(w.fault) else
    var o := Get16(data, limit, w.index);
    if o.Err? then Err(o.fault) else
    var t := GetName(data, limit, o.index);
    if t.Err? then Err(t.fault) else Ok(SRV(p.value, w.value, o.value, t.value), t.index)
  }

  function GetAddress(data: seq<byte>, index: nat, len: nat): Got<seq<byte>> {
    var a := GetBytes(data, index, len);
    if a.Err? then a else if |a.value| != len then Err(BadArgument) else a
  }

  function GetGeneric(data: seq<byte>, limit: nat, index: nat, rtype: nat, rclass: nat): Got<RData> {
    var g := GetBytes(data, index, if index <= limit then limit - index else 0);
    if g.Err? then Err(g.fault) else Ok(Generic(rtype, rclass, g.value), g.index)
  }

  function GetNS(data: seq<byte>, limit: nat, index: nat): Got<RData> {
    var n := GetName(data, limit, index);
    if n.Err? then Err(n.fault) else Ok(NS(n.value), n.index)
  }

  function GetCNAME(data: seq<byte>, limit: nat, index: nat): Got<RData> {
    var n := GetName(data, limit, index);
    if n.Err? then Err(n.fault) else Ok(CNAME(n.value), n.index)
  }

  function GetPTR(data: seq<byte>, limit: nat, index: nat): Got<RData> {
    var n := GetName(data, limit, index);
    if n.Err? then Err(n.fault) else Ok(PTR(n.value), n.index)
  }

  function GetTXT(data: seq<byte>, limit: nat, index: nat): Got<RData> {
    var s := GetStrings(data, limit, index);
    if s.Err? then Err(s.fault) else if s.value == [] then Err(BadArgument) else Ok(TXT(s.value), s.index)
  }

  function GetA(data: seq<byte>, limit: nat, index: nat): Got<RData> {
    var a := GetAddress(data, index, 4);
    if a.Err? then Err(a.fault) else Ok(A(a.value), a.index)
  }

  function GetAAAA(data: seq<byte>, limit: nat, index: nat): Got<RData> {
    var a := GetAddress(data, index, 16);
    if a.Err? then Err(a.fault) else Ok(AAAA(a.value), a.index)
  }

  /** The decode_rdata of a resource class: data, limit and index give the record data. */
  type RDataReader = (seq<byte>, nat, nat) -> Got<RData>

  /** Resource.get_class: the class registered for (rtype, rclass), or a generic class. */
  function GetClass(rtype: nat, rclass: nat): RDataReader {
    if !Registered(rtype, rclass) then
      (data: seq<byte>, limit: nat, index: nat) => GetGeneric(data, limit, index, rtype, rclass)
    else if rtype == 2 then GetNS
    else if rtype == 5 then GetCNAME
    else if rtype == 12 then GetPTR
    else if rtype == 6 then GetSOA
    else if rtype == 13 then GetHINFO
    else if rtype == 15 then GetMX
    else if rtype == 16 then GetTXT
    else if rtype == 1 then GetA
    else if rtype == 28 then GetAAAA
    else if rtype == 11 then GetWKS
    else if rtype == 33 then GetSRV
    else if rtype == 14 then (data: seq<byte>, limit: nat, index: nat) => Err(Unmodelled)
    else (data: seq<byte>, limit: nat, index: nat) => Err(IsQuery)
  }

  function GetRData(data: seq<byte>, limit: nat, index: nat, rtype: nat, rclass: nat): Got<RData> {
    GetClass(rtype, rclass)(data, limit, index)
  }

  /** get_length16 around the record data: the block must be used up exactly. */
  function GetLength16(data: seq<byte>, limit: nat, index: nat, rtype: nat, rclass: nat): Got<RData> {
    var len := Get16(data, limit, index);
    if len.Err? then Err(len.fault) else
    var inner := len.index + len.value;
    var d := GetRData(data, inner, len.index, rtype, rclass);
    if d.Err? then d
    else if d.index < inner then Err(Junk)
    else if inner < d.index then Err(LimitExceeded)
    else d
  }

  /** Type, class and time to live; the limit is checked once for all three. */
  function GetFixed(data: seq<byte>, limit: nat, index: nat): Got<(nat, nat, nat)> {
    if limit < index + 8 then Err(LimitExceeded) else
    var t, c, l := Get16(data, limit, index), Get16(data, limit, index + 2), Get32(data, limit, index + 4);
    if t.Err? || c.Err? || l.Err? then Err(PastEnd) else Ok((t.value, c.value, l.value), index + 8)
  }

  function GetRecord(data: seq<byte>, limit: nat, index: nat): Got<Record> {
    var n := GetName(data, limit, index);
    if n.Err? then Err(n.fault) else
    var f := GetFixed(data, limit, n.index);
    if f.Err? then Err(f.fault) else
    var d := GetLength16(data, limit, f.index, f.value.0, f.value.1);
    if d.Err? then Err(d.fault) else Ok(Record(n.value, f.value.2, d.value), d.index)
  }

  function GetQuestion(data: seq<byte>, limit: nat, index: nat): Got<Question> {
    var n := GetName(data, limit, index);
    if n.Err? then Err(n.fault) else
    if limit < n.index + 4 then Err(LimitExceeded) else
    var t, c := Get16(data, limit, n.index), Get16(data, limit, n.index + 2);
    if t.Err? || c.Err? then Err(PastEnd) else Ok(Question(n.value, t.value, c.value), n.index + 4)
  }

  /** Items read one behind the other. */
  function GetAll<T>(get: nat -> Got<T>, index: nat, count: nat): Got<seq<T>>
    decreases count
  {
    if count == 0 then Ok([], index)
    else
      var first := get(index);
      if first.Err? then Err(first.fault)
      else
        var rest := GetAll(get, first.index, count - 1);
        if rest.Err? then rest else Ok([first.value] + rest.value, rest.index)
  }

  function QuestionReader(data: seq<byte>): nat -> Got<Question> {
    (index: nat) => GetQuestion(data, |data|, index)
  }

  function RecordReader(data: seq<byte>): nat -> Got<Record> {
    (index: nat) => GetRecord(data, |data|, index)
  }

  /** The message with the header words of the data and no sections yet. */
  function HeaderOf(id: nat, flag: nat): Message {
    Message(id, flag / 0x8000 % 2, flag / 0x800 % 16, flag / 0x400 % 2, flag / 0x200 % 2,
            flag / 0x100 % 2, flag / 0x80 % 2, flag % 16, [], [], [], [])
  }

  function Word(data: seq<byte>, i: nat): nat
    requires 2 * i + 2 <= |data|
  {
    Unpack16(data[2 * i], data[2 * i + 1])
  }

  /** The four sections behind the header, one behind the other. */
  function GetSections(question: nat -> Got<Question>, record: nat -> Got<Record>, head: Message,
                       nq: nat, na: nat, nu: nat, nd: nat): Got<Message>
  {
    var q := GetAll(question, 12, nq);
    if q.Err? then Err(q.fault) else
    var a := GetAll(record, q.index, na);
    if a.Err? then Err(a.fault) else
    var u := GetAll(record, a.index, nu);
    if u.Err? then Err(u.fault) else
    var d := GetAll(record, u.index, nd);
    if d.Err? then Err(d.fault)
    else Ok(head.(question := q.value, answer := a.value, authority := u.value, additional := d.value), d.index)
  }

  /** Message.decode; bytes behind the last record are not looked at. */
  function Decode(data: seq<byte>): Got<Message> {
    if |data| < 12 then Err(LimitExceeded)
    else
      GetSections(QuestionReader(data), RecordReader(data), HeaderOf(Word(data, 0), Word(data, 1)),
                  Word(data, 2), Word(data, 3), Word(data, 4), Word(data, 5))
  }
}
