/**
 MessageEncoder and MessageDecoder: the objects that build and read a message in place,
 proved against the functions of DnsEncoder and DnsDecoder.
 */
module DnsCodec {
  import opened DnsWire
  import opened DnsMessage
  import W = DnsEncoder
  import R = DnsDecoder

  /** Putting ts behind data leaves the bytes whole and the table after. */
  ghost predicate Remaining<T>(put: (W.Names, nat, T) -> W.Part, whole: seq<byte>, after: W.Names,
                               data: seq<byte>, names: W.Names, ts: seq<T>)
  {
    var p := W.PutAll(put, names, |data|, ts);
    whole == data + p.bytes && after == p.names
  }

  lemma PutFirst<T>(put: (W.Names, nat, T) -> W.Part, whole: seq<byte>, after: W.Names,
                    data: seq<byte>, names: W.Names, ts: seq<T>)
    requires ts != [] && Remaining(put, whole, after, data, names, ts)
    ensures var first := put(names, |data|, ts[0]);
            Remaining(put, whole, after, data + first.bytes, first.names, ts[1..])
  {
  }

  lemma PutBehind<S, T>(put: (W.Names, nat, S) -> W.Part, put': (W.Names, nat, T) -> W.Part,
                        data: seq<byte>, names: W.Names, data': seq<byte>, names': W.Names, ss: seq<S>, ts: seq<T>)
    requires var p := W.PutAll(put, names, |data|, ss); data' == data + p.bytes && names' == p.names
    ensures var p := W.PutAll(put', names', |data'|, ts);
            var both := W.PutBoth(put, put', names, |data|, ss, ts);
            data' + p.bytes == data + both.bytes && p.names == both.names
  {
  }

  ghost predicate LabelsRemaining(whole: seq<byte>, after: W.Names, data: seq<byte>, names: W.Names, d: seq<Label>) {
    var p := W.PutLabels(names, |data|, d);
    whole == data + p.bytes && after == p.names
  }

  lemma PutFirstLabel(whole: seq<byte>, after: W.Names, data: seq<byte>, names: W.Names, d: seq<Label>)
    requires d != [] && Fold(d) !in names && LabelsRemaining(whole, after, data, names, d)
    ensures LabelsRemaining(whole, after, data + W.PutString(d[0]), names[Fold(d) := |data|], d[1..])
  {
  }

  class MessageEncoder {
    var data: seq<byte>
    var names: W.Names

    constructor ()
      ensures data == [] && names == map[]
    {
      data := [];
      names := map[];
    }

    /** What a call appends, given what was there before it. */
    twostate predicate Appended(p: W.Part)
      reads this
    {
      data == old(data) + p.bytes && names == p.names
    }

    method PutBytes(d: seq<byte>)
      modifies this`data
      ensures data == old(data) + d
    {
      data := data + d;
    }

    method PutString(d: seq<byte>)
      modifies this`data
      ensures data == old(data) + W.PutString(d)
    {
      data := data + [|d| % 0x100];
      data := data + d;
    }

    method PutStringList(ds: seq<seq<byte>>)
      modifies this`data
      ensures data == old(data) + W.PutStrings(ds)
    {
      for i := 0 to |ds|
        invariant old(data) + W.PutStrings(ds) == data + W.PutStrings(ds[i..])
      {
        PutString(ds[i]);
        assert ds[i..][1..] == ds[i + 1..];
      }
    }

    /** put_labels: the suffix table is searched and filled label by label. */
    method PutLabels(d: seq<Label>)
      modifies this
      ensures Appended(W.PutLabels(old(names), |old(data)|, d))
    {
      ghost var p := W.PutLabels(names, |data|, d);
      for i := 0 to |d|
        invariant LabelsRemaining(old(data) + p.bytes, p.names, data, names, d[i..])
      {
        var domain := Fold(d[i..]);
        if domain in names {
          PutBytes(Pack16(0xc000 + names[domain] % 0x4000));
          return;
        }
        assert d[i..][0] == d[i] && d[i..][1..] == d[i + 1..];
        PutFirstLabel(old(data) + p.bytes, p.names, data, names, d[i..]);
        names := names[domain := |data|];
        PutString(d[i]);
      }
      PutBytes([0]);
    }

    method PutName(name: Name)
      modifies this
      ensures Appended(W.PutName(old(names), |old(data)|, name))
    {
      PutLabels(name.labels);
    }

    /** encode_rdata of the class of d */
    method EncodeRData(d: RData)
      modifies this
      ensures Appended(W.PutRData(old(names), |old(data)|, d))
    {
      match d
      case NS(name) => PutName(name);
      case CNAME(name) => PutName(name);
      case PTR(name) => PutName(name);
      case SOA(_, _, _, _, _, _, _) => EncodeSOA(d);
      case HINFO(cpu, os) =>
        PutString(cpu);
        PutString(os);
      case MX(_, _) => EncodeMX(d);
      case TXT(strings) => PutStringList(strings);
      case A(address) => PutBytes(address);
      case WKS(address, protocol, bitmap) =>
        PutBytes(address);
        PutBytes(Pack16(protocol));
        PutBytes(bitmap);
      case AAAA(address) => PutBytes(address);
      case SRV(_, _, _, _) => EncodeSRV(d);
      case Generic(_, _, bytes) => PutBytes(bytes);
    }

    method EncodeSOA(d: RData)
      requires d.SOA?
      modifies this
      ensures Appended(W.PutSOA(old(names), |old(data)|, d))
    {
      PutName(d.mname);
      PutName(d.rname);
      PutBytes(Pack32(d.serial) + (Pack32(d.refresh) + (Pack32(d.retry) + (Pack32(d.expire) + Pack32(d.minimum)))));
    }

    method EncodeMX(d: RData)
      requires d.MX?
      modifies this
      ensures Appended(W.PutMX(old(names), |old(data)|, d))
    {
      PutBytes(Pack16(d.preference));
      PutName(d.exchange);
    }

    method EncodeSRV(d: RData)
      requires d.SRV?
      modifies this
      ensures Appended(W.PutSRV(old(names), |old(data)|, d))
    {
      PutBytes(Pack16(d.priority));
      PutBytes(Pack16(d.weight));
      PutBytes(Pack16(d.port));
      PutName(d.target);
    }

    /** put_length16: two zero bytes are patched once the length of what follows is known. */
    method PutLength16(d: RData)
      modifies this
      ensures Appended(W.PutLength16(old(names), |old(data)|, d))
    {
      var lengthIndex := |data|;
      PutBytes([0, 0]);
      var dataStart := |data|;
      EncodeRData(d);
      var dataEnd := |data|;
      ghost var body := W.PutRData(old(names), dataStart, d).bytes;
      assert data == old(data) + [0, 0] + body;
      data := data[..lengthIndex] + Pack16(dataEnd - dataStart) + data[lengthIndex + 2..];
      assert data == old(data) + (Pack16(|body|) + body);
    }

    method PutQuestion(q: Question)
      modifies this
      ensures Appended(W.PutQuestion(old(names), |old(data)|, q))
    {
      PutName(q.name);
      PutBytes(Pack16(q.qtype) + Pack16(q.qclass));
    }

    method PutRecord(r: Record)
      modifies this
      ensures Appended(W.PutRecord(old(names), |old(data)|, r))
    {
      PutName(r.name);
      PutBytes(Pack16(TypeOf(r.data)) + (Pack16(ClassOf(r.data)) + Pack32(r.ttl)));
      PutLength16(r.data);
    }

    method PutQuestions(qs: seq<Question>)
      modifies this
      ensures Appended(W.PutAll(W.PutQuestion, old(names), |old(data)|, qs))
    {
      ghost var p := W.PutAll(W.PutQuestion, names, |data|, qs);
      for i := 0 to |qs|
        invariant Remaining(W.PutQuestion, old(data) + p.bytes, p.names, data, names, qs[i..])
      {
        assert qs[i..][0] == qs[i] && qs[i..][1..] == qs[i + 1..];
        PutFirst(W.PutQuestion, old(data) + p.bytes, p.names, data, names, qs[i..]);
        PutQuestion(qs[i]);
      }
    }

    method PutRecords(rs: seq<Record>)
      modifies this
      ensures Appended(W.PutAll(W.PutRecord, old(names), |old(data)|, rs))
    {
      ghost var p := W.PutAll(W.PutRecord, names, |data|, rs);
      for i := 0 to |rs|
        invariant Remaining(W.PutRecord, old(data) + p.bytes, p.names, data, names, rs[i..])
      {
        assert rs[i..][0] == rs[i] && rs[i..][1..] == rs[i + 1..];
        PutFirst(W.PutRecord, old(data) + p.bytes, p.names, data, names, rs[i..]);
        PutRecord(rs[i]);
      }
    }

    method PutBody(qs: seq<Question>, rs: seq<Record>)
      modifies this
      ensures Appended(W.PutBody(old(names), |old(data)|, qs, rs))
    {
      PutQuestions(qs);
      ghost var data', names' := data, names;
      PutRecords(rs);
      PutBehind(W.PutQuestion, W.PutRecord, old(data), old(names), data', names', qs, rs);
    }
  }

  /** Message#encode */
  method Encode(m: Message) returns (data: seq<byte>)
    ensures data == W.Encode(m)
  {
    var msg := new MessageEncoder();
    msg.PutBytes(W.Header(m));
    msg.PutBody(m.question, m.answer + m.authority + m.additional);
    data := msg.data;
  }
}
