/**
 MessageDecoder: the object that walks over a message with an index and a limit, proved
 against the functions of DnsDecoder. A raised exception is a Raise outcome; the index is not
 specified behind it.
 */
module DnsReader {
  import opened Common
  import opened DnsWire
  import opened DnsMessage
  import opened DnsDecoder

  type Outcome<+T> = Common.Outcome<T, Fault>

  /** The outcome and the index reached are what the specification says. */
  ghost predicate As<T>(o: Outcome<T>, index: nat, g: Got<T>) {
    if g.Ok? then o == Return(g.value) && index == g.index else o == Raise(g.fault)
  }

  /** Of a list read to its end, `done` has been collected and `rest` remains. */
  ghost predicate Continues<T>(all: Got<seq<T>>, done: seq<T>, rest: Got<seq<T>>) {
    if rest.Err? then all == Err(rest.fault) else all == Ok(done + rest.value, rest.index)
  }

  lemma ContinuesFirst<T>(all: Got<seq<T>>)
    ensures Continues(all, [], all)
  {
    if all.Ok? { assert [] + all.value == all.value; }
  }

  lemma ContinuesNext<T>(all: Got<seq<T>>, done: seq<T>, x: T, rest: Got<seq<T>>)
    requires Continues(all, done, if rest.Err? then rest else Ok([x] + rest.value, rest.index))
    ensures Continues(all, done + [x], rest)
  {
    if rest.Ok? { assert done + ([x] + rest.value) == done + [x] + rest.value; }
  }

  lemma AllNext<T>(get: nat -> Got<T>, all: Got<seq<T>>, done: seq<T>, index: nat, n: nat)
    requires n > 0 && Continues(all, done, GetAll(get, index, n))
    ensures var g := get(index);
            if g.Err? then all == Err(g.fault) else Continues(all, done + [g.value], GetAll(get, g.index, n - 1))
  {
    if get(index).Ok? { ContinuesNext(all, done, get(index).value, GetAll(get, get(index).index, n - 1)); }
  }

  lemma ContinuesLast<T>(all: Got<seq<T>>, done: seq<T>, index: nat)
    requires Continues(all, done, Ok([], index))
    ensures all == Ok(done, index)
  {
    assert done + [] == done;
  }

  function Gotten<T>(get: nat -> Got<T>, index: nat): Got<T> {
    get(index)
  }

  ghost predicate GetsRecords(get: nat -> Got<Record>, data: seq<byte>) {
    forall index {:trigger Gotten(get, index)} :: Gotten(get, index) == GetRecord(data, |data|, index)
  }

  class MessageDecoder {
    const data: seq<byte>
    var index: nat
    var limit: nat

    constructor (data: seq<byte>)
      ensures this.data == data && index == 0 && limit == |data|
    {
      this.data := data;
      index := 0;
      limit := |data|;
    }

    /** get_unpack first checks the limit for all the bytes it is going to take. */
    method CheckLimit(len: nat) returns (r: Outcome<()>)
      ensures r == if limit < index + len then Raise(LimitExceeded) else Return(())
    {
      return if limit < index + len then Raise(LimitExceeded) else Return(());
    }

    method Get16() returns (r: Outcome<nat>)
      modifies this`index
      ensures As(r, index, DnsDecoder.Get16(data, limit, old(index)))
    {
      var _ :- CheckLimit(2);
      if |data| < index + 2 { return Raise(PastEnd); }
      index := index + 2;
      return Return(Unpack16(data[index - 2], data[index - 1]));
    }

    method Get32() returns (r: Outcome<nat>)
      modifies this`index
      ensures As(r, index, DnsDecoder.Get32(data, limit, old(index)))
    {
      var _ :- CheckLimit(4);
      if |data| < index + 4 { return Raise(PastEnd); }
      index := index + 4;
      return Return(Unpack16(data[index - 4], data[index - 3]) * 0x1_0000 + Unpack16(data[index - 2], data[index - 1]));
    }

    method GetBytes(len: nat) returns (r: Outcome<seq<byte>>)
      modifies this`index
      ensures As(r, index, DnsDecoder.GetBytes(data, old(index), len))
    {
      if |data| < index { return Raise(PastEnd); }
      r := Return(Slice(data, index, len));
      index := index + len;
    }

    method GetString() returns (r: Outcome<seq<byte>>)
      modifies this`index
      ensures As(r, index, DnsDecoder.GetString(data, limit, old(index)))
    {
      if |data| <= index { return Raise(PastEnd); }
      var len: nat := data[index];
      var _ :- CheckLimit(1 + len);
      r := Return(Slice(data, index + 1, len));
      index := index + 1 + len;
    }

    method GetStringList() returns (r: Outcome<seq<seq<byte>>>)
      modifies this`index
      ensures As(r, index, GetStrings(data, limit, old(index)))
    {
      var strings := [];
      ghost var all := GetStrings(data, limit, index);
      ContinuesFirst(all);
      while index < limit
        invariant Continues(all, strings, GetStrings(data, limit, index))
        decreases limit - index
      {
        var s :- GetString();
        ContinuesNext(all, strings, s, GetStrings(data, limit, index));
        strings := strings + [s];
      }
      ContinuesLast(all, strings, index);
      return Return(strings);
    }

    /** get_labels: labels are collected in a loop, a pointer is followed by a recursive call
        below the position it points to. The bound is the source's optional limit argument. */
    method GetLabels(bound: nat) returns (r: Outcome<seq<Label>>)
      modifies this`index
      ensures var bound' := if old(index) < bound then old(index) else bound;
              As(r, index, DnsDecoder.GetLabels(data, limit, old(index), bound'))
      decreases bound
    {
      var limit' := if index < bound then index else bound;
      var d := [];
      ghost var all := DnsDecoder.GetLabels(data, limit, index, limit');
      ContinuesFirst(all);
      while index < |data|
        invariant Continues(all, d, DnsDecoder.GetLabels(data, limit, index, limit'))
        decreases |data| - index
      {
        if data[index] == 0 {
          index := index + 1;
          ContinuesLast(all, d, index);
          return Return(d);
        } else if data[index] >= 192 {
          var pointer :- Get16();
          var idx := pointer % 0x4000;
          if limit' <= idx { return Raise(NonBackward); }
          var saveIndex := index;
          index := idx;
          var rest :- GetLabels(idx);
          index := saveIndex;
          return Return(d + rest);
        } else {
          var l :- GetString();
          ContinuesNext(all, d, l, DnsDecoder.GetLabels(data, limit, index, limit'));
          d := d + [l];
        }
      }
      return Raise(PastEnd);
    }

    method GetName() returns (r: Outcome<Name>)
      modifies this`index
      ensures As(r, index, DnsDecoder.GetName(data, limit, old(index)))
    {
      var d :- GetLabels(index);
      return Return(Name(d, true));
    }

    // ---- decode_rdata of the resource classes

    method DecodeNS() returns (r: Outcome<RData>)
      modifies this`index
      ensures As(r, index, GetNS(data, limit, old(index)))
    {
      var n :- GetName();
      return Return(NS(n));
    }

    method DecodeCNAME() returns (r: Outcome<RData>)
      modifies this`index
      ensures As(r, index, GetCNAME(data, limit, old(index)))
    {
      var n :- GetName();
      return Return(CNAME(n));
    }

    method DecodePTR() returns (r: Outcome<RData>)
      modifies this`index
      ensures As(r, index, GetPTR(data, limit, old(index)))
    {
      var n :- GetName();
      return Return(PTR(n));
    }

    /** get_unpack('NNNNN') */
    method GetFive() returns (r: Outcome<(nat, nat, nat, nat, nat)>)
      modifies this`index
      ensures As(r, index, DnsDecoder.GetFive(data, limit, old(index)))
    {
      var _ :- CheckLimit(20);
      var a :- Get32();
      var b :- Get32();
      var c :- Get32();
      var d :- Get32();
      var e :- Get32();
      return Return((a, b, c, d, e));
    }

    method DecodeSOA() returns (r: Outcome<RData>)
      modifies this`index
      ensures As(r, index, GetSOA(data, limit, old(index)))
    {
      var m :- GetName();
      var n :- GetName();
      var five :- GetFive();
      return Return(SOA(m, n, five.0, five.1, five.2, five.3, five.4));
    }

    method DecodeHINFO() returns (r: Outcome<RData>)
      modifies this`index
      ensures As(r, index, GetHINFO(data, limit, old(index)))
    {
      var cpu :- GetString();
      var os :- GetString();
      return Return(HINFO(cpu, os));
    }

    method DecodeMX() returns (r: Outcome<RData>)
      modifies this`index
      ensures As(r, index, GetMX(data, limit, old(index)))
    {
      var preference :- Get16();
      var exchange :- GetName();
      return Return(MX(preference, exchange));
    }

    method DecodeTXT() returns (r: Outcome<RData>)
      modifies this`index
      ensures As(r, index, GetTXT(data, limit, old(index)))
    {
      var strings :- GetStringList();
      if strings == [] { return Raise(BadArgument); }
      return Return(TXT(strings));
    }

    method Address(len: nat) returns (r: Outcome<seq<byte>>)
      modifies this`index
      ensures As(r, index, GetAddress(data, old(index), len))
    {
      var a :- GetBytes(len);
      if |a| != len { return Raise(BadArgument); }
      return Return(a);
    }

    method DecodeWKS() returns (r: Outcome<RData>)
      modifies this`index
      ensures As(r, index, GetWKS(data, limit, old(index)))
    {
      var address :- Address(4);
      var protocol :- Get16();
      var bitmap :- GetBytes(limit - index);
      return Return(WKS(address, protocol, bitmap));
    }

    method DecodeSRV() returns (r: Outcome<RData>)
      modifies this`index
      ensures As(r, index, GetSRV(data, limit, old(index)))
    {
      var priority :- Get16();
      var weight :- Get16();
      var port :- Get16();
      var target :- GetName();
      return Return(SRV(priority, weight, port, target));
    }

    method DecodeGeneric(rtype: nat, rclass: nat) returns (r: Outcome<RData>)
      modifies this`index
      ensures As(r, index, GetGeneric(data, limit, old(index), rtype, rclass))
    {
      var bytes :- GetBytes(if index <= limit then limit - index else 0);
      return Return(Generic(rtype, rclass, bytes));
    }

    method DecodeA() returns (r: Outcome<RData>)
      modifies this`index
      ensures As(r, index, GetA(data, limit, old(index)))
    {
      var a :- Address(4);
      return Return(A(a));
    }

    method DecodeAAAA() returns (r: Outcome<RData>)
      modifies this`index
      ensures As(r, index, GetAAAA(data, limit, old(index)))
    {
      var a :- Address(16);
      return Return(AAAA(a));
    }

    method DecodeRData(rtype: nat, rclass: nat) returns (r: Outcome<RData>)
      modifies this`index
      ensures As(r, index, GetRData(data, limit, old(index), rtype, rclass))
    {
      if !Registered(rtype, rclass) { r := DecodeGeneric(rtype, rclass); }
      else if rtype == 2 { r := DecodeNS(); }
      else if rtype == 5 { r := DecodeCNAME(); }
      else if rtype == 12 { r := DecodePTR(); }
      else if rtype == 6 { r := DecodeSOA(); }
      else if rtype == 13 { r := DecodeHINFO(); }
      else if rtype == 15 { r := DecodeMX(); }
      else if rtype == 16 { r := DecodeTXT(); }
      else if rtype == 1 { r := DecodeA(); }
      else if rtype == 28 { r := DecodeAAAA(); }
      else if rtype == 11 { r := DecodeWKS(); }
      else if rtype == 33 { r := DecodeSRV(); }
      else if rtype == 14 { r := Raise(Unmodelled); }
      else { r := Raise(IsQuery); }
    }

    // ---- records, questions and the whole message

    /** get_length16: the limit is narrowed for the block and restored behind it. */
    method GetLength16(rtype: nat, rclass: nat) returns (r: Outcome<RData>)
      modifies this
      ensures As(r, index, DnsDecoder.GetLength16(data, old(limit), old(index), rtype, rclass))
      ensures r.Return? ==> limit == old(limit)
    {
      var len :- Get16();
      var saveLimit := limit;
      limit := index + len;
      var d :- DecodeRData(rtype, rclass);
      if index < limit {
        return Raise(Junk);
      } else if limit < index {
        return Raise(LimitExceeded);
      }
      limit := saveLimit;
      return Return(d);
    }

    method GetQuestion() returns (r: Outcome<Question>)
      modifies this`index
      ensures As(r, index, DnsDecoder.GetQuestion(data, limit, old(index)))
    {
      var name :- GetName();
      var _ :- CheckLimit(4);
      var qtype :- Get16();
      var qclass :- Get16();
      return Return(Question(name, qtype, qclass));
    }

    method GetFixed() returns (r: Outcome<(nat, nat, nat)>)
      modifies this`index
      ensures As(r, index, DnsDecoder.GetFixed(data, limit, old(index)))
    {
      var _ :- CheckLimit(8);
      var rtype :- Get16();
      var rclass :- Get16();
      var ttl :- Get32();
      return Return((rtype, rclass, ttl));
    }

    method GetRR() returns (r: Outcome<Record>)
      modifies this
      ensures As(r, index, GetRecord(data, old(limit), old(index)))
      ensures r.Return? ==> limit == old(limit)
    {
      var name :- GetName();
      var fixed :- GetFixed();
      var d :- GetLength16(fixed.0, fixed.1);
      return Return(Record(name, fixed.2, d));
    }

    method GetQuestions(count: nat) returns (r: Outcome<seq<Question>>)
      requires limit == |data|
      modifies this`index
      ensures As(r, index, GetAll(QuestionReader(data), old(index), count))
    {
      var qs := [];
      ghost var all := GetAll(QuestionReader(data), index, count);
      ContinuesFirst(all);
      for i := 0 to count
        invariant Continues(all, qs, GetAll(QuestionReader(data), index, count - i))
      {
        AllNext(QuestionReader(data), all, qs, index, count - i);
        var q :- GetQuestion();
        qs := qs + [q];
      }
      ContinuesLast(all, qs, index);
      return Return(qs);
    }

    /** A record where the limit is the end of the message. */
    method NextRR(ghost get: nat -> Got<Record>) returns (r: Outcome<Record>)
      requires limit == |data| && GetsRecords(get, data)
      modifies this
      ensures As(r, index, get(old(index)))
      ensures r.Return? ==> limit == |data|
    {
      assert Gotten(get, index) == GetRecord(data, |data|, index);
      r := GetRR();
    }

    method CollectRRs(count: nat, ghost get: nat -> Got<Record>) returns (r: Outcome<seq<Record>>)
      requires limit == |data| && GetsRecords(get, data)
      modifies this
      ensures As(r, index, GetAll(get, old(index), count))
      ensures r.Return? ==> limit == |data|
    {
      var rs := [];
      ghost var all := GetAll(get, index, count);
      ContinuesFirst(all);
      for i := 0 to count
        invariant limit == |data| && Continues(all, rs, GetAll(get, index, count - i))
      {
        AllNext(get, all, rs, index, count - i);
        var rr :- NextRR(get);
        rs := rs + [rr];
      }
      ContinuesLast(all, rs, index);
      return Return(rs);
    }

    method GetRRs(count: nat) returns (r: Outcome<seq<Record>>)
      requires limit == |data|
      modifies this
      ensures As(r, index, GetAll(RecordReader(data), old(index), count))
      ensures r.Return? ==> limit == |data|
    {
      r := CollectRRs(count, RecordReader(data));
    }

    /** get_unpack('nnnnnn') at the start of the message. */
    method GetHeader() returns (r: Outcome<seq<nat>>)
      requires limit == |data| && index == 0
      modifies this`index
      ensures if |data| < 12 then r == Raise(LimitExceeded)
              else index == 12 && r.Return? && |r.value| == 6 && forall i :: 0 <= i < 6 ==> r.value[i] == Word(data, i)
    {
      var _ :- CheckLimit(12);
      var words := [];
      for i := 0 to 6
        invariant index == 2 * i && |words| == i && forall k :: 0 <= k < i ==> words[k] == Word(data, k)
      {
        words := words + [Unpack16(data[index], data[index + 1])];
        index := index + 2;
      }
      return Return(words);
    }

    /** The block of Message.decode behind the header words. */
    method GetSections(head: Message, nq: nat, na: nat, nu: nat, nd: nat) returns (r: Outcome<Message>)
      requires limit == |data| && index == 12
      modifies this
      ensures As(r, index, DnsDecoder.GetSections(QuestionReader(data), RecordReader(data), head, nq, na, nu, nd))
    {
      var q :- GetQuestions(nq);
      var a :- GetRRs(na);
      var u :- GetRRs(nu);
      var d :- GetRRs(nd);
      return Return(head.(question := q, answer := a, authority := u, additional := d));
    }
  }

  /** Message.decode */
  method Decode(data: seq<byte>) returns (r: Outcome<Message>)
    ensures var g := DnsDecoder.Decode(data);
            r == if g.Ok? then Return(g.value) else Raise(g.fault)
  {
    var msg := new MessageDecoder(data);
    var w :- msg.GetHeader();
    r := msg.GetSections(HeaderOf(w[0], w[1]), w[2], w[3], w[4], w[5]);
  }
}
