/**
 What is decoded can be encoded: a message read from any bytes, if it lies within them, satisfies
 everything the encoder needs, so it is decoded again from what is encoded.
 */
module DnsReencode {
  import opened DnsWire
  import opened DnsMessage
  import opened DnsEncoder
  import opened DnsDecoder
  import opened DnsRoundTrip
  import opened DnsRecords

  ghost predicate LabelsOk(labels: seq<Label>) {
    forall i :: 0 <= i < |labels| ==> 1 <= |labels[i]| <= 191
  }

  lemma StringDecoded(data: seq<byte>, limit: nat, at: nat)
    requires limit <= |data| && GetString(data, limit, at).Ok?
    ensures |GetString(data, limit, at).value| == data[at] < 256
  {
  }

  lemma {:induction false} LabelsDecoded(data: seq<byte>, limit: nat, at: nat, bound: nat)
    requires limit <= |data| && GetLabels(data, limit, at, bound).Ok?
    ensures LabelsOk(GetLabels(data, limit, at, bound).value) && at < GetLabels(data, limit, at, bound).index <= |data|
    decreases bound, if at < |data| then |data| - at else 0
  {
    if data[at] == 0 {
    } else if data[at] >= 192 {
      var target := Get16(data, limit, at).value % 0x4000;
      LabelsDecoded(data, limit, target, target);
    } else {
      var l := GetString(data, limit, at);
      StringDecoded(data, limit, at);
      LabelsDecoded(data, limit, l.index, bound);
    }
  }

  lemma NameDecoded(data: seq<byte>, limit: nat, at: nat)
    requires limit <= |data| && GetName(data, limit, at).Ok?
    ensures NameOk(GetName(data, limit, at).value) && at < GetName(data, limit, at).index <= |data|
  {
    LabelsDecoded(data, limit, at, at);
  }

  lemma WordDecoded(data: seq<byte>, limit: nat, at: nat)
    requires Get32(data, limit, at).Ok?
    ensures Bits32(Get32(data, limit, at).value)
  {
  }

  lemma {:induction false} StringsDecoded(data: seq<byte>, limit: nat, at: nat)
    requires limit <= |data| && GetStrings(data, limit, at).Ok?
    ensures forall i :: 0 <= i < |GetStrings(data, limit, at).value| ==> StringOk(GetStrings(data, limit, at).value[i])
    decreases if at < limit then limit - at else 0
  {
    if at < limit {
      StringDecoded(data, limit, at);
      StringsDecoded(data, limit, GetString(data, limit, at).index);
    }
  }

  lemma FiveDecoded(data: seq<byte>, limit: nat, at: nat)
    requires GetFive(data, limit, at).Ok?
    ensures var f := GetFive(data, limit, at).value;
            Bits32(f.0) && Bits32(f.1) && Bits32(f.2) && Bits32(f.3) && Bits32(f.4)
  {
    WordDecoded(data, limit, at);
    WordDecoded(data, limit, at + 4);
    WordDecoded(data, limit, at + 8);
    WordDecoded(data, limit, at + 12);
    WordDecoded(data, limit, at + 16);
  }

  lemma SOADecoded(data: seq<byte>, limit: nat, at: nat)
    requires limit <= |data| && GetSOA(data, limit, at).Ok?
    ensures RDataOk(GetSOA(data, limit, at).value)
  {
    var m := GetName(data, limit, at);
    var r := GetName(data, limit, m.index);
    NameDecoded(data, limit, at);
    NameDecoded(data, limit, m.index);
    FiveDecoded(data, limit, r.index);
  }

  lemma HINFODecoded(data: seq<byte>, limit: nat, at: nat)
    requires limit <= |data| && GetHINFO(data, limit, at).Ok?
    ensures RDataOk(GetHINFO(data, limit, at).value)
  {
    StringDecoded(data, limit, at);
    StringDecoded(data, limit, GetString(data, limit, at).index);
  }

  lemma MXDecoded(data: seq<byte>, limit: nat, at: nat)
    requires limit <= |data| && GetMX(data, limit, at).Ok?
    ensures RDataOk(GetMX(data, limit, at).value)
  {
    NameDecoded(data, limit, at + 2);
  }

  lemma SRVDecoded(data: seq<byte>, limit: nat, at: nat)
    requires limit <= |data| && GetSRV(data, limit, at).Ok?
    ensures RDataOk(GetSRV(data, limit, at).value)
  {
    NameDecoded(data, limit, at + 6);
  }

  lemma NamesDecoded(data: seq<byte>, limit: nat, at: nat)
    requires limit <= |data| && GetName(data, limit, at).Ok?
    ensures RDataOk(GetNS(data, limit, at).value) && RDataOk(GetCNAME(data, limit, at).value)
    ensures RDataOk(GetPTR(data, limit, at).value)
  {
    NameDecoded(data, limit, at);
  }

  /** Record data read from within the data satisfies what the encoder needs. */
  lemma RDataDecoded(data: seq<byte>, limit: nat, at: nat, rtype: nat, rclass: nat, g: Got<RData>)
    requires limit <= |data| && Bits16(rtype) && Bits16(rclass)
    requires g == GetRData(data, limit, at, rtype, rclass) && g.Ok?
    ensures RDataOk(g.value)
  {
    DecodedBearsItsNumbers(data, limit, at, rtype, rclass, g);
    if !g.value.Generic? {
      KnownType(data, limit, at, rtype, g);
      if rtype == 6 {
        SOADecoded(data, limit, at);
      } else if rtype == 13 {
        HINFODecoded(data, limit, at);
      } else if rtype == 15 {
        MXDecoded(data, limit, at);
      } else if rtype == 33 {
        SRVDecoded(data, limit, at);
      } else if rtype == 16 {
        StringsDecoded(data, limit, at);
      } else if rtype in {2, 5, 12} {
        NamesDecoded(data, limit, at);
      }
    }
  }

  lemma BlockDecoded(data: seq<byte>, at: nat, rtype: nat, rclass: nat)
    requires GetLength16(data, |data|, at, rtype, rclass).Ok? && Bits16(rtype) && Bits16(rclass)
    requires GetLength16(data, |data|, at, rtype, rclass).index <= |data|
    ensures RDataOk(GetLength16(data, |data|, at, rtype, rclass).value)
  {
    var len := Get16(data, |data|, at);
    var inner := len.index + len.value;
    RDataDecoded(data, inner, len.index, rtype, rclass, GetRData(data, inner, len.index, rtype, rclass));
  }

  /** A record that lies within the data. */
  lemma RecordDecoded(data: seq<byte>, at: nat)
    requires GetRecord(data, |data|, at).Ok? && GetRecord(data, |data|, at).index <= |data|
    ensures RecordOk(GetRecord(data, |data|, at).value)
  {
    var n := GetName(data, |data|, at);
    var f := GetFixed(data, |data|, n.index);
    NameDecoded(data, |data|, at);
    WordDecoded(data, |data|, n.index + 4);
    BlockDecoded(data, f.index, f.value.0, f.value.1);
  }

  lemma QuestionDecoded(data: seq<byte>, at: nat)
    requires GetQuestion(data, |data|, at).Ok?
    ensures QuestionOk(GetQuestion(data, |data|, at).value)
  {
    NameDecoded(data, |data|, at);
  }

  /** What the reader gives satisfies P as long as it lies in front of `end`, and it never goes back. */
  ghost predicate Gives<T(!new)>(get: nat -> Got<T>, P: T -> bool, end: nat) {
    forall i: nat :: get(i).Ok? ==> i <= get(i).index && (get(i).index <= end ==> P(get(i).value))
  }

  lemma {:induction false} AllDecoded<T(!new)>(get: nat -> Got<T>, P: T -> bool, end: nat, at: nat, n: nat)
    requires Gives(get, P, end) && GetAll(get, at, n).Ok?
    ensures var r := GetAll(get, at, n);
            |r.value| == n && at <= r.index && (r.index <= end ==> forall i :: 0 <= i < n ==> P(r.value[i]))
    decreases n
  {
    if n > 0 { AllDecoded(get, P, end, get(at).index, n - 1); }
  }

  lemma NameGoesOn(data: seq<byte>, at: nat)
    requires GetName(data, |data|, at).Ok?
    ensures at <= GetName(data, |data|, at).index
  {
    NameDecoded(data, |data|, at);
  }

  lemma RecordsGiven(data: seq<byte>, P: Record -> bool)
    requires forall r :: RecordOk(r) ==> P(r)
    ensures Gives(RecordReader(data), P, |data|)
  {
    var get := RecordReader(data);
    forall i: nat | get(i).Ok?
      ensures i <= get(i).index && (get(i).index <= |data| ==> P(get(i).value))
    {
      NameGoesOn(data, i);
      if get(i).index <= |data| { RecordDecoded(data, i); }
    }
  }

  lemma QuestionsGiven(data: seq<byte>, P: Question -> bool)
    requires forall q :: QuestionOk(q) ==> P(q)
    ensures Gives(QuestionReader(data), P, |data|)
  {
    var get := QuestionReader(data);
    forall i: nat | get(i).Ok?
      ensures i <= get(i).index && (get(i).index <= |data| ==> P(get(i).value))
    {
      NameGoesOn(data, i);
      QuestionDecoded(data, i);
    }
  }

  lemma SectionsDecoded(question: nat -> Got<Question>, record: nat -> Got<Record>, head: Message, nq: nat, na: nat,
                        nu: nat, nd: nat, end: nat, g: Got<Message>)
    requires Gives(question, (q: Question) => QuestionOk(q), end) && Gives(record, (r: Record) => RecordOk(r), end)
    requires g == GetSections(question, record, head, nq, na, nu, nd) && g.Ok? && g.index <= end
    requires MessageOk(head) && Bits16(nq) && Bits16(na) && Bits16(nu) && Bits16(nd)
    ensures MessageOk(g.value)
  {
    var P, Q := (r: Record) => RecordOk(r), (q: Question) => QuestionOk(q);
    var q := GetAll(question, 12, nq);
    var a := GetAll(record, q.index, na);
    var u := GetAll(record, a.index, nu);
    var d := GetAll(record, u.index, nd);
    AllDecoded(question, Q, end, 12, nq);
    AllDecoded(record, P, end, q.index, na);
    AllDecoded(record, P, end, a.index, nu);
    AllDecoded(record, P, end, u.index, nd);
    assert forall i :: 0 <= i < nq ==> Q(q.value[i]);
    assert forall i :: 0 <= i < na ==> P(a.value[i]);
    assert forall i :: 0 <= i < nu ==> P(u.value[i]);
    assert forall i :: 0 <= i < nd ==> P(d.value[i]);
  }

  /** A message decoded from any bytes, if no block of it reaches beyond them, can be encoded. */
  lemma DecodedIsOk(data: seq<byte>)
    requires Decode(data).Ok? && Decode(data).index <= |data|
    ensures MessageOk(Decode(data).value)
  {
    RecordsGiven(data, (r: Record) => RecordOk(r));
    QuestionsGiven(data, (q: Question) => QuestionOk(q));
    SectionsDecoded(QuestionReader(data), RecordReader(data), HeaderOf(Word(data, 0), Word(data, 1)),
                    Word(data, 2), Word(data, 3), Word(data, 4), Word(data, 5), |data|, Decode(data));
  }

  /** Decoding, encoding and decoding again is decoding once, up to the case of names. */
  lemma DecodedReturns(data: seq<byte>, m: Message)
    requires Decode(data).Ok? && Decode(data).index <= |data| && m == Decode(data).value && |Encode(m)| <= MAX_SIZE
    ensures GivesMessage(Decode(Encode(m)), m, |Encode(m)|)
  {
    DecodedIsOk(data);
    MessageRoundTrip(m);
  }
}
