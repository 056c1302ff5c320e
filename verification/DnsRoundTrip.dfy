/**
 Decoding an encoded message gives the message back, in spite of name compression.
 The invariant: every entry of the suffix table points below the position reached, to a place
 where the decoder reads exactly the labels of its key, following backward pointers only.
 */
module DnsRoundTrip {
  import opened DnsWire
  import opened DnsMessage
  import opened DnsEncoder
  import opened DnsDecoder

  /** The largest message all of whose positions fit into a pointer. */
  const MAX_SIZE := 0x4000

  /** A successful read stays the same under a larger limit and a larger bound. */
  lemma {:induction false} LabelsMonotone(data: seq<byte>, limit: nat, limit': nat, index: nat, bound: nat, bound': nat)
    requires limit <= limit' && bound <= bound' && GetLabels(data, limit, index, bound).Ok?
    ensures GetLabels(data, limit', index, bound') == GetLabels(data, limit, index, bound)
    decreases bound, if index < |data| then |data| - index else 0
  {
    if data[index] == 0 {
    } else if data[index] >= 192 {
      var target := Get16(data, limit, index).value % 0x4000;
      LabelsMonotone(data, limit, limit', target, target, target);
    } else {
      LabelsMonotone(data, limit, limit', GetString(data, limit, index).index, bound, bound');
    }
  }

  /** Reading at `at` below the bound, within the limit, gives labels equal to the key. */
  ghost predicate Denotes(data: seq<byte>, limit: nat, at: nat, bound: nat, k: Key) {
    GetLabels(data, limit, at, bound).Ok? && Fold(GetLabels(data, limit, at, bound).value) == k
  }

  /** A pointer to this position, below upto, reads as the key. */
  ghost predicate Entry(data: seq<byte>, upto: nat, position: nat, k: Key) {
    position < upto && Denotes(data, upto, position, position, k)
  }

  ghost predicate NamesOk(data: seq<byte>, names: Names, upto: nat) {
    forall k {:trigger Entry(data, upto, names[k], k)} :: k in names ==> Entry(data, upto, names[k], k)
  }

  lemma NamesOkLater(data: seq<byte>, names: Names, upto: nat, upto': nat)
    requires NamesOk(data, names, upto) && upto <= upto'
    ensures NamesOk(data, names, upto')
  {
    forall k | k in names
      ensures Entry(data, upto', names[k], k)
    {
      assert Entry(data, upto, names[k], k);
      LabelsMonotone(data, upto, upto', names[k], names[k], names[k]);
    }
  }

  predicate LabelsOk(d: seq<Label>) {
    forall i :: 0 <= i < |d| ==> 1 <= |d[i]| <= 191
  }

  /** What put_labels leaves in the table: old entries, and entries for suffixes of this name. */
  ghost predicate TableAfter(data: seq<byte>, names: Names, after: Names, at: nat, stop: nat, start: nat) {
    && (forall k :: k in names ==> k in after && after[k] == names[k])
    && (forall k {:trigger Denotes(data, stop, after[k], start, k)} :: k in after && k !in names ==>
          at <= after[k] < stop && Denotes(data, stop, after[k], start, k))
  }

  lemma PointerValue(idx: nat)
    requires idx < MAX_SIZE
    ensures var p := Pack16(0xc000 + idx % 0x4000);
            p[0] >= 192 && Unpack16(p[0], p[1]) % 0x4000 == idx
  {
    Pack16RoundTrip(0xc000 + idx);
  }

  lemma PutPointerReads(data: seq<byte>, names: Names, at: nat, d: seq<Label>, start: nat)
    requires |data| <= MAX_SIZE && d != [] && Fold(d) in names && start <= at
    requires names[Fold(d)] < start && Denotes(data, start, names[Fold(d)], names[Fold(d)], Fold(d))
    requires Window(data, at, PutLabels(names, at, d).bytes)
    ensures var g := GetLabels(data, at + 2, at, start);
            g.Ok? && g.index == at + 2 && Fold(g.value) == Fold(d)
  {
    var idx := names[Fold(d)];
    var w := PutLabels(names, at, d).bytes;
    WindowAt(data, at, w, 0);
    WindowAt(data, at, w, 1);
    PointerValue(idx);
    LabelsMonotone(data, start, at + 2, idx, idx, idx);
  }

  lemma LabelReads(data: seq<byte>, limit: nat, at: nat, l: Label)
    requires 1 <= |l| <= 191 && Window(data, at, PutString(l)) && at + 1 + |l| <= limit
    ensures GetString(data, limit, at) == Ok(l, at + 1 + |l|) && 1 <= data[at] < 192
  {
    WindowAt(data, at, PutString(l), 0);
    forall i | 0 <= i < |l|
      ensures data[at + 1 + i] == l[i]
    {
      WindowAt(data, at, PutString(l), 1 + i);
    }
    assert data[at + 1..at + 1 + |l|] == l;
  }

  /** The labels d are read at `at` and end at `stop`. */
  ghost predicate ReadsLabels(data: seq<byte>, at: nat, stop: nat, start: nat, d: seq<Label>) {
    var g := GetLabels(data, stop, at, start);
    g.Ok? && g.index == stop && Fold(g.value) == Fold(d)
  }

  lemma LabelThenRest(data: seq<byte>, at: nat, stop: nat, start: nat, d: seq<Label>)
    requires d != [] && 1 <= |d[0]| <= 191 && Window(data, at, PutString(d[0])) && at + 1 + |d[0]| <= stop
    requires ReadsLabels(data, at + 1 + |d[0]|, stop, start, d[1..])
    ensures ReadsLabels(data, at, stop, start, d)
  {
    LabelReads(data, stop, at, d[0]);
    var rest := GetLabels(data, stop, at + 1 + |d[0]|, start).value;
    assert GetLabels(data, stop, at, start) == Ok([d[0]] + rest, stop);
    FoldTail(d);
    FoldTail([d[0]] + rest);
    assert ([d[0]] + rest)[1..] == rest;
  }

  /** The entries for at most n labels can be pointed to from a name that starts at start. */
  ghost predicate Usable(data: seq<byte>, names: Names, start: nat, n: nat) {
    forall k {:trigger Entry(data, start, names[k], k)} :: k in names && |k| <= n ==> Entry(data, start, names[k], k)
  }

  /** Name compression is read back: the labels, where they end, and every recorded suffix. */
  lemma {:induction false} PutLabelsReads(data: seq<byte>, names: Names, at: nat, d: seq<Label>, start: nat, r: Part,
                                          stop: nat)
    requires |data| <= MAX_SIZE && LabelsOk(d) && start <= at
    requires r == PutLabels(names, at, d) && stop == at + |r.bytes| && Window(data, at, r.bytes)
    requires Usable(data, names, start, |d|)
    ensures ReadsLabels(data, at, stop, start, d)
    ensures TableAfter(data, names, r.names, at, stop, start)
    decreases |d|
  {
    if d == [] || Fold(d) in names {
      PutShortReads(data, names, at, d, start, r);
    } else {
      var names', at' := names[Fold(d) := at], at + 1 + |d[0]|;
      var rest := PutLabels(names', at', d[1..]);
      assert r.bytes == PutString(d[0]) + rest.bytes && r.names == rest.names;
      WindowSplit(data, at, PutString(d[0]), rest.bytes);
      assert Usable(data, names', start, |d[1..]|) by {
        forall k | k in names' && |k| <= |d[1..]|
          ensures Entry(data, start, names'[k], k)
        {
          assert Entry(data, start, names[k], k);
        }
      }
      PutLabelsReads(data, names', at', d[1..], start, rest, stop);
      LabelThenRest(data, at, stop, start, d);
      TableWithHead(data, names, r.names, at, stop, start, d);
    }
  }

  /** A name that ends here, with the zero byte or with a pointer. */
  lemma PutShortReads(data: seq<byte>, names: Names, at: nat, d: seq<Label>, start: nat, r: Part)
    requires |data| <= MAX_SIZE && start <= at && (d == [] || Fold(d) in names)
    requires r == PutLabels(names, at, d) && Window(data, at, r.bytes)
    requires Usable(data, names, start, |d|)
    ensures ReadsLabels(data, at, at + |r.bytes|, start, d) && r.names == names
  {
    if d == [] {
      WindowAt(data, at, r.bytes, 0);
    } else {
      assert Entry(data, start, names[Fold(d)], Fold(d));
      PutPointerReads(data, names, at, d, start);
    }
  }

  lemma TableWithHead(data: seq<byte>, names: Names, after: Names, at: nat, stop: nat, start: nat, d: seq<Label>)
    requires d != [] && Fold(d) !in names && at < stop
    requires TableAfter(data, names[Fold(d) := at], after, at + 1 + |d[0]|, stop, start)
    requires ReadsLabels(data, at, stop, start, d)
    ensures TableAfter(data, names, after, at, stop, start)
  {
    var names' := names[Fold(d) := at];
    assert Fold(d) in names' && after[Fold(d)] == at;
    forall k | k in names
      ensures k in after && after[k] == names[k]
    {
      assert k in names' && names'[k] == names[k];
    }
    forall k | k in after && k !in names
      ensures at <= after[k] < stop && Denotes(data, stop, after[k], start, k)
    {
      if k != Fold(d) {
        assert k !in names';
        assert Denotes(data, stop, after[k], start, k);
      }
    }
  }

  /** A table grown by one name still satisfies the invariant. */
  lemma TableOk(data: seq<byte>, names: Names, after: Names, at: nat, stop: nat)
    requires NamesOk(data, names, at) && at <= stop && TableAfter(data, names, after, at, stop, at)
    ensures NamesOk(data, after, stop)
  {
    NamesOkLater(data, names, at, stop);
    forall k | k in after
      ensures Entry(data, stop, after[k], k)
    {
      if k in names {
        assert Entry(data, stop, names[k], k);
      } else {
        assert Denotes(data, stop, after[k], at, k);
        LabelsMonotone(data, stop, stop, after[k], at, after[k]);
      }
    }
  }

  /** What get_name gives for a name that ends at stop. */
  ghost predicate GivesName(g: Got<Name>, name: Name, stop: nat) {
    g.Ok? && g.index == stop && SameName(name, g.value)
  }

  lemma LabelsMakeName(data: seq<byte>, limit: nat, at: nat, stop: nat, name: Name)
    requires name.absolute && ReadsLabels(data, at, stop, at, name.labels) && stop <= limit
    ensures GivesName(GetName(data, limit, at), name, stop)
  {
    LabelsMonotone(data, stop, limit, at, at, at);
  }

  /** The bytes lie at `at` in a message small enough for pointers, with a good table. */
  ghost predicate Placed(data: seq<byte>, names: Names, at: nat, r: Part) {
    |data| <= MAX_SIZE && NamesOk(data, names, at) && Window(data, at, r.bytes)
  }

  /** A name put with put_name is read back by get_name, whatever limit lies behind it. */
  lemma NameReads(data: seq<byte>, limit: nat, names: Names, at: nat, name: Name, r: Part)
    requires NameOk(name) && r == PutName(names, at, name) && Placed(data, names, at, r) && at + |r.bytes| <= limit
    ensures GivesName(GetName(data, limit, at), name, at + |r.bytes|) && NamesOk(data, r.names, at + |r.bytes|)
  {
    var stop := at + |r.bytes|;
    PutLabelsReads(data, names, at, name.labels, at, r, stop);
    LabelsMakeName(data, limit, at, stop, name);
    TableOk(data, names, r.names, at, stop);
  }

  // ---- integers, strings and plain bytes

  lemma Int16Reads(data: seq<byte>, limit: nat, at: nat, x: nat)
    requires Bits16(x) && Window(data, at, Pack16(x)) && at + 2 <= limit
    ensures Get16(data, limit, at) == Ok(x, at + 2)
  {
    WindowAt(data, at, Pack16(x), 0);
    WindowAt(data, at, Pack16(x), 1);
    Pack16RoundTrip(x);
  }

  lemma Int32Reads(data: seq<byte>, limit: nat, at: nat, x: nat)
    requires Bits32(x) && Window(data, at, Pack32(x)) && at + 4 <= limit
    ensures Get32(data, limit, at) == Ok(x, at + 4)
  {
    WindowAt(data, at, Pack32(x), 0);
    WindowAt(data, at, Pack32(x), 1);
    WindowAt(data, at, Pack32(x), 2);
    WindowAt(data, at, Pack32(x), 3);
    Pack32RoundTrip(x);
  }

  lemma StringReads(data: seq<byte>, limit: nat, at: nat, s: seq<byte>)
    requires StringOk(s) && Window(data, at, PutString(s)) && at + 1 + |s| <= limit
    ensures GetString(data, limit, at) == Ok(s, at + 1 + |s|)
  {
    WindowAt(data, at, PutString(s), 0);
    forall i | 0 <= i < |s|
      ensures data[at + 1 + i] == s[i]
    {
      WindowAt(data, at, PutString(s), 1 + i);
    }
    assert data[at + 1..at + 1 + |s|] == s;
  }

  lemma {:induction false} StringsReads(data: seq<byte>, limit: nat, at: nat, ss: seq<seq<byte>>)
    requires forall i :: 0 <= i < |ss| ==> StringOk(ss[i])
    requires Window(data, at, PutStrings(ss)) && limit == at + |PutStrings(ss)|
    ensures GetStrings(data, limit, at) == Ok(ss, limit)
    decreases |ss|
  {
    if ss != [] {
      WindowSplit(data, at, PutString(ss[0]), PutStrings(ss[1..]));
      StringReads(data, limit, at, ss[0]);
      StringsReads(data, limit, at + 1 + |ss[0]|, ss[1..]);
      assert [ss[0]] + ss[1..] == ss;
    }
  }

  lemma BytesRead(data: seq<byte>, at: nat, b: seq<byte>)
    requires Window(data, at, b)
    ensures GetBytes(data, at, |b|) == Ok(b, at + |b|)
  {
    assert data[at..at + |b|] == b;
  }

  // ---- record data

  /** The read g gives d, up to the case of names, and ends at stop. */
  ghost predicate GivesData(g: Got<RData>, d: RData, stop: nat) {
    g.Ok? && g.index == stop && SameRData(d, g.value)
  }

  lemma FiveReads(data: seq<byte>, limit: nat, at: nat, a: nat, b: nat, c: nat, d: nat, e: nat)
    requires Bits32(a) && Bits32(b) && Bits32(c) && Bits32(d) && Bits32(e) && at + 20 <= limit
    requires Window(data, at, Pack32(a) + (Pack32(b) + (Pack32(c) + (Pack32(d) + Pack32(e)))))
    ensures GetFive(data, limit, at) == Ok((a, b, c, d, e), at + 20)
  {
    WindowSplit(data, at, Pack32(a), Pack32(b) + (Pack32(c) + (Pack32(d) + Pack32(e))));
    WindowSplit(data, at + 4, Pack32(b), Pack32(c) + (Pack32(d) + Pack32(e)));
    WindowSplit(data, at + 8, Pack32(c), Pack32(d) + Pack32(e));
    WindowSplit(data, at + 12, Pack32(d), Pack32(e));
    Int32Reads(data, limit, at, a);
    Int32Reads(data, limit, at + 4, b);
    Int32Reads(data, limit, at + 8, c);
    Int32Reads(data, limit, at + 12, d);
    Int32Reads(data, limit, at + 16, e);
  }

  lemma SOAFields(data: seq<byte>, at: nat, mid: nat, tail: nat, d: RData, stop: nat)
    requires d.SOA? && RDataOk(d) && stop == tail + 20
    requires GivesName(GetName(data, stop, at), d.mname, mid) && GivesName(GetName(data, stop, mid), d.rname, tail)
    requires Window(data, tail,
        Pack32(d.serial) + (Pack32(d.refresh) + (Pack32(d.retry) + (Pack32(d.expire) + Pack32(d.minimum)))))
    ensures GivesData(GetSOA(data, stop, at), d, stop)
  {
    FiveReads(data, stop, tail, d.serial, d.refresh, d.retry, d.expire, d.minimum);
  }

  /** Two names put one behind the other are both read back. */
  lemma TwoNamesRead(data: seq<byte>, limit: nat, names: Names, at: nat, a: Name, b: Name, m: Part, n: Part)
    requires NameOk(a) && m == PutName(names, at, a) && Placed(data, names, at, m)
    requires NameOk(b) && n == PutName(m.names, at + |m.bytes|, b) && Window(data, at + |m.bytes|, n.bytes)
    requires at + |m.bytes| + |n.bytes| <= limit
    ensures GivesName(GetName(data, limit, at), a, at + |m.bytes|)
    ensures GivesName(GetName(data, limit, at + |m.bytes|), b, at + |m.bytes| + |n.bytes|)
    ensures NamesOk(data, n.names, at + |m.bytes| + |n.bytes|)
  {
    NameReads(data, limit, names, at, a, m);
    NameReads(data, limit, m.names, at + |m.bytes|, b, n);
  }

  lemma SOAReads(data: seq<byte>, names: Names, at: nat, d: RData, r: Part, stop: nat)
    requires d.SOA? && RDataOk(d) && r == PutSOA(names, at, d) && Placed(data, names, at, r) && stop == at + |r.bytes|
    ensures GivesData(GetSOA(data, stop, at), d, stop) && NamesOk(data, r.names, stop)
  {
    var m := PutName(names, at, d.mname);
    var mid := at + |m.bytes|;
    var n := PutName(m.names, mid, d.rname);
    var five := Pack32(d.serial) + (Pack32(d.refresh) + (Pack32(d.retry) + (Pack32(d.expire) + Pack32(d.minimum))));
    assert r.bytes == m.bytes + (n.bytes + five) && r.names == n.names;
    WindowSplit(data, at, m.bytes, n.bytes + five);
    WindowSplit(data, mid, n.bytes, five);
    TwoNamesRead(data, stop, names, at, d.mname, d.rname, m, n);
    SOAFields(data, at, mid, mid + |n.bytes|, d, stop);
    NamesOkLater(data, n.names, mid + |n.bytes|, stop);
  }

  lemma HINFOReads(data: seq<byte>, at: nat, d: RData, stop: nat)
    requires d.HINFO? && RDataOk(d) && stop == at + |d.cpu| + |d.os| + 2
    requires Window(data, at, PutString(d.cpu) + PutString(d.os))
    ensures GetHINFO(data, stop, at) == Ok(d, stop)
  {
    WindowSplit(data, at, PutString(d.cpu), PutString(d.os));
    StringReads(data, stop, at, d.cpu);
    StringReads(data, stop, at + 1 + |d.cpu|, d.os);
  }

  lemma MXReads(data: seq<byte>, names: Names, at: nat, d: RData, r: Part, stop: nat)
    requires d.MX? && RDataOk(d) && r == PutMX(names, at, d) && Placed(data, names, at, r) && stop == at + |r.bytes|
    ensures GivesData(GetMX(data, stop, at), d, stop) && NamesOk(data, r.names, stop)
  {
    var e := PutName(names, at + 2, d.exchange);
    WindowSplit(data, at, Pack16(d.preference), e.bytes);
    Int16Reads(data, stop, at, d.preference);
    NamesOkLater(data, names, at, at + 2);
    NameReads(data, stop, names, at + 2, d.exchange, e);
  }

  lemma WKSReads(data: seq<byte>, at: nat, d: RData, stop: nat)
    requires d.WKS? && RDataOk(d) && stop == at + 6 + |d.bitmap|
    requires Window(data, at, d.address + (Pack16(d.protocol) + d.bitmap))
    ensures GetWKS(data, stop, at) == Ok(d, stop)
  {
    WindowSplit(data, at, d.address, Pack16(d.protocol) + d.bitmap);
    WindowSplit(data, at + 4, Pack16(d.protocol), d.bitmap);
    BytesRead(data, at, d.address);
    Int16Reads(data, stop, at + 4, d.protocol);
    BytesRead(data, at + 6, d.bitmap);
  }

  lemma SRVReads(data: seq<byte>, names: Names, at: nat, d: RData, r: Part, stop: nat)
    requires d.SRV? && RDataOk(d) && r == PutSRV(names, at, d) && Placed(data, names, at, r) && stop == at + |r.bytes|
    ensures GivesData(GetSRV(data, stop, at), d, stop) && NamesOk(data, r.names, stop)
  {
    var t := PutName(names, at + 6, d.target);
    WindowSplit(data, at, Pack16(d.priority), Pack16(d.weight) + (Pack16(d.port) + t.bytes));
    WindowSplit(data, at + 2, Pack16(d.weight), Pack16(d.port) + t.bytes);
    WindowSplit(data, at + 4, Pack16(d.port), t.bytes);
    Int16Reads(data, stop, at, d.priority);
    Int16Reads(data, stop, at + 2, d.weight);
    Int16Reads(data, stop, at + 4, d.port);
    NamesOkLater(data, names, at, at + 6);
    NameReads(data, stop, names, at + 6, d.target, t);
  }

  predicate Nameless(d: RData) {
    d.HINFO? || d.TXT? || d.A? || d.WKS? || d.AAAA? || d.Generic?
  }

  lemma NamelessReads(data: seq<byte>, names: Names, at: nat, d: RData, stop: nat)
    requires Nameless(d) && RDataOk(d) && Window(data, at, PutRData(names, at, d).bytes)
    requires stop == at + |PutRData(names, at, d).bytes|
    ensures GetRData(data, stop, at, TypeOf(d), ClassOf(d)) == Ok(d, stop) && PutRData(names, at, d).names == names
  {
    match d
    case HINFO(_, _) => HINFOReads(data, at, d, stop);
    case WKS(_, _, _) => WKSReads(data, at, d, stop);
    case TXT(strings) => StringsReads(data, stop, at, strings);
    case A(address) => BytesRead(data, at, address);
    case AAAA(address) => BytesRead(data, at, address);
    case Generic(_, _, bytes) => BytesRead(data, at, bytes);
  }

  /** NS, CNAME and PTR data are read alike. */
  lemma DomainNameReads(data: seq<byte>, names: Names, at: nat, name: Name, r: Part, stop: nat)
    requires NameOk(name) && r == PutName(names, at, name) && Placed(data, names, at, r) && stop == at + |r.bytes|
    ensures GivesData(GetNS(data, stop, at), NS(name), stop) && GivesData(GetCNAME(data, stop, at), CNAME(name), stop)
    ensures GivesData(GetPTR(data, stop, at), PTR(name), stop) && NamesOk(data, r.names, stop)
  {
    NameReads(data, stop, names, at, name, r);
  }

  /** Which decoder and which encoder belong to each class that carries names. */
  lemma Dispatch(data: seq<byte>, names: Names, limit: nat, at: nat, d: RData)
    requires !Nameless(d)
    ensures var g := GetRData(data, limit, at, TypeOf(d), ClassOf(d));
            var r := PutRData(names, at, d);
            if d.SOA? then g == GetSOA(data, limit, at) && r == PutSOA(names, at, d)
            else if d.MX? then g == GetMX(data, limit, at) && r == PutMX(names, at, d)
            else if d.SRV? then g == GetSRV(data, limit, at) && r == PutSRV(names, at, d)
            else
              && r == PutName(names, at, d.name)
              && (d.NS? ==> g == GetNS(data, limit, at))
              && (d.CNAME? ==> g == GetCNAME(data, limit, at))
              && (d.PTR? ==> g == GetPTR(data, limit, at))
  {
  }

  /** Record data of every modelled class is read back from a block of exactly its length. */
  lemma PutRDataReads(data: seq<byte>, names: Names, at: nat, d: RData, r: Part, stop: nat)
    requires RDataOk(d) && r == PutRData(names, at, d) && Placed(data, names, at, r) && stop == at + |r.bytes|
    ensures GivesData(GetRData(data, stop, at, TypeOf(d), ClassOf(d)), d, stop) && NamesOk(data, r.names, stop)
  {
    if Nameless(d) {
      NamelessReads(data, names, at, d, stop);
      NamesOkLater(data, names, at, stop);
    } else {
      Dispatch(data, names, stop, at, d);
      if d.SOA? {
        SOAReads(data, names, at, d, r, stop);
      } else if d.MX? {
        MXReads(data, names, at, d, r, stop);
      } else if d.SRV? {
        SRVReads(data, names, at, d, r, stop);
      } else {
        DomainNameReads(data, names, at, d.name, r, stop);
      }
    }
  }

  // ---- records and questions

  /** What reading one question or record gives, up to `same`. */
  ghost predicate GivesOne<T(!new)>(g: Got<T>, t: T, stop: nat, same: (T, T) -> bool) {
    g.Ok? && g.index == stop && same(t, g.value)
  }

  lemma Length16Reads(data: seq<byte>, limit: nat, names: Names, at: nat, d: RData, r: Part, stop: nat)
    requires RDataOk(d) && r == PutLength16(names, at, d) && Placed(data, names, at, r) &&
      stop == at + |r.bytes| <= limit
    ensures GivesData(GetLength16(data, limit, at, TypeOf(d), ClassOf(d)), d, stop) && NamesOk(data, r.names, stop)
  {
    var b := PutRData(names, at + 2, d);
    assert r == Part(Pack16(|b.bytes|) + b.bytes, b.names);
    DelimitedReads(data, limit, names, at, d, b, stop);
  }

  lemma DelimitedReads(data: seq<byte>, limit: nat, names: Names, at: nat, d: RData, b: Part, stop: nat)
    requires RDataOk(d) && b == PutRData(names, at + 2, d) && |data| <= MAX_SIZE && NamesOk(data, names, at)
    requires Window(data, at, Pack16(|b.bytes|) + b.bytes) && stop == at + 2 + |b.bytes| <= limit
    ensures GivesData(GetLength16(data, limit, at, TypeOf(d), ClassOf(d)), d, stop) && NamesOk(data, b.names, stop)
  {
    var rtype, rclass := TypeOf(d), ClassOf(d);
    var g := GetRData(data, stop, at + 2, rtype, rclass);
    assert GivesData(g, d, stop) && NamesOk(data, b.names, stop) by {
      WindowSplit(data, at, Pack16(|b.bytes|), b.bytes);
      NamesOkLater(data, names, at, at + 2);
      PutRDataReads(data, names, at + 2, d, b, stop);
    }
    assert Get16(data, limit, at) == Ok(|b.bytes|, at + 2) by {
      WindowSplit(data, at, Pack16(|b.bytes|), b.bytes);
      Int16Reads(data, limit, at, |b.bytes|);
    }
    BlockReads(data, limit, at, |b.bytes|, rtype, rclass, g);
  }

  /** A block that is used up exactly is read as its data. */
  lemma BlockReads(data: seq<byte>, limit: nat, at: nat, len: nat, rtype: nat, rclass: nat, g: Got<RData>)
    requires Get16(data, limit, at) == Ok(len, at + 2)
    requires g == GetRData(data, at + 2 + len, at + 2, rtype, rclass) && g.Ok? && g.index == at + 2 + len
    ensures GetLength16(data, limit, at, rtype, rclass) == g
  {
  }

  lemma HeadReads(data: seq<byte>, limit: nat, at: nat, t: nat, c: nat, l: nat)
    requires Bits16(t) && Bits16(c) && Bits32(l) && at + 8 <= limit
    requires Window(data, at, Pack16(t) + (Pack16(c) + Pack32(l)))
    ensures Get16(data, limit, at) == Ok(t, at + 2) && Get16(data, limit, at + 2) == Ok(c, at + 4)
    ensures Get32(data, limit, at + 4) == Ok(l, at + 8)
  {
    WindowSplit(data, at, Pack16(t), Pack16(c) + Pack32(l));
    WindowSplit(data, at + 2, Pack16(c), Pack32(l));
    Int16Reads(data, limit, at, t);
    Int16Reads(data, limit, at + 2, c);
    Int32Reads(data, limit, at + 4, l);
  }

  /** A record in its three parts: the name, the fixed fields and the delimited data. */
  lemma RecordPartsRead(data: seq<byte>, limit: nat, names: Names, at: nat, rec: Record, n: Part, head: seq<byte>,
                        d: Part, at': nat, stop: nat)
    requires RecordOk(rec) && |data| <= MAX_SIZE && NamesOk(data, names, at)
    requires n == PutName(names, at, rec.name) && at' == at + |n.bytes|
    requires head == Pack16(TypeOf(rec.data)) + (Pack16(ClassOf(rec.data)) + Pack32(rec.ttl))
    requires d == PutLength16(n.names, at' + 8, rec.data) && stop == at' + 8 + |d.bytes| <= limit
    requires Window(data, at, n.bytes + (head + d.bytes))
    ensures GivesOne(GetRecord(data, limit, at), rec, stop, SameRecord) && NamesOk(data, d.names, stop)
  {
    WindowSplit(data, at, n.bytes, head + d.bytes);
    WindowSplit(data, at', head, d.bytes);
    NameReads(data, limit, names, at, rec.name, n);
    NamesOkLater(data, n.names, at', at' + 8);
    Length16Reads(data, limit, n.names, at' + 8, rec.data, d, stop);
    FieldsMakeRecord(data, limit, at, at', rec, head, stop);
  }

  lemma RecordReads(data: seq<byte>, limit: nat, names: Names, at: nat, rec: Record, r: Part, stop: nat)
    requires RecordOk(rec) && r == PutRecord(names, at, rec) && Placed(data, names, at, r)
    requires stop == at + |r.bytes| <= limit
    ensures GivesOne(GetRecord(data, limit, at), rec, stop, SameRecord) && NamesOk(data, r.names, stop)
  {
    var n := PutName(names, at, rec.name);
    var head := Pack16(TypeOf(rec.data)) + (Pack16(ClassOf(rec.data)) + Pack32(rec.ttl));
    var at' := at + |n.bytes|;
    var d := PutLength16(n.names, at' + 8, rec.data);
    assert r.names == d.names && r.bytes == n.bytes + (head + d.bytes);
    RecordPartsRead(data, limit, names, at, rec, n, head, d, at', stop);
  }

  lemma FieldsMakeRecord(data: seq<byte>, limit: nat, at: nat, at': nat, rec: Record, head: seq<byte>, stop: nat)
    requires RecordOk(rec) && at' + 8 <= limit && Window(data, at', head)
    requires head == Pack16(TypeOf(rec.data)) + (Pack16(ClassOf(rec.data)) + Pack32(rec.ttl))
    requires GivesName(GetName(data, limit, at), rec.name, at')
    requires GivesData(GetLength16(data, limit, at' + 8, TypeOf(rec.data), ClassOf(rec.data)), rec.data, stop)
    ensures GivesOne(GetRecord(data, limit, at), rec, stop, SameRecord)
  {
    HeadReads(data, limit, at', TypeOf(rec.data), ClassOf(rec.data), rec.ttl);
  }

  lemma QuestionReads(data: seq<byte>, limit: nat, names: Names, at: nat, q: Question, r: Part, stop: nat)
    requires QuestionOk(q) && r == PutQuestion(names, at, q) && Placed(data, names, at, r) &&
      stop == at + |r.bytes| <= limit
    ensures GivesOne(GetQuestion(data, limit, at), q, stop, SameQuestion) && NamesOk(data, r.names, stop)
  {
    var n := PutName(names, at, q.name);
    var at' := at + |n.bytes|;
    WindowSplit(data, at, n.bytes, Pack16(q.qtype) + Pack16(q.qclass));
    WindowSplit(data, at', Pack16(q.qtype), Pack16(q.qclass));
    NameReads(data, limit, names, at, q.name, n);
    Int16Reads(data, limit, at', q.qtype);
    Int16Reads(data, limit, at' + 2, q.qclass);
    NamesOkLater(data, n.names, at', at' + 4);
  }

  // ---- lists of questions and records

  ghost predicate GivesAll<T(!new)>(g: Got<seq<T>>, ts: seq<T>, stop: nat, same: (T, T) -> bool) {
    g.Ok? && g.index == stop && |g.value| == |ts| && forall i :: 0 <= i < |ts| ==> same(ts[i], g.value[i])
  }

  /** An item put as r, when well placed in the data, is read back and leaves a good table. */
  ghost predicate ReadBack<T(!new)>(data: seq<byte>, get: nat -> Got<T>, same: (T, T) -> bool, t: T, names: Names,
                                    at: nat, r: Part) {
    Placed(data, names, at, r) ==>
      GivesOne(get(at), t, at + |r.bytes|, same) && NamesOk(data, r.names, at + |r.bytes|)
  }

  ghost predicate OneReads<T(!new)>(data: seq<byte>, put: (Names, nat, T) -> Part, get: nat -> Got<T>,
                                    same: (T, T) -> bool, t: T) {
    forall names: Names, at: nat :: ReadBack(data, get, same, t, names, at, put(names, at, t))
  }

  lemma {:induction false} AllRead<T(!new)>(data: seq<byte>, put: (Names, nat, T) -> Part, get: nat -> Got<T>,
                                            same: (T, T) -> bool, names: Names, at: nat, ts: seq<T>, r: Part)
    requires forall i :: 0 <= i < |ts| ==> OneReads(data, put, get, same, ts[i])
    requires r == PutAll(put, names, at, ts) && Placed(data, names, at, r)
    ensures GivesAll(GetAll(get, at, |ts|), ts, at + |r.bytes|, same) && NamesOk(data, r.names, at + |r.bytes|)
    decreases |ts|
  {
    if ts != [] {
      var first := put(names, at, ts[0]);
      var mid := at + |first.bytes|;
      var rest := PutAll(put, first.names, mid, ts[1..]);
      assert r.bytes == first.bytes + rest.bytes && r.names == rest.names;
      assert |ts[1..]| == |ts| - 1;
      WindowSplit(data, at, first.bytes, rest.bytes);
      assert ReadBack(data, get, same, ts[0], names, at, first);
      AllRead(data, put, get, same, first.names, mid, ts[1..], rest);
      FirstThenRest(get, same, at, mid, at + |r.bytes|, ts);
    }
  }

  lemma FirstThenRest<T(!new)>(get: nat -> Got<T>, same: (T, T) -> bool, at: nat, mid: nat, stop: nat, ts: seq<T>)
    requires ts != [] && GivesOne(get(at), ts[0], mid, same)
    requires GivesAll(GetAll(get, mid, |ts| - 1), ts[1..], stop, same)
    ensures GivesAll(GetAll(get, at, |ts|), ts, stop, same)
  {
    var rest := GetAll(get, mid, |ts| - 1);
    forall i | 0 < i < |ts|
      ensures same(ts[i], rest.value[i - 1])
    {
      assert same(ts[1..][i - 1], rest.value[i - 1]);
    }
  }

  lemma {:induction false} GetAllCount<T>(get: nat -> Got<T>, at: nat, n: nat)
    requires GetAll(get, at, n).Ok?
    ensures |GetAll(get, at, n).value| == n
    decreases n
  {
    if n > 0 {
      GetAllCount(get, get(at).index, n - 1);
    }
  }

  /** Reading n + k items is reading n and then k. */
  lemma {:induction false} GetAllSplit<T>(get: nat -> Got<T>, at: nat, n: nat, k: nat)
    requires GetAll(get, at, n + k).Ok?
    ensures var all, g := GetAll(get, at, n + k), GetAll(get, at, n);
            |all.value| == n + k && g.Ok? && g.value == all.value[..n]
            && GetAll(get, g.index, k) == Ok(all.value[n..], all.index)
    decreases n
  {
    GetAllCount(get, at, n + k);
    if n > 0 {
      var first, rest := get(at), GetAll(get, get(at).index, n - 1 + k);
      GetAllSplit(get, first.index, n - 1, k);
      assert ([first.value] + rest.value)[..n] == [first.value] + rest.value[..n - 1];
      assert ([first.value] + rest.value)[n..] == rest.value[n - 1..];
    }
  }

  // ---- messages

  /** A field of width n at weight w comes out of a sum of fields again. */
  lemma FieldOf(f: nat, high: nat, x: nat, low: nat, n: nat, w: nat)
    requires x < n && low < w && f == (high * n + x) * w + low
    ensures f / w % n == x
  {
    Quotient(f, high * n + x, low, w);
    Quotient(high * n + x, high, x, n);
  }

  lemma Quotient(f: int, q: int, low: int, w: int)
    requires 0 <= low < w && f == q * w + low
    ensures f / w == q && f % w == low
  {
    var d := f / w - q;
    assert d >= 1 ==> w * d >= w;
    assert d <= -1 ==> w * d <= -w;
    assert w * d == low - f % w;
  }

  lemma HighFields(f: nat, qr: nat, opcode: nat, aa: nat, low: nat)
    requires qr < 2 && opcode < 16 && aa < 2 && low < 0x400
    requires f == qr * 0x8000 + opcode * 0x800 + aa * 0x400 + low
    ensures f / 0x8000 % 2 == qr && f / 0x800 % 16 == opcode && f / 0x400 % 2 == aa
  {
    FieldOf(f, 0, qr, opcode * 0x800 + aa * 0x400 + low, 2, 0x8000);
    FieldOf(f, qr, opcode, aa * 0x400 + low, 16, 0x800);
    FieldOf(f, qr * 16 + opcode, aa, low, 2, 0x400);
  }

  lemma LowFields(f: nat, high: nat, tc: nat, rd: nat, ra: nat, rcode: nat)
    requires tc < 2 && rd < 2 && ra < 2 && rcode < 16
    requires f == high * 0x400 + tc * 0x200 + rd * 0x100 + ra * 0x80 + rcode
    ensures f / 0x200 % 2 == tc && f / 0x100 % 2 == rd && f / 0x80 % 2 == ra && f % 16 == rcode
  {
    FieldOf(f, high, tc, rd * 0x100 + ra * 0x80 + rcode, 2, 0x200);
    FieldOf(f, high * 2 + tc, rd, ra * 0x80 + rcode, 2, 0x100);
    FieldOf(f, high * 4 + tc * 2 + rd, ra, rcode, 2, 0x80);
    Quotient(f, high * 64 + tc * 32 + rd * 16 + ra * 8, rcode, 16);
  }

  /** Seven fields packed into 16 bits come apart again. */
  lemma FlagsRoundTrip(m: Message)
    requires MessageOk(m)
    ensures HeaderOf(m.id, Flags(m)) == m.(question := [], answer := [], authority := [], additional := [])
  {
    var low := m.tc * 0x200 + m.rd * 0x100 + m.ra * 0x80 + m.rcode;
    var high := m.qr * 32 + m.opcode * 2 + m.aa;
    FlagsSum(m);
    HighFields(Flags(m), m.qr, m.opcode, m.aa, low);
    LowFields(Flags(m), high, m.tc, m.rd, m.ra, m.rcode);
  }

  lemma FlagsSum(m: Message)
    requires MessageOk(m)
    ensures Flags(m) == m.qr * 0x8000 + m.opcode * 0x800 + m.aa * 0x400 + m.tc * 0x200 + m.rd * 0x100 + m.ra * 0x80 +
      m.rcode
  {
    Quotient(m.qr, 0, m.qr, 2);
    Quotient(m.opcode, 0, m.opcode, 16);
    Quotient(m.aa, 0, m.aa, 2);
    Quotient(m.tc, 0, m.tc, 2);
    Quotient(m.rd, 0, m.rd, 2);
    Quotient(m.ra, 0, m.ra, 2);
    Quotient(m.rcode, 0, m.rcode, 16);
  }

  /** The six header words are read back. */
  lemma HeaderReads(data: seq<byte>, m: Message)
    requires MessageOk(m) && Window(data, 0, Header(m))
    ensures |data| >= 12 && Word(data, 0) == m.id && Word(data, 1) == Flags(m)
    ensures Word(data, 2) == |m.question| && Word(data, 3) == |m.answer|
    ensures Word(data, 4) == |m.authority| && Word(data, 5) == |m.additional|
  {
    var w4, w5 := Pack16(|m.authority|), Pack16(|m.additional|);
    var w3 := Pack16(|m.answer|) + (w4 + w5);
    var w2 := Pack16(|m.question|) + w3;
    var w1 := Pack16(Flags(m)) + w2;
    WindowSplit(data, 0, Pack16(m.id), w1);
    WindowSplit(data, 2, Pack16(Flags(m)), w2);
    WindowSplit(data, 4, Pack16(|m.question|), w3);
    WindowSplit(data, 6, Pack16(|m.answer|), w4 + w5);
    WindowSplit(data, 8, w4, w5);
    Int16Reads(data, |data|, 0, m.id);
    Int16Reads(data, |data|, 2, Flags(m));
    Int16Reads(data, |data|, 4, |m.question|);
    Int16Reads(data, |data|, 6, |m.answer|);
    Int16Reads(data, |data|, 8, |m.authority|);
    Int16Reads(data, |data|, 10, |m.additional|);
  }

  lemma QuestionReaderReads(data: seq<byte>, names: Names, at: nat, q: Question, r: Part)
    requires QuestionOk(q) && r == PutQuestion(names, at, q)
    ensures ReadBack(data, QuestionReader(data), SameQuestion, q, names, at, r)
  {
    if Placed(data, names, at, r) {
      QuestionReads(data, |data|, names, at, q, r, at + |r.bytes|);
    }
  }

  lemma QuestionOneReads(data: seq<byte>, q: Question)
    requires QuestionOk(q)
    ensures OneReads(data, PutQuestion, QuestionReader(data), SameQuestion, q)
  {
    forall names: Names, at: nat
      ensures ReadBack(data, QuestionReader(data), SameQuestion, q, names, at, PutQuestion(names, at, q))
    {
      QuestionReaderReads(data, names, at, q, PutQuestion(names, at, q));
    }
  }

  /** What was read at one place is what the reader gives there. */
  lemma ReadByReader<T(!new)>(data: seq<byte>, get: nat -> Got<T>, same: (T, T) -> bool, t: T, names: Names, at: nat,
                              r: Part, g: Got<T>, stop: nat)
    requires g == get(at) && stop == at + |r.bytes|
    requires Placed(data, names, at, r) ==> GivesOne(g, t, stop, same) && NamesOk(data, r.names, stop)
    ensures ReadBack(data, get, same, t, names, at, r)
  {
  }

  lemma RecordReaderReads(data: seq<byte>, names: Names, at: nat, rec: Record, r: Part, stop: nat)
    requires RecordOk(rec) && r == PutRecord(names, at, rec) && stop == at + |r.bytes|
    ensures ReadBack(data, RecordReader(data), SameRecord, rec, names, at, r)
  {
    if Placed(data, names, at, r) {
      RecordReads(data, |data|, names, at, rec, r, stop);
    }
    ReadByReader(data, RecordReader(data), SameRecord, rec, names, at, r, GetRecord(data, |data|, at), stop);
  }

  lemma RecordOneReads(data: seq<byte>, rec: Record)
    requires RecordOk(rec)
    ensures OneReads(data, PutRecord, RecordReader(data), SameRecord, rec)
  {
    forall names: Names, at: nat
      ensures ReadBack(data, RecordReader(data), SameRecord, rec, names, at, PutRecord(names, at, rec))
    {
      var r := PutRecord(names, at, rec);
      RecordReaderReads(data, names, at, rec, r, at + |r.bytes|);
    }
  }

  lemma QuestionsRead(data: seq<byte>, qs: seq<Question>, q: Part)
    requires (forall i :: 0 <= i < |qs| ==> QuestionOk(qs[i])) && q == PutAll(PutQuestion, map[], 12, qs)
    requires |data| <= MAX_SIZE && Window(data, 12, q.bytes)
    ensures GivesAll(GetAll(QuestionReader(data), 12, |qs|), qs, 12 + |q.bytes|, SameQuestion)
    ensures NamesOk(data, q.names, 12 + |q.bytes|)
  {
    forall i | 0 <= i < |qs|
      ensures OneReads(data, PutQuestion, QuestionReader(data), SameQuestion, qs[i])
    {
      QuestionOneReads(data, qs[i]);
    }
    NothingPlaced(data, q);
    AllRead(data, PutQuestion, QuestionReader(data), SameQuestion, map[], 12, qs, q);
  }

  /** The empty table is good at the front of any message. */
  lemma NothingPlaced(data: seq<byte>, q: Part)
    requires |data| <= MAX_SIZE && Window(data, 12, q.bytes)
    ensures Placed(data, map[], 12, q)
  {
  }

  lemma RecordsRead(data: seq<byte>, names: Names, at: nat, rs: seq<Record>, r: Part)
    requires (forall i :: 0 <= i < |rs| ==> RecordOk(rs[i])) && r == PutAll(PutRecord, names, at, rs) &&
      Placed(data, names, at, r)
    ensures GivesAll(GetAll(RecordReader(data), at, |rs|), rs, at + |r.bytes|, SameRecord)
  {
    forall i | 0 <= i < |rs|
      ensures OneReads(data, PutRecord, RecordReader(data), SameRecord, rs[i])
    {
      RecordOneReads(data, rs[i]);
    }
    AllRead(data, PutRecord, RecordReader(data), SameRecord, names, at, rs, r);
  }

  /** The questions and the records behind them are read back. */
  lemma BodyReads(data: seq<byte>, qs: seq<Question>, rs: seq<Record>, q: Part, r: Part, mid: nat)
    requires |data| <= MAX_SIZE && (forall i :: 0 <= i < |qs| ==> QuestionOk(qs[i])) &&
      (forall i :: 0 <= i < |rs| ==> RecordOk(rs[i]))
    requires q == PutAll(PutQuestion, map[], 12, qs) && mid == 12 + |q.bytes|
    requires r == PutAll(PutRecord, q.names, mid, rs) && |data| == mid + |r.bytes|
    requires Window(data, 12, q.bytes + r.bytes)
    ensures GivesAll(GetAll(QuestionReader(data), 12, |qs|), qs, mid, SameQuestion)
    ensures GivesAll(GetAll(RecordReader(data), mid, |rs|), rs, |data|, SameRecord)
  {
    WindowSplit(data, 12, q.bytes, r.bytes);
    QuestionsRead(data, qs, q);
    RecordsRead(data, q.names, mid, rs, r);
  }

  lemma RecordsOk(m: Message)
    requires MessageOk(m)
    ensures forall i :: 0 <= i < |Records(m)| ==> RecordOk(Records(m)[i])
  {
  }

  ghost predicate GivesMessage(g: Got<Message>, m: Message, stop: nat) {
    g.Ok? && g.index == stop && SameMessage(m, g.value)
  }

  lemma SameRecordsSplit(rs: seq<Record>, ss: seq<Record>, m: Message)
    requires rs == Records(m) && |ss| == |rs| && forall i :: 0 <= i < |rs| ==> SameRecord(rs[i], ss[i])
    ensures var n1, n2 := |m.answer|, |m.answer| + |m.authority|;
            SameRecords(m.answer, ss[..n1]) && SameRecords(m.authority, ss[n1..n2]) &&
              SameRecords(m.additional, ss[n2..])
  {
    var n1, n2 := |m.answer|, |m.answer| + |m.authority|;
    assert forall i :: 0 <= i < n1 ==> rs[i] == m.answer[i];
    assert forall i :: 0 <= i < |m.authority| ==> rs[n1 + i] == m.authority[i];
    assert forall i :: 0 <= i < |m.additional| ==> rs[n2 + i] == m.additional[i];
  }

  /** Questions and records read one behind the other make a message with the given header. */
  lemma SectionsMakeMessage(question: nat -> Got<Question>, record: nat -> Got<Record>, m: Message, head: Message,
                            mid: nat, stop: nat)
    requires head == m.(question := [], answer := [], authority := [], additional := [])
    requires GivesAll(GetAll(question, 12, |m.question|), m.question, mid, SameQuestion)
    requires GivesAll(GetAll(record, mid, |Records(m)|), Records(m), stop, SameRecord)
    ensures GivesMessage(GetSections(question, record, head, |m.question|, |m.answer|, |m.authority|, |m.additional|),
                         m, stop)
  {
    var n1, n2, n3 := |m.answer|, |m.authority|, |m.additional|;
    assert |Records(m)| == n1 + (n2 + n3);
    var all := GetAll(record, mid, n1 + (n2 + n3));
    GetAllSplit(record, mid, n1, n2 + n3);
    GetAllSplit(record, GetAll(record, mid, n1).index, n2, n3);
    assert all.value[n1..][..n2] == all.value[n1..n1 + n2] && all.value[n1..][n2..] == all.value[n1 + n2..];
    SameRecordsSplit(Records(m), all.value, m);
  }

  /** The header counts tell the decoder how many questions and records to read. */
  lemma DecodeReads(data: seq<byte>, m: Message, mid: nat)
    requires MessageOk(m) && Window(data, 0, Header(m))
    requires GivesAll(GetAll(QuestionReader(data), 12, |m.question|), m.question, mid, SameQuestion)
    requires GivesAll(GetAll(RecordReader(data), mid, |Records(m)|), Records(m), |data|, SameRecord)
    ensures GivesMessage(Decode(data), m, |data|)
  {
    HeaderReads(data, m);
    FlagsRoundTrip(m);
    SectionsMakeMessage(QuestionReader(data), RecordReader(data), m, HeaderOf(m.id, Flags(m)), mid, |data|);
  }

  lemma PartsRead(data: seq<byte>, m: Message, q: Part, r: Part, mid: nat)
    requires |data| <= MAX_SIZE && MessageOk(m)
    requires q == PutAll(PutQuestion, map[], 12, m.question) && mid == 12 + |q.bytes|
    requires r == PutAll(PutRecord, q.names, mid, Records(m))
    requires data == Header(m) + (q.bytes + r.bytes)
    ensures GivesMessage(Decode(data), m, |data|)
  {
    WindowSplit(data, 0, Header(m), q.bytes + r.bytes);
    RecordsOk(m);
    BodyReads(data, m.question, Records(m), q, r, mid);
    DecodeReads(data, m, mid);
  }

  /** Decoding what was encoded gives back the same header, questions and records, names up to
      case, and ends at the last byte. */
  lemma MessageRoundTrip(m: Message)
    requires MessageOk(m) && |Encode(m)| <= MAX_SIZE
    ensures GivesMessage(Decode(Encode(m)), m, |Encode(m)|)
  {
    var q := PutAll(PutQuestion, map[], 12, m.question);
    var r := PutAll(PutRecord, q.names, 12 + |q.bytes|, Records(m));
    PartsRead(Encode(m), m, q, r, 12 + |q.bytes|);
  }
}
