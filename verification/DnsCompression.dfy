/**
 Name compression (section 4.1.4 of RFC 1035): a name, or the end of a name, that was put before is put
 as a pointer of two bytes.
 */
module DnsCompression {
  import opened DnsWire
  import opened DnsMessage
  import opened DnsEncoder
  import opened DnsRoundTrip

  /** With every run of labels in the table its tail is there too, but for one that is still to be put. */
  ghost predicate ClosedBut(names: Names, key: Key) {
    forall k :: k in names && |k| > 1 ==> k[1..] in names || k[1..] == key
  }

  ghost predicate Closed(names: Names) {
    forall k :: k in names && |k| > 1 ==> k[1..] in names
  }

  /** Nothing is taken out of the table, and no place in it is changed. */
  ghost predicate Extends(names: Names, names': Names) {
    forall k :: k in names ==> k in names' && names'[k] == names[k]
  }

  lemma {:induction false} PutCloses(names: Names, at: nat, d: seq<Label>)
    requires ClosedBut(names, Fold(d))
    ensures var r := PutLabels(names, at, d);
            Closed(r.names) && Extends(names, r.names) && (d != [] ==> Fold(d) in r.names)
    decreases |d|
  {
    if d != [] && Fold(d) !in names {
      OneMorePut(names, at, d);
      PutCloses(names[Fold(d) := at], at + 1 + |d[0]|, d[1..]);
    }
  }

  lemma OneMorePut(names: Names, at: nat, d: seq<Label>)
    requires ClosedBut(names, Fold(d)) && d != [] && Fold(d) !in names
    ensures ClosedBut(names[Fold(d) := at], Fold(d[1..])) && Extends(names, names[Fold(d) := at])
  {
    FoldTail(d);
  }

  lemma {:induction false} TailsKnown(names: Names, key: Key, k: nat)
    requires Closed(names) && key in names && k < |key|
    ensures key[k..] in names
  {
    if k > 0 {
      TailsKnown(names, key, k - 1);
      assert key[k - 1..][1..] == key[k..];
    } else {
      assert key[0..] == key;
    }
  }

  lemma FoldRear(labels: seq<Label>, k: nat)
    requires k <= |labels|
    ensures Fold(labels[k..]) == Fold(labels)[k..]
  {
  }

  /** A name put behind another one that it is the end of, whatever the case of its letters, takes two
      bytes and leaves the table as it is. */
  lemma PutAgain(names: Names, at: nat, first: Name, k: nat, at': nat, second: Name)
    requires Closed(names) && k < |first.labels| && Fold(second.labels) == Fold(first.labels[k..])
    ensures var r := PutName(names, at, first);
            var again := PutName(r.names, at', second);
            Closed(r.names) && |again.bytes| == 2 && again.bytes[0] >= 192 && again.names == r.names
  {
    var r := PutName(names, at, first);
    PutCloses(names, at, first.labels);
    TailsKnown(r.names, Fold(first.labels), k);
    FoldRear(first.labels, k);
    assert Fold(second.labels) in r.names;
    PointerByte(r.names[Fold(second.labels)]);
  }

  lemma PointerByte(p: nat)
    ensures Pack16(0xc000 + p % 0x4000)[0] >= 192
  {
    var q := p % 0x4000;
    assert 0xc000 + q == 0x100 * (192 + q / 0x100) + q % 0x100;
    ByteDivision(192 + q / 0x100, q % 0x100);
  }

  // ---- whole sections

  /** The table stays closed, and nothing in it is lost. */
  ghost predicate Keeps(names: Names, names': Names) {
    Closed(names) ==> Closed(names') && Extends(names, names')
  }

  lemma KeepsTwice(a: Names, b: Names, c: Names)
    requires Keeps(a, b) && Keeps(b, c)
    ensures Keeps(a, c)
  {
  }

  lemma NameKeeps(names: Names, at: nat, name: Name)
    ensures Keeps(names, PutName(names, at, name).names)
    ensures Closed(names) && name.labels != [] ==> Fold(name.labels) in PutName(names, at, name).names
  {
    if Closed(names) { PutCloses(names, at, name.labels); }
  }

  lemma SOAKeeps(names: Names, at: nat, d: RData)
    requires d.SOA?
    ensures Keeps(names, PutSOA(names, at, d).names)
  {
    var m := PutName(names, at, d.mname);
    var r := PutName(m.names, at + |m.bytes|, d.rname);
    NameKeeps(names, at, d.mname);
    NameKeeps(m.names, at + |m.bytes|, d.rname);
    KeepsTwice(names, m.names, r.names);
  }

  lemma NamelessKeeps(names: Names, at: nat, d: RData)
    requires Nameless(d)
    ensures PutRData(names, at, d).names == names
  {
  }

  lemma RDataKeeps(names: Names, at: nat, d: RData)
    ensures Keeps(names, PutRData(names, at, d).names)
  {
    if Nameless(d) {
      NamelessKeeps(names, at, d);
    } else {
      Dispatch([], names, 0, at, d);
      if d.SOA? {
        SOAKeeps(names, at, d);
      } else if d.MX? {
        NameKeeps(names, at + 2, d.exchange);
      } else if d.SRV? {
        NameKeeps(names, at + 6, d.target);
      } else {
        NameKeeps(names, at, d.name);
      }
    }
  }

  /** What putting a record does to the table. */
  ghost predicate Puts(names: Names, names': Names, key: Key) {
    Keeps(names, names') && (Closed(names) && key != [] ==> key in names')
  }

  lemma PutsThenKeeps(names: Names, names': Names, names'': Names, key: Key)
    requires Puts(names, names', key) && Keeps(names', names'')
    ensures Puts(names, names'', key)
  {
  }

  lemma RecordPuts(names: Names, at: nat, r: Record)
    ensures Puts(names, PutRecord(names, at, r).names, Fold(r.name.labels))
  {
    var n := PutName(names, at, r.name);
    var at' := at + |n.bytes| + 10;
    assert PutRecord(names, at, r).names == PutRData(n.names, at', r.data).names;
    NameKeeps(names, at, r.name);
    RDataKeeps(n.names, at', r.data);
    PutsThenKeeps(names, n.names, PutRData(n.names, at', r.data).names, Fold(r.name.labels));
  }

  lemma {:induction false} AllPut<T(!new)>(put: (Names, nat, T) -> Part, key: T -> Key, names: Names, at: nat,
                                           ts: seq<T>)
    requires forall names: Names, at: nat, t: T :: Puts(names, put(names, at, t).names, key(t))
    ensures var p := PutAll(put, names, at, ts);
            Keeps(names, p.names) && forall i :: 0 <= i < |ts| ==> Puts(names, p.names, key(ts[i]))
    decreases |ts|
  {
    if ts != [] {
      var first, p := put(names, at, ts[0]), PutAll(put, names, at, ts);
      assert Puts(names, first.names, key(ts[0]));
      AllPut(put, key, first.names, at + |first.bytes|, ts[1..]);
      KeepsTwice(names, first.names, p.names);
      forall i | 0 <= i < |ts| ensures Puts(names, p.names, key(ts[i])) {
        if i > 0 { assert ts[i] == ts[1..][i - 1]; } else { PutsThenKeeps(names, first.names, p.names, key(ts[0])); }
      }
    }
  }

  /** Of the records of a section only the first of one name writes it out: behind them a record of that
      name, whatever the case of its letters, takes two bytes for it. */
  lemma OwnerIsPointer(rs: seq<Record>, i: nat, at: nat, at': nat, name: Name)
    requires i < |rs| && rs[i].name.labels != [] && Fold(name.labels) == Fold(rs[i].name.labels)
    ensures |PutName(PutAll(PutRecord, map[], at, rs).names, at', name).bytes| == 2
  {
    var key := (r: Record) => Fold(r.name.labels);
    forall names: Names, at: nat, r: Record ensures Puts(names, PutRecord(names, at, r).names, key(r)) {
      RecordPuts(names, at, r);
    }
    AllPut(PutRecord, key, map[], at, rs);
    KnownIsPointer(PutAll(PutRecord, map[], at, rs).names, at', name);
  }

  lemma KnownIsPointer(names: Names, at: nat, name: Name)
    requires name.labels != [] && Fold(name.labels) in names
    ensures |PutName(names, at, name).bytes| == 2
  {
  }
}
