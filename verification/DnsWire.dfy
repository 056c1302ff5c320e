/**
 Bytes, integers and labels of DNS messages (section 4.1 of RFC 1035).
 */
module DnsWire {
  type byte = x: int | 0 <= x < 256
  type Label = seq<byte>

  /** A run of labels as the suffix table compares it: Label::Str compares downcased strings. */
  type Key = seq<Label>

  function Downcase(b: byte): byte {
    if 65 <= b <= 90 then b + 32 else b
  }

  function FoldLabel(bytes: Label): (r: Label)
    ensures |r| == |bytes|
  {
    seq(|bytes|, i requires 0 <= i < |bytes| => Downcase(bytes[i]))
  }

  function Fold(labels: seq<Label>): (r: Key)
    ensures |r| == |labels|
    ensures forall i :: 0 <= i < |labels| ==> r[i] == FoldLabel(labels[i])
  {
    seq(|labels|, i requires 0 <= i < |labels| => FoldLabel(labels[i]))
  }

  lemma FoldTail(labels: seq<Label>)
    requires labels != []
    ensures Fold(labels) == [FoldLabel(labels[0])] + Fold(labels[1..])
    ensures Fold(labels)[1..] == Fold(labels[1..])
  {
  }

  /** pack("n"): the low 16 bits, high byte first. */
  function Pack16(x: nat): (r: seq<byte>)
    ensures |r| == 2
  {
    [x / 0x100 % 0x100, x % 0x100]
  }

  /** pack("N"): the low 32 bits, high byte first. */
  function Pack32(x: nat): (r: seq<byte>)
    ensures |r| == 4
  {
    Pack16(x / 0x1_0000) + Pack16(x)
  }

  function Unpack16(hi: byte, lo: byte): (r: nat)
    ensures r < 0x1_0000
  {
    hi * 0x100 + lo
  }

  lemma Pack16RoundTrip(x: nat)
    requires x < 0x1_0000
    ensures Unpack16(Pack16(x)[0], Pack16(x)[1]) == x
  {
  }

  lemma ByteDivision(q: nat, r: nat)
    requires r < 0x100
    ensures (0x100 * q + r) / 0x100 == q && (0x100 * q + r) % 0x100 == r
  {
  }

  /** Only the low 16 bits count. */
  lemma Pack16Low(x: nat, high: nat, low: nat)
    requires x == 0x1_0000 * high + low && low < 0x1_0000
    ensures Pack16(x) == Pack16(low)
  {
    var a, b := low / 0x100, low % 0x100;
    assert x == 0x100 * (0x100 * high + a) + b;
    ByteDivision(0x100 * high + a, b);
    ByteDivision(high, a);
    ByteDivision(0, a);
  }

  lemma Pack32RoundTrip(x: nat)
    requires x < 0x1_0000_0000
    ensures var p := Pack32(x); Unpack16(p[0], p[1]) * 0x1_0000 + Unpack16(p[2], p[3]) == x
  {
    var high, low := x / 0x1_0000, x % 0x1_0000;
    Pack16RoundTrip(high);
    Pack16Low(x, high, low);
    Pack16RoundTrip(low);
  }

  /** The bytes of w are found in data from position at. */
  ghost predicate Window(data: seq<byte>, at: nat, w: seq<byte>) {
    at + |w| <= |data| && forall i :: 0 <= i < |w| ==> data[at + i] == w[i]
  }

  lemma WindowSplit(data: seq<byte>, at: nat, a: seq<byte>, b: seq<byte>)
    requires Window(data, at, a + b)
    ensures Window(data, at, a) && Window(data, at + |a|, b)
  {
    forall i | 0 <= i < |a|
      ensures data[at + i] == a[i]
    {
      assert (a + b)[i] == a[i];
    }
    forall i | 0 <= i < |b|
      ensures data[at + |a| + i] == b[i]
    {
      assert (a + b)[|a| + i] == b[i];
    }
  }

  lemma WindowAt(data: seq<byte>, at: nat, w: seq<byte>, i: nat)
    requires Window(data, at, w) && i < |w|
    ensures data[at + i] == w[i]
  {
  }
}
