// What the join protocol of lib/join.rb keeps: an exact mask, no chord left enabled, every value used once and in
// order.
module JoinSafety {
  import opened Common
  import opened JoinBits
  import opened JoinRules

  function Count(indices: seq<nat>, i: nat): nat {
    if indices == [] then 0
    else Count(indices[..|indices| - 1], i) + if indices[|indices| - 1] == i then 1 else 0
  }

  /** A bit is set exactly when its queue holds something. */
  ghost predicate Exact(pending: seq<seq<Item>>, mask: nat) {
    forall i: nat :: Bit(mask, i) <==> Filled(pending, i)
  }

  predicate Filled(pending: seq<seq<Item>>, i: nat) {
    i < |pending| && pending[i] != []
  }

  predicate Ready(pending: seq<seq<Item>>, indices: seq<nat>) {
    forall k :: 0 <= k < |indices| ==> Filled(pending, indices[k])
  }

  /** The mask test of the source is the readiness of the chord's queues. */
  lemma EnabledMeansReady(c: Chord, pending: seq<seq<Item>>, mask: nat)
    requires Exact(pending, mask) && c.mask == MaskOf(c.indices)
    ensures Enabled(c, mask) <==> Ready(pending, c.indices)
  {
    CoveredBits(c.mask, mask);
    forall i: nat ensures Bit(c.mask, i) <==> i in c.indices {
      MaskBit(c.indices, i);
    }
    if Enabled(c, mask) {
      forall k | 0 <= k < |c.indices| ensures Filled(pending, c.indices[k]) {
        assert Bit(c.mask, c.indices[k]);
      }
    }
  }

  // ----- Taking from the queues, with or without repeated names -----

  /** The bit that `count` shifts of a queue of `size` items leave, starting from an exact bit. */
  predicate Lit(size: nat, count: nat) {
    count < size || (count - size) % 2 == 1
  }

  /** Queue `i` and its bit after `count` shifts of what was `queue`. */
  ghost predicate Shifts(t: Taken, i: nat, queue: seq<Item>, count: nat) {
    && i < |t.pending|
    && t.pending[i] == queue[Min(count, |queue|)..]
    && (Bit(t.mask, i) <==> Lit(|queue|, count))
  }

  lemma LitStep(size: nat, count: nat)
    ensures Lit(size, count + 1) <==> if count + 1 < size then Lit(size, count) else !Lit(size, count)
  {
  }

  lemma TakeOneShifts(rules: Rules, t: Taken, last: nat, i: nat, queue: seq<Item>, count: nat)
    requires last < |t.pending| && Shifts(t, i, queue, count)
    requires !TakeOne(rules, t, last).raised
    ensures Shifts(TakeOne(rules, t, last), i, queue, if i == last then count + 1 else count)
  {
    FlipBit(t.mask, last, i);
    LitStep(|queue|, count);
  }

  lemma {:induction false} TakeShifts(rules: Rules, pending: seq<seq<Item>>, mask: nat, indices: seq<nat>, i: nat)
    requires Within(indices, |pending|) && Exact(pending, mask) && i < |pending|
    requires !Take(rules, pending, mask, indices).raised
    ensures Shifts(Take(rules, pending, mask, indices), i, pending[i], Count(indices, i))
  {
    if indices == [] {
      assert Bit(mask, i) <==> Filled(pending, i);
    } else {
      var front, last := indices[..|indices| - 1], indices[|indices| - 1];
      TakeShifts(rules, pending, mask, front, i);
      TakeOneShifts(rules, Take(rules, pending, mask, front), last, i, pending[i], Count(front, i));
    }
  }

  lemma {:induction false} TakeOutside(rules: Rules, pending: seq<seq<Item>>, mask: nat, indices: seq<nat>, i: nat)
    requires Within(indices, |pending|) && Exact(pending, mask) && i >= |pending|
    ensures !Bit(Take(rules, pending, mask, indices).mask, i)
  {
    if indices == [] {
      assert Bit(mask, i) <==> Filled(pending, i);
    } else {
      var front, last := indices[..|indices| - 1], indices[|indices| - 1];
      TakeOutside(rules, pending, mask, front, i);
      FlipBit(Take(rules, pending, mask, front).mask, last, i);
    }
  }

  /** A firing raises exactly when it asks a synchronous queue for more than it holds. */
  lemma {:induction false} RaisedIff(rules: Rules, pending: seq<seq<Item>>, mask: nat, indices: seq<nat>)
    requires Within(indices, |pending|) && Exact(pending, mask)
    ensures Take(rules, pending, mask, indices).raised <==>
            exists i :: 0 <= i < |pending| && rules.Sync(i) && Count(indices, i) > |pending[i]|
  {
    if indices != [] {
      var front, last := indices[..|indices| - 1], indices[|indices| - 1];
      RaisedIff(rules, pending, mask, front);
      forall i: nat ensures Count(front, i) <= Count(indices, i) {}
      if !Take(rules, pending, mask, front).raised {
        TakeShifts(rules, pending, mask, front, last);
        forall i: nat | i != last ensures Count(front, i) == Count(indices, i) {}
        assert Count(indices, last) == Count(front, last) + 1;
      }
    }
  }

  /** A firing leaves the mask exact exactly when every queue it empties is emptied by an even surplus. */
  lemma ExactAfterTakeIff(rules: Rules, pending: seq<seq<Item>>, mask: nat, indices: seq<nat>)
    requires Within(indices, |pending|) && Exact(pending, mask)
    requires !Take(rules, pending, mask, indices).raised
    ensures Exact(Take(rules, pending, mask, indices).pending, Take(rules, pending, mask, indices).mask) <==>
            forall i :: 0 <= i < |pending| ==>
              Count(indices, i) < |pending[i]| || (Count(indices, i) - |pending[i]|) % 2 == 0
  {
    var t := Take(rules, pending, mask, indices);
    forall i: nat ensures i < |pending| ==> (Bit(t.mask, i) <==> Lit(|pending[i]|, Count(indices, i)))
      ensures i >= |pending| ==> !Bit(t.mask, i)
      ensures i < |pending| ==> (Filled(t.pending, i) <==> Count(indices, i) < |pending[i]|)
    {
      if i < |pending| {
        TakeShifts(rules, pending, mask, indices, i);
      } else {
        TakeOutside(rules, pending, mask, indices, i);
      }
    }
    if Exact(t.pending, t.mask) {
      forall i | 0 <= i < |pending|
        ensures Count(indices, i) < |pending[i]| || (Count(indices, i) - |pending[i]|) % 2 == 0
      {
        assert Bit(t.mask, i) <==> Filled(t.pending, i);
      }
    }
  }

  lemma {:induction false} CountDistinct(indices: seq<nat>, i: nat)
    requires Distinct(indices)
    ensures Count(indices, i) == if i in indices then 1 else 0
  {
    if indices != [] {
      var front, last := indices[..|indices| - 1], indices[|indices| - 1];
      CountDistinct(front, i);
      assert indices == front + [last];
    }
  }

  lemma {:induction false} CountTwice(indices: seq<nat>, j: nat, k: nat)
    requires j < k < |indices| && indices[j] == indices[k]
    ensures Count(indices, indices[j]) >= 2
  {
    var front := indices[..|indices| - 1];
    if k == |indices| - 1 {
      CountIn(front, j);
    } else {
      CountTwice(front, j, k);
    }
  }

  lemma {:induction false} CountIn(indices: seq<nat>, j: nat)
    requires j < |indices|
    ensures Count(indices, indices[j]) >= 1
  {
    if j < |indices| - 1 { CountIn(indices[..|indices| - 1], j); }
  }

  /** Firing from this state neither raises nor spoils the mask. */
  ghost predicate FiresSafely(rules: Rules, pending: seq<seq<Item>>, mask: nat, indices: seq<nat>)
    requires Within(indices, |pending|)
  {
    var t := Take(rules, pending, mask, indices);
    !t.raised && Exact(t.pending, t.mask)
  }

  lemma DistinctFiresSafely(rules: Rules, pending: seq<seq<Item>>, mask: nat, indices: seq<nat>)
    requires Within(indices, |pending|) && Exact(pending, mask) && Ready(pending, indices) && Distinct(indices)
    ensures FiresSafely(rules, pending, mask, indices)
    ensures forall i :: 0 <= i < |pending| ==> Count(indices, i) <= |pending[i]|
  {
    forall i: nat | i < |pending| ensures Count(indices, i) <= |pending[i]| {
      CountDistinct(indices, i);
      if i in indices {
        var k :| 0 <= k < |indices| && indices[k] == i;
        assert Filled(pending, indices[k]);
      }
    }
    RaisedIff(rules, pending, mask, indices);
    ExactAfterTakeIff(rules, pending, mask, indices);
  }

  /** An exact state in which firing a chord with a repeated name goes wrong. */
  lemma RepeatedFiresUnsafely(rules: Rules, pending: seq<seq<Item>>, mask: nat, indices: seq<nat>, j: nat, k: nat)
    requires Within(indices, |pending|) && Exact(pending, mask)
    requires j < k < |indices| && indices[j] == indices[k]
    requires |pending[indices[j]]| == Count(indices, indices[j]) - 1
    ensures !FiresSafely(rules, pending, mask, indices)
  {
    var i := indices[j];
    if !Take(rules, pending, mask, indices).raised {
      ExactAfterTakeIff(rules, pending, mask, indices);
      assert Count(indices, i) - |pending[i]| == 1;
    }
  }

  /** Whatever exact state readies the chord, firing it goes well. */
  ghost predicate AlwaysSafe(rules: Rules, width: nat, indices: seq<nat>)
    requires Within(indices, width)
  {
    forall pending: seq<seq<Item>>, mask: nat ::
      |pending| == width && Exact(pending, mask) && Ready(pending, indices) ==>
        FiresSafely(rules, pending, mask, indices)
  }

  function Queue(size: nat): seq<Item> {
    seq(size, _ => Bare(Nil))
  }

  /** Firing a chord keeps the mask exact, and never raises, exactly when the chord's names are distinct. */
  lemma SafeIffDistinct(rules: Rules, width: nat, indices: seq<nat>)
    requires Within(indices, width)
    ensures AlwaysSafe(rules, width, indices) <==> Distinct(indices)
  {
    if Distinct(indices) {
      forall pending: seq<seq<Item>>, mask: nat
        | |pending| == width && Exact(pending, mask) && Ready(pending, indices)
        ensures FiresSafely(rules, pending, mask, indices)
      {
        DistinctFiresSafely(rules, pending, mask, indices);
      }
    } else {
      var j: nat, k: nat :| j < k < |indices| && indices[j] == indices[k];
      CountTwice(indices, j, k);
      var pending := seq(width, i requires 0 <= i < width =>
        if i !in indices then [] else Queue(if Count(indices, i) >= 2 then Count(indices, i) - 1 else 1));
      var mask := MaskOf(indices);
      forall i: nat ensures Bit(mask, i) <==> Filled(pending, i) {
        MaskBit(indices, i);
      }
      assert Ready(pending, indices);
      RepeatedFiresUnsafely(rules, pending, mask, indices, j, k);
    }
  }
}
