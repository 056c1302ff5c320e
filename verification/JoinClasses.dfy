// Which classes of lib/join.rb are safe in every run of their objects, repeated names in chords allowed.
module JoinClasses {
  import opened Common
  import opened JoinBits
  import opened JoinRules
  import opened JoinSafety
  import opened JoinRuns

  /** After these calls the mask is exact, and no further send raises. */
  ghost predicate SafeAfter(rules: Rules, calls: seq<Call>)
    requires rules.Ok() && CallsOk(rules, calls)
  {
    var w := Run(rules, calls);
    && Exact(w.pending, w.mask)
    && forall index: nat, value :: index < rules.width ==> Send(rules, w, index, value).outcome != Raised
  }

  ghost predicate AllRunsSafe(rules: Rules)
    requires rules.Ok()
  {
    forall calls: seq<Call> :: CallsOk(rules, calls) ==> SafeAfter(rules, calls)
  }

  /** The channels of c are among those of `indices`. */
  predicate Inside(c: Chord, indices: seq<nat>) {
    forall p :: 0 <= p < |c.indices| ==> c.indices[p] in indices
  }

  /** The channels of c are among those of `indices`, and i is not one of them. */
  predicate InsideWithout(c: Chord, indices: seq<nat>, i: nat) {
    Inside(c, indices) && i !in c.indices
  }

  /** A call of channel i can be the one that fires chord k: no chord tried before it lies inside its
      channels, and no chord at all inside them without i, so its other queues can fill up first. */
  predicate CanComplete(rules: Rules, k: nat, i: nat) {
    && k < |rules.chords| && i in rules.chords[k].indices
    && (forall j :: 0 <= j < k ==> !Inside(rules.chords[j], rules.chords[k].indices))
    && (forall j :: 0 <= j < |rules.chords| ==> !InsideWithout(rules.chords[j], rules.chords[k].indices, i))
  }

  /** Fired by a call of channel i, the chord can go wrong: it repeats another channel, or it repeats i
      where that raises or leaves the bit set. */
  predicate Spoils(rules: Rules, indices: seq<nat>, i: nat) {
    || (exists p :: 0 <= p < |indices| && indices[p] != i && Count(indices, indices[p]) >= 2)
    || (Count(indices, i) >= 2 && (rules.Sync(i) || Count(indices, i) % 2 == 0))
  }

  /** Some chord with a repeated name can fire, and go wrong when it does. */
  ghost predicate Dangerous(rules: Rules) {
    exists k: nat, i: nat :: CanComplete(rules, k, i) && Spoils(rules, rules.chords[k].indices, i)
  }

  // ----- No dangerous chord: every run is safe -----

  /** The call that readies a chord found its queue empty, and the chord completes at that channel. */
  lemma Completes(rules: Rules, before: seq<seq<Item>>, index: nat, item: Item, pushed: seq<seq<Item>>, k: nat)
    requires Quiet(rules, before) && index < |before| && pushed == before[index := before[index] + [item]]
    requires k < |rules.chords| && Ready(pushed, rules.chords[k].indices)
    requires forall j :: 0 <= j < k ==> !Ready(pushed, rules.chords[j].indices)
    ensures before[index] == [] && CanComplete(rules, k, index)
  {
    var indices := rules.chords[k].indices;
    assert rules.chords[k] in rules.chords;
    var p :| 0 <= p < |indices| && !Filled(before, indices[p]);
    assert Filled(pushed, indices[p]);
    forall j | 0 <= j < |rules.chords| && Inside(rules.chords[j], indices)
      ensures Ready(pushed, rules.chords[j].indices)
      ensures index in rules.chords[j].indices
    {
      InsideReady(rules.chords[j], pushed, indices);
      assert rules.chords[j] in rules.chords;
      var q :| 0 <= q < |rules.chords[j].indices| && !Filled(before, rules.chords[j].indices[q]);
      assert Filled(pushed, rules.chords[j].indices[q]);
    }
  }

  lemma InsideReady(c: Chord, pending: seq<seq<Item>>, indices: seq<nat>)
    requires Inside(c, indices) && Ready(pending, indices)
    ensures Ready(pending, c.indices)
  {
    forall p | 0 <= p < |c.indices| ensures Filled(pending, c.indices[p]) {
      var q :| 0 <= q < |indices| && indices[q] == c.indices[p];
      assert Filled(pending, indices[q]);
    }
  }

  lemma {:induction false} CountOutside(indices: seq<nat>, i: nat)
    ensures Count(indices, i) > 0 <==> i in indices
  {
    if indices != [] {
      CountOutside(indices[..|indices| - 1], i);
      assert indices == indices[..|indices| - 1] + [indices[|indices| - 1]];
    }
  }

  /** Where nothing can go wrong, each other queue gives one item, and the completing one an odd number of shifts. */
  lemma HarmlessCount(rules: Rules, pending: seq<seq<Item>>, indices: seq<nat>, i: nat, j: nat)
    requires Ready(pending, indices) && i < |pending| && |pending[i]| == 1 && j < |pending|
    requires i in indices && !Spoils(rules, indices, i)
    ensures rules.Sync(j) ==> Count(indices, j) <= |pending[j]|
    ensures Count(indices, j) < |pending[j]| || (Count(indices, j) - |pending[j]|) % 2 == 0
  {
    CountOutside(indices, j);
    if j in indices {
      var p :| 0 <= p < |indices| && indices[p] == j;
      assert Filled(pending, indices[p]);
      assert j != i ==> Count(indices, indices[p]) < 2;
    }
  }

  lemma HarmlessFires(rules: Rules, pending: seq<seq<Item>>, mask: nat, indices: seq<nat>, i: nat)
    requires Within(indices, |pending|) && Exact(pending, mask) && Ready(pending, indices)
    requires i < |pending| && |pending[i]| == 1 && i in indices && !Spoils(rules, indices, i)
    ensures FiresSafely(rules, pending, mask, indices)
    ensures Take(rules, pending, mask, indices).pending[i] == []
    ensures forall j :: 0 <= j < |pending| && pending[j] == [] ==> Take(rules, pending, mask, indices).pending[j] == []
  {
    forall j | 0 <= j < |pending|
      ensures rules.Sync(j) ==> Count(indices, j) <= |pending[j]|
      ensures Count(indices, j) < |pending[j]| || (Count(indices, j) - |pending[j]|) % 2 == 0
    {
      HarmlessCount(rules, pending, indices, i, j);
    }
    RaisedIff(rules, pending, mask, indices);
    ExactAfterTakeIff(rules, pending, mask, indices);
    forall j | 0 <= j < |pending|
      ensures Shifts(Take(rules, pending, mask, indices), j, pending[j], Count(indices, j))
    {
      TakeShifts(rules, pending, mask, indices, j);
    }
    CountOutside(indices, i);
  }

  lemma QuietStays(rules: Rules, before: seq<seq<Item>>, index: nat, after: seq<seq<Item>>)
    requires Quiet(rules, before) && |after| == |before| && index < |before| && after[index] == []
    requires forall j :: 0 <= j < |before| && before[j] == [] ==> after[j] == []
    ensures Quiet(rules, after)
  {
    forall c | c in rules.chords ensures !Ready(after, c.indices) {
      var p :| 0 <= p < |c.indices| && !Filled(before, c.indices[p]);
      assert !Filled(after, c.indices[p]);
    }
  }

  lemma HarmlessSend(rules: Rules, w: World, index: nat, value: Value)
    requires rules.Ok() && !Dangerous(rules) && Core(rules, w.pending, w.mask) && index < rules.width
    ensures var s := Send(rules, w, index, value);
            Core(rules, s.world.pending, s.world.mask) && s.outcome != Raised
  {
    var item, q := ItemOf(rules, index, value, w.clock), Queued(rules, w, index, value);
    PushedExact(w.pending, w.mask, index, item);
    forall c | c in rules.chords ensures Enabled(c, q.mask) <==> Ready(q.pending, c.indices) {
      EnabledMeansReady(c, q.pending, q.mask);
    }
    var k := FirstEnabled(rules.chords, q.mask);
    if k < |rules.chords| {
      forall j | 0 <= j <= k ensures rules.chords[j] in rules.chords {}
      Completes(rules, w.pending, index, item, q.pending, k);
      HarmlessFires(rules, q.pending, q.mask, rules.chords[k].indices, index);
      QuietStays(rules, w.pending, index, Take(rules, q.pending, q.mask, rules.chords[k].indices).pending);
    }
  }

  lemma {:induction false} HarmlessRun(rules: Rules, calls: seq<Call>)
    requires rules.Ok() && !Dangerous(rules) && CallsOk(rules, calls)
    ensures var w := Run(rules, calls);
            Core(rules, w.pending, w.mask)
  {
    if calls == [] {
      FreshCore(rules);
    } else {
      var front, last := calls[..|calls| - 1], calls[|calls| - 1];
      HarmlessRun(rules, front);
      HarmlessSend(rules, Run(rules, front), last.index, last.value);
    }
  }

  // ----- A dangerous chord: some run goes wrong -----

  function CallsOn(channels: seq<nat>): (calls: seq<Call>)
    ensures |calls| == |channels|
  {
    seq(|channels|, k requires 0 <= k < |channels| => Call(channels[k], Nil))
  }

  /** The channels other than i, in order and with their repetitions. */
  function Others(indices: seq<nat>, i: nat): seq<nat> {
    if indices == [] then []
    else
      var n := |indices| - 1;
      Others(indices[..n], i) + if indices[n] == i then [] else [indices[n]]
  }

  lemma {:induction false} CountOthers(indices: seq<nat>, i: nat, j: nat)
    ensures Count(Others(indices, i), j) == if j == i then 0 else Count(indices, j)
  {
    if indices != [] {
      var n := |indices| - 1;
      CountOthers(indices[..n], i, j);
      if indices[n] == i {
        assert Others(indices, i) == Others(indices[..n], i);
      } else {
        assert Others(indices, i)[..|Others(indices[..n], i)|] == Others(indices[..n], i);
      }
    }
  }

  lemma {:induction false} CountDropped(indices: seq<nat>, p: nat, j: nat)
    requires p < |indices|
    ensures Count(indices[..p] + indices[p + 1..], j) == Count(indices, j) - if indices[p] == j then 1 else 0
  {
    var n := |indices| - 1;
    var dropped := indices[..p] + indices[p + 1..];
    if p == n {
      assert dropped == indices[..n];
    } else {
      CountDropped(indices[..n], p, j);
      assert dropped[..n - 1] == indices[..n][..p] + indices[..n][p + 1..] && dropped[n - 1] == indices[n];
    }
  }

  /** As long as no chord lies inside the channels called, the values only queue up. */
  lemma {:induction false} FillRun(rules: Rules, channels: seq<nat>)
    requires rules.Ok() && Within(channels, rules.width)
    requires forall j :: 0 <= j < |rules.chords| ==> !Inside(rules.chords[j], channels)
    ensures CallsOk(rules, CallsOn(channels))
    ensures var w := Run(rules, CallsOn(channels));
            Exact(w.pending, w.mask) && forall j :: 0 <= j < rules.width ==> |w.pending[j]| == Count(channels, j)
  {
    if channels == [] {
      FreshCore(rules);
    } else {
      var n := |channels| - 1;
      forall j | 0 <= j < |rules.chords| ensures !Inside(rules.chords[j], channels[..n]) {
        var p :| 0 <= p < |rules.chords[j].indices| && rules.chords[j].indices[p] !in channels;
        assert rules.chords[j].indices[p] !in channels[..n];
      }
      FillRun(rules, channels[..n]);
      assert CallsOn(channels)[..n] == CallsOn(channels[..n]);
      FillStep(rules, Run(rules, CallsOn(channels[..n])), channels);
    }
  }

  lemma FillStep(rules: Rules, w: World, channels: seq<nat>)
    requires rules.Ok() && Within(channels, rules.width) && channels != [] && |w.pending| == rules.width
    requires forall j :: 0 <= j < |rules.chords| ==> !Inside(rules.chords[j], channels)
    requires Exact(w.pending, w.mask)
    requires forall j :: 0 <= j < rules.width ==> |w.pending[j]| == Count(channels[..|channels| - 1], j)
    ensures var r := Send(rules, w, channels[|channels| - 1], Nil).world;
            Exact(r.pending, r.mask) && forall j :: 0 <= j < rules.width ==> |r.pending[j]| == Count(channels, j)
  {
    var last := channels[|channels| - 1];
    var q := Queued(rules, w, last, Nil);
    PushedExact(w.pending, w.mask, last, ItemOf(rules, last, Nil, w.clock));
    forall j | 0 <= j < |rules.chords| ensures !Enabled(rules.chords[j], q.mask) {
      var c := rules.chords[j];
      assert c in rules.chords;
      EnabledMeansReady(c, q.pending, q.mask);
      var p :| 0 <= p < |c.indices| && c.indices[p] !in channels;
      CountOutside(channels, c.indices[p]);
      assert !Filled(q.pending, c.indices[p]);
    }
  }

  /** Once its other queues are filled, a call of channel i fires the chord. */
  lemma FiresNow(rules: Rules, w: World, k: nat, i: nat, channels: seq<nat>)
    requires rules.Ok() && CanComplete(rules, k, i) && i < rules.width == |w.pending| && Exact(w.pending, w.mask)
    requires forall j :: 0 <= j < rules.width ==> |w.pending[j]| == Count(channels, j)
    requires forall j :: j in channels ==> j in rules.chords[k].indices
    requires forall j :: j in rules.chords[k].indices && j != i ==> j in channels
    ensures var q := Queued(rules, w, i, Nil);
            Exact(q.pending, q.mask) && FirstEnabled(rules.chords, q.mask) == k
  {
    var q := Queued(rules, w, i, Nil);
    PushedExact(w.pending, w.mask, i, ItemOf(rules, i, Nil, w.clock));
    forall j: nat | j < rules.width ensures Filled(q.pending, j) <==> j in rules.chords[k].indices {
      CountOutside(channels, j);
    }
    forall j | 0 <= j <= k ensures Enabled(rules.chords[j], q.mask) <==> j == k {
      var c := rules.chords[j];
      assert c in rules.chords;
      EnabledMeansReady(c, q.pending, q.mask);
      if j < k {
        var p :| 0 <= p < |c.indices| && c.indices[p] !in rules.chords[k].indices;
        assert !Filled(q.pending, c.indices[p]);
      }
    }
  }

  /** A firing that asks a queue for an odd number too many, or too many of a synchronous one, goes wrong. */
  lemma ShortFires(rules: Rules, pending: seq<seq<Item>>, mask: nat, indices: seq<nat>, j: nat)
    requires Within(indices, |pending|) && Exact(pending, mask) && j < |pending|
    requires var short := Count(indices, j) - |pending[j]|;
             short > 0 && (rules.Sync(j) || short % 2 == 1)
    ensures !FiresSafely(rules, pending, mask, indices)
  {
    RaisedIff(rules, pending, mask, indices);
    if !Take(rules, pending, mask, indices).raised {
      ExactAfterTakeIff(rules, pending, mask, indices);
    }
  }

  lemma NotSafe(rules: Rules, calls: seq<Call>, i: nat, s: Sent)
    requires rules.Ok() && CallsOk(rules, calls) && i < rules.width && s == Send(rules, Run(rules, calls), i, Nil)
    requires s.outcome == Raised || !Exact(s.world.pending, s.world.mask)
    ensures !AllRunsSafe(rules)
  {
    if s.outcome == Raised {
      assert !SafeAfter(rules, calls);
    } else {
      assert (calls + [Call(i, Nil)])[..|calls|] == calls;
      assert CallsOk(rules, calls + [Call(i, Nil)]);
      assert !SafeAfter(rules, calls + [Call(i, Nil)]);
    }
  }

  lemma ShortSend(rules: Rules, w: World, i: nat, k: nat, j: nat, size: nat, q: World, s: Sent)
    requires rules.Ok() && i < rules.width == |w.pending| && j < rules.width && k < |rules.chords|
    requires q == Queued(rules, w, i, Nil) && s == Send(rules, w, i, Nil)
    requires FirstEnabled(rules.chords, q.mask) == k && Exact(q.pending, q.mask) && |q.pending[j]| == size
    requires var short := Count(rules.chords[k].indices, j) - size;
             short > 0 && (rules.Sync(j) || short % 2 == 1)
    ensures s.outcome == Raised || !Exact(s.world.pending, s.world.mask)
  {
    assert rules.chords[k] in rules.chords;
    ShortFires(rules, q.pending, q.mask, rules.chords[k].indices, j);
  }

  lemma ShortNotSafe(rules: Rules, calls: seq<Call>, i: nat, k: nat, j: nat, size: nat, q: World)
    requires rules.Ok() && CallsOk(rules, calls) && i < rules.width && j < rules.width && k < |rules.chords|
    requires q == Queued(rules, Run(rules, calls), i, Nil)
    requires FirstEnabled(rules.chords, q.mask) == k && Exact(q.pending, q.mask) && |q.pending[j]| == size
    requires var short := Count(rules.chords[k].indices, j) - size;
             short > 0 && (rules.Sync(j) || short % 2 == 1)
    ensures !AllRunsSafe(rules)
  {
    var w := Run(rules, calls);
    var s := Send(rules, w, i, Nil);
    ShortSend(rules, w, i, k, j, size, q, s);
    NotSafe(rules, calls, i, s);
  }

  /** The channels that fill up before channel i completes chord k. */
  ghost predicate FillsUp(rules: Rules, k: nat, i: nat, channels: seq<nat>) {
    && CanComplete(rules, k, i) && Within(channels, rules.width) && i < rules.width
    && forall j :: j in channels <==> j in rules.chords[k].indices && j != i
  }

  /** The run that fills the other queues is quiet, and the call of i then fires the chord. */
  lemma FilledThenFires(rules: Rules, k: nat, i: nat, channels: seq<nat>, j: nat, q: World)
    requires rules.Ok() && FillsUp(rules, k, i, channels) && CallsOk(rules, CallsOn(channels)) && j < rules.width
    requires q == Queued(rules, Run(rules, CallsOn(channels)), i, Nil)
    ensures Exact(q.pending, q.mask) && FirstEnabled(rules.chords, q.mask) == k
    ensures |q.pending[j]| == Count(channels + [i], j)
  {
    forall c | 0 <= c < |rules.chords| ensures !Inside(rules.chords[c], channels) {
      assert !InsideWithout(rules.chords[c], rules.chords[k].indices, i);
    }
    FillRun(rules, channels);
    FiresNow(rules, Run(rules, CallsOn(channels)), k, i, channels);
    assert (channels + [i])[..|channels|] == channels;
  }

  lemma GoesWrong(rules: Rules, k: nat, i: nat, channels: seq<nat>, j: nat, size: nat)
    requires rules.Ok() && FillsUp(rules, k, i, channels) && j < rules.width && size == Count(channels + [i], j)
    requires var short := Count(rules.chords[k].indices, j) - size;
             short > 0 && (rules.Sync(j) || short % 2 == 1)
    ensures !AllRunsSafe(rules)
  {
    var calls := CallsOn(channels);
    var q := Queued(rules, Run(rules, calls), i, Nil);
    FilledThenFires(rules, k, i, channels, j, q);
    ShortNotSafe(rules, calls, i, k, j, size, q);
  }

  lemma OthersAre(kept: seq<nat>, indices: seq<nat>, i: nat, width: nat)
    requires Within(indices, width) && forall h: nat :: h in kept <==> h in indices
    ensures Within(Others(kept, i), width) && forall h: nat :: h in Others(kept, i) <==> h != i && h in indices
  {
    var channels := Others(kept, i);
    forall h: nat ensures h in channels <==> h != i && h in indices {
      CountOthers(kept, i, h);
      CountOutside(channels, h);
      CountOutside(kept, h);
    }
    forall p | 0 <= p < |channels| ensures channels[p] < width {
      assert channels[p] in channels;
      var q :| 0 <= q < |indices| && indices[q] == channels[p];
    }
  }

  lemma CountThenCall(kept: seq<nat>, i: nat, j: nat)
    ensures Count(Others(kept, i) + [i], j) == if j == i then 1 else Count(kept, j)
  {
    var channels := Others(kept, i);
    CountOthers(kept, i, j);
    assert (channels + [i])[..|channels|] == channels;
  }

  lemma InsideWidth(rules: Rules, k: nat, i: nat)
    requires rules.Ok() && k < |rules.chords| && i in rules.chords[k].indices
    ensures i < rules.width
  {
    assert rules.chords[k] in rules.chords;
    var p :| 0 <= p < |rules.chords[k].indices| && rules.chords[k].indices[p] == i;
  }

  /** A run that sends on the kept channels other than i, and then on i. */
  lemma KeptGoesWrong(rules: Rules, k: nat, i: nat, kept: seq<nat>, j: nat)
    requires rules.Ok() && CanComplete(rules, k, i) && j in rules.chords[k].indices
    requires forall h: nat :: h in kept <==> h in rules.chords[k].indices
    requires var short := Count(rules.chords[k].indices, j) - if j == i then 1 else Count(kept, j);
             short > 0 && (rules.Sync(j) || short % 2 == 1)
    ensures !AllRunsSafe(rules)
  {
    assert rules.chords[k] in rules.chords;
    OthersAre(kept, rules.chords[k].indices, i, rules.width);
    CountThenCall(kept, i, j);
    InsideWidth(rules, k, i);
    InsideWidth(rules, k, j);
    GoesWrong(rules, k, i, Others(kept, i), j, if j == i then 1 else Count(kept, j));
  }

  /** One call less than the chord asks for on a channel that it repeats. */
  lemma KeptOneLess(indices: seq<nat>, p: nat, kept: seq<nat>)
    requires p < |indices| && Count(indices, indices[p]) >= 2 && kept == indices[..p] + indices[p + 1..]
    ensures forall h: nat :: h in kept <==> h in indices
    ensures Count(kept, indices[p]) == Count(indices, indices[p]) - 1
  {
    forall h: nat ensures h in kept <==> h in indices {
      CountDropped(indices, p, h);
      CountOutside(kept, h);
      CountOutside(indices, h);
    }
    CountDropped(indices, p, indices[p]);
  }

  lemma RepeatsOther(rules: Rules, k: nat, i: nat, p: nat)
    requires rules.Ok() && CanComplete(rules, k, i) && p < |rules.chords[k].indices|
    requires rules.chords[k].indices[p] != i && Count(rules.chords[k].indices, rules.chords[k].indices[p]) >= 2
    ensures !AllRunsSafe(rules)
  {
    var indices := rules.chords[k].indices;
    var kept := indices[..p] + indices[p + 1..];
    KeptOneLess(indices, p, kept);
    KeptGoesWrong(rules, k, i, kept, indices[p]);
  }

  lemma DangerousGoesWrong(rules: Rules, k: nat, i: nat)
    requires rules.Ok() && CanComplete(rules, k, i) && Spoils(rules, rules.chords[k].indices, i)
    ensures !AllRunsSafe(rules)
  {
    var indices := rules.chords[k].indices;
    if p :| 0 <= p < |indices| && indices[p] != i && Count(indices, indices[p]) >= 2 {
      RepeatsOther(rules, k, i, p);
    } else {
      KeptGoesWrong(rules, k, i, indices, i);
    }
  }

  /** In every run of an object of the class the mask stays exact and no send raises, exactly if no
      chord with a repeated name can fire where that goes wrong. */
  lemma SafeIffNotDangerous(rules: Rules)
    requires rules.Ok()
    ensures AllRunsSafe(rules) <==> !Dangerous(rules)
  {
    if Dangerous(rules) {
      var k: nat, i: nat :| CanComplete(rules, k, i) && Spoils(rules, rules.chords[k].indices, i);
      DangerousGoesWrong(rules, k, i);
    } else {
      forall calls: seq<Call> | CallsOk(rules, calls) ensures SafeAfter(rules, calls) {
        HarmlessRun(rules, calls);
        forall index: nat, value | index < rules.width
          ensures Send(rules, Run(rules, calls), index, value).outcome != Raised
        {
          HarmlessSend(rules, Run(rules, calls), index, value);
        }
      }
    }
  }

  /** A repeated name does no harm in a chord that never gets its turn. */
  lemma RepeatedNeedsTurn(rules: Rules)
    requires rules.Ok()
    requires forall k: nat, i: nat :: CanComplete(rules, k, i) ==> Distinct(rules.chords[k].indices)
    ensures AllRunsSafe(rules)
  {
    forall k: nat, i: nat | CanComplete(rules, k, i) ensures !Spoils(rules, rules.chords[k].indices, i) {
      forall h: nat ensures Count(rules.chords[k].indices, h) < 2 {
        CountDistinct(rules.chords[k].indices, h);
      }
    }
    SafeIffNotDangerous(rules);
  }

  lemma DistinctIsSafe(rules: Rules)
    requires RulesOk(rules)
    ensures AllRunsSafe(rules)
  {
    forall k: nat, i: nat | CanComplete(rules, k, i) ensures Distinct(rules.chords[k].indices) {
      assert rules.chords[k] in rules.chords;
    }
    RepeatedNeedsTurn(rules);
  }
}
