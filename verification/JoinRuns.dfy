// Whole runs of an object of lib/join.rb whose chords name each of their channels once.
module JoinRuns {
  import opened Common
  import opened JoinBits
  import opened JoinRules
  import opened JoinSafety

  ghost predicate RulesOk(rules: Rules) {
    rules.Ok() && forall c :: c in rules.chords ==> Distinct(c.indices)
  }

  /** No chord is left enabled. */
  ghost predicate Quiet(rules: Rules, pending: seq<seq<Item>>) {
    forall c :: c in rules.chords ==> !Ready(pending, c.indices)
  }

  ghost predicate Core(rules: Rules, pending: seq<seq<Item>>, mask: nat) {
    |pending| == rules.width && Exact(pending, mask) && Quiet(rules, pending)
  }

  // ----- One send -----

  lemma PushedExact(pending: seq<seq<Item>>, mask: nat, index: nat, item: Item)
    requires Exact(pending, mask) && index < |pending|
    ensures Exact(pending[index := pending[index] + [item]], Or(mask, Shifted(index)))
  {
    forall i: nat
      ensures Bit(Or(mask, Shifted(index)), i) <==> Filled(pending[index := pending[index] + [item]], i)
    {
      SetBit(mask, index, i);
      assert Bit(mask, i) <==> Filled(pending, i);
    }
  }

  /** What one send does: queue the item and, if that readies a chord, start the first one that is ready. */
  ghost predicate Step(rules: Rules, w: World, index: nat, item: Item, s: Sent)
    requires rules.Ok() && |w.pending| == rules.width && index < rules.width
  {
    var pushed := w.pending[index := w.pending[index] + [item]];
    || (s.world == World(pushed, s.world.mask, w.firings, w.answers, w.clock + 1) && Quiet(rules, pushed))
    || exists k: nat, items :: Starts(rules, w, pushed, s, k, items)
  }

  ghost predicate Starts(rules: Rules, w: World, pushed: seq<seq<Item>>, s: Sent, k: nat, items: seq<Item>) {
    && k < |rules.chords|
    && Ready(pushed, rules.chords[k].indices)
    && (forall j :: 0 <= j < k ==> !Ready(pushed, rules.chords[j].indices))
    && s.world == World(s.world.pending, s.world.mask, w.firings + [Firing(k, items)],
                        Answered(w.answers, Replies(items), |w.firings|), w.clock + 1)
    && Drawn(pushed, s.world.pending, rules.chords[k].indices, items)
  }

  /** The heads of the named queues have gone into `items`; the other queues are as they were. */
  ghost predicate Drawn(before: seq<seq<Item>>, after: seq<seq<Item>>, indices: seq<nat>, items: seq<Item>) {
    && |after| == |before| && |items| == |indices|
    && (forall i :: 0 <= i < |before| ==> Drew(before, after, indices, i))
    && (forall p :: 0 <= p < |indices| ==> Filled(before, indices[p]) && items[p] == before[indices[p]][0])
  }

  ghost predicate Drew(before: seq<seq<Item>>, after: seq<seq<Item>>, indices: seq<nat>, i: nat)
    requires i < |before| == |after|
  {
    if i in indices then before[i] != [] && after[i] == before[i][1..] else after[i] == before[i]
  }

  lemma {:induction false} TakeHeads(rules: Rules, pending: seq<seq<Item>>, mask: nat, indices: seq<nat>, p: nat)
    requires Within(indices, |pending|) && Exact(pending, mask) && Ready(pending, indices) && Distinct(indices)
    requires p < |indices|
    ensures var t := Take(rules, pending, mask, indices);
            !t.raised && |t.items| == |indices| && t.items[p] == pending[indices[p]][0]
  {
    var front, last := indices[..|indices| - 1], indices[|indices| - 1];
    DistinctFiresSafely(rules, pending, mask, indices);
    DistinctFiresSafely(rules, pending, mask, front);
    TakeShifts(rules, pending, mask, front, last);
    CountDistinct(front, last);
    TakeLength(rules, pending, mask, indices);
    assert Filled(pending, indices[|indices| - 1]);
    if p < |front| {
      TakeHeads(rules, pending, mask, front, p);
    }
  }

  lemma {:induction false} TakeLength(rules: Rules, pending: seq<seq<Item>>, mask: nat, indices: seq<nat>)
    requires Within(indices, |pending|) && !Take(rules, pending, mask, indices).raised
    ensures |Take(rules, pending, mask, indices).items| == |indices|
  {
    if indices != [] { TakeLength(rules, pending, mask, indices[..|indices| - 1]); }
  }

  lemma TakeDraws(rules: Rules, pending: seq<seq<Item>>, mask: nat, indices: seq<nat>)
    requires Within(indices, |pending|) && Exact(pending, mask) && Ready(pending, indices) && Distinct(indices)
    ensures FiresSafely(rules, pending, mask, indices)
    ensures Drawn(pending, Take(rules, pending, mask, indices).pending, indices,
                  Take(rules, pending, mask, indices).items)
  {
    var t := Take(rules, pending, mask, indices);
    DistinctFiresSafely(rules, pending, mask, indices);
    TakeLength(rules, pending, mask, indices);
    forall i | 0 <= i < |pending| ensures Drew(pending, t.pending, indices, i) {
      TakeShifts(rules, pending, mask, indices, i);
      CountDistinct(indices, i);
      if i in indices {
        var k :| 0 <= k < |indices| && indices[k] == i;
        assert Filled(pending, indices[k]);
      }
    }
    forall p | 0 <= p < |indices| ensures Filled(pending, indices[p]) && t.items[p] == pending[indices[p]][0] {
      TakeHeads(rules, pending, mask, indices, p);
    }
  }

  /** After a firing no chord is ready: the queue that completed it held one item and is empty again. */
  lemma QuietAfter(rules: Rules, before: seq<seq<Item>>, index: nat, item: Item, after: seq<seq<Item>>, fired: seq<nat>,
                   items: seq<Item>, c: Chord)
    requires index < |before| && Quiet(rules, before) && c in rules.chords
    requires var pushed := before[index := before[index] + [item]];
             Drawn(pushed, after, fired, items)
    requires !Ready(before, fired)
    ensures !Ready(after, c.indices)
  {
    var pushed := before[index := before[index] + [item]];
    var k :| 0 <= k < |fired| && !Filled(before, fired[k]);
    assert Filled(pushed, fired[k]);
    var j :| 0 <= j < |c.indices| && !Filled(before, c.indices[j]);
    if c.indices[j] < |before| {
      assert Drew(pushed, after, fired, c.indices[j]);
    }
    assert !Filled(after, c.indices[j]);
  }

  lemma FireKeepsCore(rules: Rules, w: World, index: nat, item: Item, q: World, k: nat, outcome: Result)
    requires RulesOk(rules) && |w.pending| == rules.width && Quiet(rules, w.pending) && index < rules.width
    requires q.pending == w.pending[index := w.pending[index] + [item]] && Exact(q.pending, q.mask)
    requires q.firings == w.firings && q.answers == w.answers && q.clock == w.clock + 1
    requires k < |rules.chords| && rules.chords[k] in rules.chords && Ready(q.pending, rules.chords[k].indices)
    requires forall j :: 0 <= j < k ==> !Ready(q.pending, rules.chords[j].indices)
    ensures var s := Fire(rules, q, k, outcome);
            && Core(rules, s.world.pending, s.world.mask) && s.outcome == outcome
            && exists items :: Starts(rules, w, q.pending, s, k, items)
  {
    var fired := rules.chords[k];
    TakeDraws(rules, q.pending, q.mask, fired.indices);
    var t := Take(rules, q.pending, q.mask, fired.indices);
    forall c | c in rules.chords ensures !Ready(t.pending, c.indices) {
      QuietAfter(rules, w.pending, index, item, t.pending, fired.indices, t.items, c);
    }
    assert Starts(rules, w, q.pending, Fire(rules, q, k, outcome), k, t.items);
  }

  lemma SendKeepsCore(rules: Rules, w: World, index: nat, value: Value)
    requires RulesOk(rules) && Core(rules, w.pending, w.mask) && index < rules.width
    ensures var s := Send(rules, w, index, value);
            && Core(rules, s.world.pending, s.world.mask)
            && Step(rules, w, index, ItemOf(rules, index, value, w.clock), s)
            && s.outcome == if rules.Sync(index) then Waits(w.clock) else Done
  {
    var item := ItemOf(rules, index, value, w.clock);
    var q := Queued(rules, w, index, value);
    PushedExact(w.pending, w.mask, index, item);
    forall c | c in rules.chords ensures Enabled(c, q.mask) <==> Ready(q.pending, c.indices) {
      EnabledMeansReady(c, q.pending, q.mask);
    }
    var k := FirstEnabled(rules.chords, q.mask);
    if k < |rules.chords| {
      forall j | 0 <= j <= k ensures rules.chords[j] in rules.chords {}
      FireKeepsCore(rules, w, index, item, q, k, if rules.Sync(index) then Waits(w.clock) else Done);
    }
  }

  // ----- First in, first out -----

  /** The items sent on channel `i`, in the order the calls took the lock. */
  function SentOn(rules: Rules, calls: seq<Call>, i: nat): seq<Item> {
    if calls == [] then []
    else
      var front, last := calls[..|calls| - 1], calls[|calls| - 1];
      SentOn(rules, front, i) + if last.index == i then [ItemOf(rules, i, last.value, |front|)] else []
  }

  /** The items of one firing that came from channel `i`. */
  function Picks(indices: seq<nat>, items: seq<Item>, i: nat): seq<Item>
    requires |indices| == |items|
  {
    if indices == [] then []
    else
      var n := |indices| - 1;
      Picks(indices[..n], items[..n], i) + if indices[n] == i then [items[n]] else []
  }

  predicate FiringsOk(rules: Rules, firings: seq<Firing>) {
    forall f :: f in firings ==> f.chord < |rules.chords| && |f.items| == |rules.chords[f.chord].indices|
  }

  /** The items of channel `i` that started threads, in the order the threads were started. */
  function Consumed(rules: Rules, firings: seq<Firing>, i: nat): seq<Item>
    requires FiringsOk(rules, firings)
  {
    if firings == [] then []
    else
      var last := firings[|firings| - 1];
      Consumed(rules, firings[..|firings| - 1], i) + Picks(rules.chords[last.chord].indices, last.items, i)
  }

  lemma {:induction false} PicksOne(indices: seq<nat>, items: seq<Item>, i: nat)
    requires |indices| == |items| && Distinct(indices)
    ensures i !in indices ==> Picks(indices, items, i) == []
    ensures forall p :: 0 <= p < |indices| && indices[p] == i ==> Picks(indices, items, i) == [items[p]]
  {
    if indices != [] {
      var n := |indices| - 1;
      PicksOne(indices[..n], items[..n], i);
      assert indices == indices[..n] + [indices[n]];
    }
  }

  lemma {:induction false} PicksHas(indices: seq<nat>, items: seq<Item>, p: nat)
    requires |indices| == |items| && p < |indices|
    ensures items[p] in Picks(indices, items, indices[p])
  {
    var n := |indices| - 1;
    if p < n { PicksHas(indices[..n], items[..n], p); }
  }

  lemma {:induction false} ConsumedHas(rules: Rules, firings: seq<Firing>, k: nat, p: nat)
    requires FiringsOk(rules, firings) && k < |firings| && p < |firings[k].items|
    ensures firings[k].items[p] in Consumed(rules, firings, rules.chords[firings[k].chord].indices[p])
  {
    var n := |firings| - 1;
    if k < n {
      ConsumedHas(rules, firings[..n], k, p);
    } else {
      PicksHas(rules.chords[firings[k].chord].indices, firings[k].items, p);
    }
  }

  ghost predicate Fifo(rules: Rules, calls: seq<Call>, w: World) {
    && |w.pending| == rules.width && w.clock == |calls| && FiringsOk(rules, w.firings)
    && forall i :: 0 <= i < rules.width ==> InOrder(rules, calls, w.firings, w.pending, i)
  }

  ghost predicate InOrder(rules: Rules, calls: seq<Call>, firings: seq<Firing>, pending: seq<seq<Item>>, i: nat)
    requires FiringsOk(rules, firings) && i < |pending|
  {
    Consumed(rules, firings, i) + pending[i] == SentOn(rules, calls, i)
  }

  lemma PushedInOrder(rules: Rules, calls: seq<Call>, w: World, call: Call, i: nat)
    requires Fifo(rules, calls, w) && i < rules.width && call.index < rules.width
    ensures var item := ItemOf(rules, call.index, call.value, w.clock);
            InOrder(rules, calls + [call], w.firings, w.pending[call.index := w.pending[call.index] + [item]], i)
  {
    assert InOrder(rules, calls, w.firings, w.pending, i);
    assert (calls + [call])[..|calls|] == calls;
  }

  lemma DrawnInOrder(rules: Rules, calls: seq<Call>, firings: seq<Firing>, before: seq<seq<Item>>,
                     after: seq<seq<Item>>, f: Firing, i: nat)
    requires RulesOk(rules) && FiringsOk(rules, firings) && f.chord < |rules.chords|
    requires i < |before| && InOrder(rules, calls, firings, before, i)
    requires Drawn(before, after, rules.chords[f.chord].indices, f.items)
    ensures FiringsOk(rules, firings + [f]) && InOrder(rules, calls, firings + [f], after, i)
  {
    var indices := rules.chords[f.chord].indices;
    assert rules.chords[f.chord] in rules.chords;
    PicksOne(indices, f.items, i);
    assert Drew(before, after, indices, i);
    assert (firings + [f])[..|firings|] == firings;
    if i in indices {
      var p :| 0 <= p < |indices| && indices[p] == i;
      assert Filled(before, indices[p]);
      assert before[i] == [f.items[p]] + after[i];
    }
    assert Picks(indices, f.items, i) + after[i] == before[i];
  }

  lemma StepInOrder(rules: Rules, calls: seq<Call>, w: World, call: Call, s: Sent)
    requires RulesOk(rules) && Fifo(rules, calls, w) && call.index < rules.width
    requires Step(rules, w, call.index, ItemOf(rules, call.index, call.value, w.clock), s)
    ensures Fifo(rules, calls + [call], s.world)
  {
    var pushed := w.pending[call.index := w.pending[call.index] + [ItemOf(rules, call.index, call.value, w.clock)]];
    forall i | 0 <= i < rules.width ensures InOrder(rules, calls + [call], w.firings, pushed, i) {
      PushedInOrder(rules, calls, w, call, i);
    }
    if s.world.pending != pushed || s.world.firings != w.firings {
      var k: nat, items :| Starts(rules, w, pushed, s, k, items);
      assert FiringsOk(rules, s.world.firings);
      forall i | 0 <= i < rules.width ensures InOrder(rules, calls + [call], s.world.firings, s.world.pending, i) {
        DrawnInOrder(rules, calls + [call], w.firings, pushed, s.world.pending, Firing(k, items), i);
      }
    }
  }

  // ----- Replies -----

  /** Reply numbers grow along the items sent on a channel, and each names the call that made it. */
  lemma {:induction false} SentOnReplies(rules: Rules, calls: seq<Call>, i: nat)
    ensures forall p :: 0 <= p < |SentOn(rules, calls, i)| ==> FromCall(rules, calls, i, SentOn(rules, calls, i)[p])
    ensures Increasing(SentOn(rules, calls, i))
  {
    if calls != [] {
      SentOnReplies(rules, calls[..|calls| - 1], i);
    }
  }

  predicate FromCall(rules: Rules, calls: seq<Call>, i: nat, item: Item) {
    if rules.Sync(i) then item.Paired? && item.reply < |calls| && calls[item.reply] == Call(i, item.value)
    else item.Bare?
  }

  predicate Increasing(s: seq<Item>) {
    forall p, q :: 0 <= p < q < |s| && s[p].Paired? && s[q].Paired? ==> s[p].reply < s[q].reply
  }

  lemma {:induction false} SentOnHas(rules: Rules, calls: seq<Call>, t: nat)
    requires t < |calls|
    ensures ItemOf(rules, calls[t].index, calls[t].value, t) in SentOn(rules, calls, calls[t].index)
  {
    if t < |calls| - 1 { SentOnHas(rules, calls[..|calls| - 1], t); }
  }

  /** Reply `t` was answered exactly when some thread was given the item that carries it, and by that thread. */
  ghost predicate Replied(w: World) {
    && (forall k, p :: 0 <= k < |w.firings| && 0 <= p < |w.firings[k].items| ==> Served(w, k, w.firings[k].items[p]))
    && (forall t :: t in w.answers ==> w.answers[t] < |w.firings| && Carries(w.firings[w.answers[t]].items, t))
  }

  predicate Served(w: World, k: nat, item: Item) {
    item.Paired? ==> item.reply in w.answers && w.answers[item.reply] == k
  }

  predicate Carries(items: seq<Item>, t: nat) {
    exists p :: 0 <= p < |items| && items[p].Paired? && items[p].reply == t
  }

  lemma {:induction false} RepliesAre(items: seq<Item>, t: nat)
    ensures t in Replies(items) <==> Carries(items, t)
  {
    if items != [] {
      var front, last := items[..|items| - 1], items[|items| - 1];
      RepliesAre(front, t);
      if Carries(front, t) {
        var p :| 0 <= p < |front| && front[p].Paired? && front[p].reply == t;
        assert items[p] == front[p];
      }
      if last.Paired? && last.reply == t {
        assert items[|items| - 1].reply == t;
      }
      if Carries(items, t) {
        var p :| 0 <= p < |items| && items[p].Paired? && items[p].reply == t;
        if p < |front| { assert front[p] == items[p]; }
      }
    }
  }

  /** A reply carried by an earlier thread is not carried by the items now drawn. */
  lemma NotServedBefore(rules: Rules, calls: seq<Call>, firings: seq<Firing>, before: seq<seq<Item>>, k: nat, p: nat,
                        i: nat)
    requires FiringsOk(rules, firings) && rules.Ok()
    requires |before| == rules.width && i < rules.width && before[i] != [] && before[i][0].Paired?
    requires forall j :: 0 <= j < rules.width ==> InOrder(rules, calls, firings, before, j)
    requires k < |firings| && p < |firings[k].items| && firings[k].items[p].Paired?
    ensures firings[k].items[p].reply != before[i][0].reply
  {
    var chord := rules.chords[firings[k].chord];
    assert chord in rules.chords;
    var j := chord.indices[p];
    var served, drawn := firings[k].items[p], before[i][0];
    ConsumedHas(rules, firings, k, p);
    SentOnReplies(rules, calls, i);
    SentOnReplies(rules, calls, j);
    assert InOrder(rules, calls, firings, before, i) && InOrder(rules, calls, firings, before, j);
    var a :| 0 <= a < |Consumed(rules, firings, j)| && Consumed(rules, firings, j)[a] == served;
    var b := |Consumed(rules, firings, i)|;
    assert SentOn(rules, calls, j)[a] == served && SentOn(rules, calls, i)[b] == drawn;
    assert FromCall(rules, calls, j, served) && FromCall(rules, calls, i, drawn);
  }

  lemma StartsReplied(rules: Rules, calls: seq<Call>, w: World, pushed: seq<seq<Item>>, s: Sent, k: nat,
                      items: seq<Item>)
    requires rules.Ok() && FiringsOk(rules, w.firings) && Replied(w) && |pushed| == rules.width
    requires forall i :: 0 <= i < rules.width ==> InOrder(rules, calls, w.firings, pushed, i)
    requires Starts(rules, w, pushed, s, k, items)
    ensures Replied(s.world)
  {
    var n := |w.firings|;
    var indices := rules.chords[k].indices;
    assert rules.chords[k] in rules.chords;
    assert s.world.firings[n].items == items;
    forall t: nat ensures t in Replies(items) <==> Carries(items, t) {
      RepliesAre(items, t);
    }
    forall j, p | 0 <= j < |s.world.firings| && 0 <= p < |s.world.firings[j].items|
      ensures Served(s.world, j, s.world.firings[j].items[p])
    {
      var item := s.world.firings[j].items[p];
      if j < n && item.Paired? {
        assert Served(w, j, w.firings[j].items[p]);
        if Carries(items, item.reply) {
          var q :| 0 <= q < |items| && items[q].Paired? && items[q].reply == item.reply;
          assert Filled(pushed, indices[q]);
          NotServedBefore(rules, calls, w.firings, pushed, j, p, indices[q]);
          assert false;
        }
      } else if item.Paired? {
        assert Carries(items, item.reply);
      }
    }
    forall t | t in s.world.answers
      ensures s.world.answers[t] < |s.world.firings| && Carries(s.world.firings[s.world.answers[t]].items, t)
    {
      if t !in Replies(items) {
        assert s.world.firings[w.answers[t]] == w.firings[w.answers[t]];
      }
    }
  }

  lemma StepReplied(rules: Rules, calls: seq<Call>, w: World, call: Call, s: Sent)
    requires RulesOk(rules) && Fifo(rules, calls, w) && Replied(w) && call.index < rules.width
    requires Step(rules, w, call.index, ItemOf(rules, call.index, call.value, w.clock), s)
    ensures Replied(s.world)
  {
    var pushed := w.pending[call.index := w.pending[call.index] + [ItemOf(rules, call.index, call.value, w.clock)]];
    forall i | 0 <= i < rules.width ensures InOrder(rules, calls + [call], w.firings, pushed, i) {
      PushedInOrder(rules, calls, w, call, i);
    }
    if s.world.firings == w.firings {
      forall j, p | 0 <= j < |w.firings| && 0 <= p < |w.firings[j].items|
        ensures Served(s.world, j, w.firings[j].items[p])
      {
        assert Served(w, j, w.firings[j].items[p]);
      }
    } else {
      var k: nat, items :| Starts(rules, w, pushed, s, k, items);
      StartsReplied(rules, calls + [call], w, pushed, s, k, items);
    }
  }

  // ----- Every run -----

  ghost predicate RunInv(rules: Rules, calls: seq<Call>, w: World) {
    Core(rules, w.pending, w.mask) && Fifo(rules, calls, w) && Replied(w)
  }

  lemma FreshCore(rules: Rules)
    requires rules.Ok()
    ensures Core(rules, Fresh(rules.width).pending, Fresh(rules.width).mask)
  {
    var w := Fresh(rules.width);
    forall i: nat ensures Bit(w.mask, i) <==> Filled(w.pending, i) {
      ZeroHasNoBits(i);
    }
    forall c | c in rules.chords ensures !Ready(w.pending, c.indices) {
      assert !Filled(w.pending, c.indices[0]);
    }
  }

  lemma FreshInv(rules: Rules)
    requires RulesOk(rules)
    ensures RunInv(rules, [], Fresh(rules.width))
  {
    FreshCore(rules);
  }

  lemma SendKeepsInv(rules: Rules, calls: seq<Call>, w: World, call: Call)
    requires RulesOk(rules) && RunInv(rules, calls, w) && call.index < rules.width
    ensures RunInv(rules, calls + [call], Send(rules, w, call.index, call.value).world)
  {
    SendKeepsCore(rules, w, call.index, call.value);
    var s := Send(rules, w, call.index, call.value);
    StepInOrder(rules, calls, w, call, s);
    StepReplied(rules, calls, w, call, s);
  }

  /** After any calls in any order: the mask is exact, no chord is ready, every channel is a queue, and replies
      match. */
  lemma {:induction false} EveryRun(rules: Rules, calls: seq<Call>)
    requires RulesOk(rules) && CallsOk(rules, calls)
    ensures RunInv(rules, calls, Run(rules, calls))
  {
    if calls == [] {
      FreshInv(rules);
    } else {
      var front, last := calls[..|calls| - 1], calls[|calls| - 1];
      EveryRun(rules, front);
      SendKeepsInv(rules, front, Run(rules, front), last);
      assert calls == front + [last];
    }
  }

  /** An item in a thread that carries reply `t` is the item call `t` sent, on the channel it was sent on. */
  lemma CarriedItem(rules: Rules, calls: seq<Call>, w: World, k: nat, p: nat)
    requires rules.Ok() && Fifo(rules, calls, w)
    requires k < |w.firings| && p < |w.firings[k].items| && w.firings[k].items[p].Paired?
    ensures var item := w.firings[k].items[p];
            && item.reply < |calls| && calls[item.reply].value == item.value && calls[item.reply].index < rules.width
            && item in Consumed(rules, w.firings, calls[item.reply].index)
  {
    var chord := rules.chords[w.firings[k].chord];
    assert chord in rules.chords;
    var i, item := chord.indices[p], w.firings[k].items[p];
    ConsumedHas(rules, w.firings, k, p);
    SentOnReplies(rules, calls, i);
    assert InOrder(rules, calls, w.firings, w.pending, i);
    var a :| 0 <= a < |Consumed(rules, w.firings, i)| && Consumed(rules, w.firings, i)[a] == item;
    assert SentOn(rules, calls, i)[a] == item;
    assert FromCall(rules, calls, i, item);
  }

  lemma NotUsedAndQueued(rules: Rules, calls: seq<Call>, w: World, i: nat, item: Item)
    requires Fifo(rules, calls, w) && i < rules.width && item.Paired?
    requires item in Consumed(rules, w.firings, i)
    ensures item !in w.pending[i]
  {
    SentOnReplies(rules, calls, i);
    var sent, used := SentOn(rules, calls, i), Consumed(rules, w.firings, i);
    assert InOrder(rules, calls, w.firings, w.pending, i);
    var a :| 0 <= a < |used| && used[a] == item;
    forall b | 0 <= b < |w.pending[i]| ensures w.pending[i][b] != item {
      assert sent[|used| + b] == w.pending[i][b] && sent[a] == item;
    }
  }

  lemma {:induction false} ConsumedFrom(rules: Rules, firings: seq<Firing>, i: nat, item: Item)
    requires FiringsOk(rules, firings) && item in Consumed(rules, firings, i)
    ensures exists k, p :: 0 <= k < |firings| && 0 <= p < |firings[k].items| && firings[k].items[p] == item
  {
    var n := |firings| - 1;
    if item in Consumed(rules, firings[..n], i) {
      ConsumedFrom(rules, firings[..n], i, item);
      var k, p :| 0 <= k < n && 0 <= p < |firings[..n][k].items| && firings[..n][k].items[p] == item;
      assert firings[k].items[p] == item;
    } else {
      PicksFrom(rules.chords[firings[n].chord].indices, firings[n].items, i, item);
      var p :| 0 <= p < |firings[n].items| && firings[n].items[p] == item;
    }
  }

  lemma {:induction false} PicksFrom(indices: seq<nat>, items: seq<Item>, i: nat, item: Item)
    requires |indices| == |items| && item in Picks(indices, items, i)
    ensures item in items
  {
    var n := |indices| - 1;
    if item in Picks(indices[..n], items[..n], i) {
      PicksFrom(indices[..n], items[..n], i, item);
      assert item in items[..n];
    }
  }

  lemma AnsweredBy(rules: Rules, calls: seq<Call>, w: World, t: nat, k: nat)
    requires rules.Ok() && Fifo(rules, calls, w) && Replied(w) && t < |calls| && k < |w.firings|
    ensures t in w.answers && w.answers[t] == k <==> Paired(calls[t].value, t) in w.firings[k].items
  {
    var items := w.firings[k].items;
    if t in w.answers && w.answers[t] == k {
      var p :| 0 <= p < |items| && items[p].Paired? && items[p].reply == t;
      CarriedItem(rules, calls, w, k, p);
    } else {
      forall p | 0 <= p < |items| ensures items[p] != Paired(calls[t].value, t) {
        assert Served(w, k, items[p]);
      }
    }
  }

  lemma AnsweredUnlessQueued(rules: Rules, calls: seq<Call>, w: World, t: nat)
    requires rules.Ok() && Fifo(rules, calls, w) && Replied(w)
    requires t < |calls| && calls[t].index < rules.width && rules.Sync(calls[t].index)
    ensures t in w.answers <==> Paired(calls[t].value, t) !in w.pending[calls[t].index]
  {
    var i, item := calls[t].index, Paired(calls[t].value, t);
    if t in w.answers {
      var k := w.answers[t];
      assert Carries(w.firings[k].items, t);
      var p :| 0 <= p < |w.firings[k].items| && w.firings[k].items[p].Paired? && w.firings[k].items[p].reply == t;
      CarriedItem(rules, calls, w, k, p);
      NotUsedAndQueued(rules, calls, w, i, item);
    } else {
      SentOnHas(rules, calls, t);
      assert InOrder(rules, calls, w.firings, w.pending, i);
      forall k, p | 0 <= k < |w.firings| && 0 <= p < |w.firings[k].items| ensures w.firings[k].items[p] != item {
        assert Served(w, k, w.firings[k].items[p]);
      }
      if item in Consumed(rules, w.firings, i) {
        ConsumedFrom(rules, w.firings, i, item);
        assert false;
      }
    }
  }

  /** A synchronous caller is either still queued or answered, never both, and by the one thread that has its value. */
  lemma CallerAnsweredOnce(rules: Rules, calls: seq<Call>, t: nat)
    requires RulesOk(rules) && CallsOk(rules, calls) && t < |calls| && rules.Sync(calls[t].index)
    ensures var w := Run(rules, calls);
            var item := Paired(calls[t].value, t);
            && (t in w.answers <==> item !in w.pending[calls[t].index])
            && forall k :: 0 <= k < |w.firings| ==>
                 (t in w.answers && w.answers[t] == k <==> item in w.firings[k].items)
  {
    EveryRun(rules, calls);
    var w := Run(rules, calls);
    AnsweredUnlessQueued(rules, calls, w, t);
    forall k | 0 <= k < |w.firings|
      ensures t in w.answers && w.answers[t] == k <==> Paired(calls[t].value, t) in w.firings[k].items
    {
      AnsweredBy(rules, calls, w, t, k);
    }
  }

  // ----- A chord that names a channel twice -----

  /** One call on a chord that names its only channel twice: the queue ends empty but its bit stays set. */
  lemma RepeatedNameLeavesBit(value: Value)
    ensures var rules := Rules(1, [Chord(MaskOf([0, 0]), [0, 0], 0)], map[]);
            && CallsOk(rules, [Call(0, value)]) && rules.Ok()
            && var w := Run(rules, [Call(0, value)]);
            w.pending[0] == [] && Bit(w.mask, 0) && w.firings == [Firing(0, [Bare(value), Bare(Nil)])]
  {
    var chord := Chord(MaskOf([0, 0]), [0, 0], 0);
    var rules := Rules(1, [chord], map[]);
    var start := Fresh(1);
    var q := Queued(rules, start, 0, value);
    forall i: nat ensures Bit(start.mask, i) <==> Filled(start.pending, i) {
      ZeroHasNoBits(i);
    }
    PushedExact(start.pending, start.mask, 0, Bare(value));
    EnabledMeansReady(chord, q.pending, q.mask);
    assert Ready(q.pending, [0, 0]);
    assert [0, 0][..1] == [0];
    var one := Take(rules, q.pending, q.mask, [0]);
    assert one == TakeOne(rules, Take(rules, q.pending, q.mask, []), 0) by { assert [0][..0] == []; }
    var two := Take(rules, q.pending, q.mask, [0, 0]);
    assert two == TakeOne(rules, one, 0);
    assert two.items == [Bare(value), Bare(Nil)];
    assert [Call(0, value)][..0] == [];
    assert Run(rules, [Call(0, value)]) == Send(rules, start, 0, value).world;
    assert Bit(q.mask, 0) <==> Filled(q.pending, 0);
    FlipBit(q.mask, 0, 0);
    FlipBit(one.mask, 0, 0);
  }
}
