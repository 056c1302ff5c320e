// The join calculus of lib/join.rb on values: channels, chords and what one send does under the lock.
module JoinRules {
  import opened Common
  import opened JoinBits

  /** What a channel carries; `Nil` is the default value of a call, and what shifting an empty queue gives. */
  datatype Value = Nil | Datum(n: int)

  /** A queued value: alone on an asynchronous channel, with the caller's reply channel on a synchronous one. */
  datatype Item = Bare(value: Value) | Paired(value: Value, reply: nat)

  datatype Chord = Chord(mask: nat, indices: seq<nat>, action: nat)

  /** A finished class: how many channels it has, its chords in the order they are tried, which channels answer. */
  datatype Rules = Rules(width: nat, chords: seq<Chord>, sync: map<nat, bool>) {
    predicate Sync(i: nat) { i in sync && sync[i] }

    predicate Ok() {
      forall c :: c in chords ==> c.mask == MaskOf(c.indices) && c.indices != [] && Within(c.indices, width)
    }
  }

  predicate Within(indices: seq<nat>, width: nat) {
    forall k :: 0 <= k < |indices| ==> indices[k] < width
  }

  function MaskOf(indices: seq<nat>): nat {
    if indices == [] then 0
    else Or(MaskOf(indices[..|indices| - 1]), Shifted(indices[|indices| - 1]))
  }

  /** A thread that was started: which chord it runs and the items it was given. */
  datatype Firing = Firing(chord: nat, items: seq<Item>)

  /** An object of the class; reply channels are numbered by the call that made them. */
  datatype World = World(pending: seq<seq<Item>>, mask: nat, firings: seq<Firing>, answers: map<nat, nat>, clock: nat)

  function Fresh(width: nat): World {
    World(seq(width, _ => []), 0, [], map[], 0)
  }

  predicate Enabled(c: Chord, mask: nat) {
    And(c.mask, mask) == c.mask
  }

  /** The first chord that the mask enables, or the number of chords when it enables none. */
  function FirstEnabled(chords: seq<Chord>, mask: nat): (r: nat)
    ensures r <= |chords|
    ensures forall j :: 0 <= j < r ==> !Enabled(chords[j], mask)
    ensures r < |chords| ==> Enabled(chords[r], mask)
  {
    if chords == [] || Enabled(chords[0], mask) then 0 else
      var r := FirstEnabled(chords[1..], mask);
      assert forall j :: 0 < j < r + 1 ==> chords[j] == chords[1..][j - 1];
      r + 1
  }

  /** What shifting the queues of a chord leaves; `raised` when a synchronous queue ran dry. */
  datatype Taken = Taken(pending: seq<seq<Item>>, mask: nat, items: seq<Item>, raised: bool)

  function TakeOne(rules: Rules, t: Taken, i: nat): (r: Taken)
    requires i < |t.pending|
    ensures |r.pending| == |t.pending|
  {
    var queue := t.pending[i];
    if t.raised then t
    else if queue == [] && rules.Sync(i) then t.(raised := true)
    else if queue == [] then t.(items := t.items + [Bare(Nil)], mask := Xor(t.mask, Shifted(i)))
    else Taken(t.pending[i := queue[1..]],
               if |queue| == 1 then Xor(t.mask, Shifted(i)) else t.mask,
               t.items + [queue[0]], false)
  }

  function Take(rules: Rules, pending: seq<seq<Item>>, mask: nat, indices: seq<nat>): (t: Taken)
    requires Within(indices, |pending|)
    ensures |t.pending| == |pending|
  {
    if indices == [] then Taken(pending, mask, [], false)
    else TakeOne(rules, Take(rules, pending, mask, indices[..|indices| - 1]), indices[|indices| - 1])
  }

  function Values(items: seq<Item>): (r: seq<Value>)
    ensures |r| == |items|
  {
    seq(|items|, k requires 0 <= k < |items| => items[k].value)
  }

  /** The reply channels among the items, in order. */
  function Replies(items: seq<Item>): seq<nat> {
    if items == [] then []
    else
      var last := items[|items| - 1];
      Replies(items[..|items| - 1]) + if last.Paired? then [last.reply] else []
  }

  function Answered(answers: map<nat, nat>, waiting: seq<nat>, thread: nat): map<nat, nat> {
    answers + map reply | reply in waiting :: thread
  }

  /** Done gives the caller the object back at once; Waits leaves it blocked on its reply channel. */
  datatype Result = Done | Waits(reply: nat) | Raised

  datatype Sent = Sent(world: World, outcome: Result)

  function ItemOf(rules: Rules, index: nat, value: Value, clock: nat): Item {
    if rules.Sync(index) then Paired(value, clock) else Bare(value)
  }

  /** The object once the value is queued and its bit set. */
  function Queued(rules: Rules, w: World, index: nat, value: Value): (r: World)
    requires index < |w.pending|
    ensures |r.pending| == |w.pending|
  {
    World(w.pending[index := w.pending[index] + [ItemOf(rules, index, value, w.clock)]],
          Or(w.mask, Shifted(index)), w.firings, w.answers, w.clock + 1)
  }

  /** Firing chord `k`: shift its queues, start the thread, answer the synchronous callers. */
  function Fire(rules: Rules, w: World, k: nat, outcome: Result): (s: Sent)
    requires k < |rules.chords| && Within(rules.chords[k].indices, |w.pending|)
    ensures |s.world.pending| == |w.pending|
  {
    var t := Take(rules, w.pending, w.mask, rules.chords[k].indices);
    if t.raised then Sent(World(t.pending, t.mask, w.firings, w.answers, w.clock), Raised)
    else Sent(World(t.pending, t.mask, w.firings + [Firing(k, t.items)],
                    Answered(w.answers, Replies(t.items), |w.firings|), w.clock), outcome)
  }

  function Send(rules: Rules, w: World, index: nat, value: Value): (s: Sent)
    requires rules.Ok() && |w.pending| == rules.width && index < rules.width
    ensures |s.world.pending| == rules.width
  {
    var outcome := if rules.Sync(index) then Waits(w.clock) else Done;
    var queued := Queued(rules, w, index, value);
    var k := FirstEnabled(rules.chords, queued.mask);
    if k == |rules.chords| then Sent(queued, outcome)
    else
      assert rules.chords[k] in rules.chords;
      Fire(rules, queued, k, outcome)
  }

  datatype Call = Call(index: nat, value: Value)

  predicate CallsOk(rules: Rules, calls: seq<Call>) {
    forall k :: 0 <= k < |calls| ==> calls[k].index < rules.width
  }

  /** The object after calls that took the lock in this order. */
  function Run(rules: Rules, calls: seq<Call>): (w: World)
    requires rules.Ok() && CallsOk(rules, calls)
    ensures |w.pending| == rules.width
  {
    if calls == [] then Fresh(rules.width)
    else
      var last := calls[|calls| - 1];
      Send(rules, Run(rules, calls[..|calls| - 1]), last.index, last.value).world
  }

  lemma {:induction false} MaskBit(indices: seq<nat>, i: nat)
    ensures Bit(MaskOf(indices), i) <==> i in indices
  {
    if indices == [] {
      ZeroHasNoBits(i);
    } else {
      var front, last := indices[..|indices| - 1], indices[|indices| - 1];
      MaskBit(front, i);
      SetBit(MaskOf(front), last, i);
      assert indices == front + [last];
    }
  }
}
