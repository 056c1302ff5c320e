/**
 The order of a mailbox: the messages of every run are numbered as they arrive, without looking at
 the mailbox, and the mailbox holds those that are still there in the order of their numbers.
 */
module ActorOrder {
  import opened Common
  import opened ActorMailbox

  /** All messages sent to the live actor, or put back by it, in order; the numbers of those still to be
      received; and the exits notified to it, in order. */
  datatype Arrivals = Arrivals(all: seq<Message>, there: set<nat>, exits: seq<Exit>)

  const NOTHING: Arrivals := Arrivals([], {}, [])

  /** The first message from number k on that is there and that the filter matches. */
  function Earliest(h: Arrivals, filter: Filter, k: nat): (r: Option<nat>)
    ensures r.Some? ==> k <= r.value < |h.all| && r.value in h.there && filter(h.all[r.value]).Some?
    ensures forall j :: k <= j < |h.all| && (r.Some? ==> j < r.value) && j in h.there ==> filter(h.all[j]).None?
    decreases |h.all| - k
  {
    if k >= |h.all| then None
    else if k in h.there && filter(h.all[k]).Some? then Some(k)
    else Earliest(h, filter, k + 1)
  }

  function Arrive(h: Arrivals, m: Message): Arrivals {
    h.(all := h.all + [m], there := h.there + {|h.all|})
  }

  /** A message sent is there to be received, unless a waiting receive takes it at once. */
  function Sent(h: Arrivals, s: State, m: Message): Arrivals {
    if s.actor.filter.Some? && s.actor.filter.value(m).Some? then h.(all := h.all + [m]) else Arrive(h, m)
  }

  /** How a step of the actor changes what has arrived and what is there. */
  function Track(h: Arrivals, s: State, step: Step): Arrivals {
    match step
    case Send(m) => if s.actor.alive then Sent(h, s, m) else h
    case NotifyExited(exit) => if s.actor.alive && exit.Some? then h.(exits := h.exits + [exit.value]) else h
    case CheckForInterrupt => h
    case Receive(filter) =>
      var k := Earliest(h, filter, 0);
      if s.actor.interrupts == [] && k.Some? then h.(there := h.there - {k.value}) else h
    case Wake =>
      if s.actor.interrupts != [] && s.actor.action.Some? then Arrive(h, s.actor.message) else h
    case Die => h.(there := {})
  }

  function TrackAll(h: Arrivals, s: State, steps: seq<Step>): Arrivals
    decreases |steps|
  {
    if steps == [] then h
    else if !Enabled(s, steps[0]) then h
    else TrackAll(Track(h, s, steps[0]), Next(s, steps[0]), steps[1..])
  }

  /** The messages with the numbers from i to j that are there, in order. */
  function Listed(all: seq<Message>, there: set<nat>, i: nat, j: nat): seq<Message>
    requires i <= j <= |all|
    decreases j
  {
    if i == j then [] else Listed(all, there, i, j - 1) + if j - 1 in there then [all[j - 1]] else []
  }

  ghost predicate InOrder(s: State, h: Arrivals) {
    && (forall k :: k in h.there ==> k < |h.all|)
    && s.actor.mailbox == Listed(h.all, h.there, 0, |h.all|)
    && (s.actor.alive ==> s.raised + s.actor.interrupts == h.exits)
  }

  // ---- lists of what is there

  lemma {:induction false} ListedSame(all: seq<Message>, there: set<nat>, all': seq<Message>, there': set<nat>, i: nat,
                                      j: nat)
    requires i <= j <= |all| && j <= |all'|
    requires forall k :: i <= k < j ==> all'[k] == all[k] && (k in there' <==> k in there)
    ensures Listed(all', there', i, j) == Listed(all, there, i, j)
    decreases j
  {
    if i < j { ListedSame(all, there, all', there', i, j - 1); }
  }

  lemma {:induction false} ListedSplit(all: seq<Message>, there: set<nat>, i: nat, k: nat, j: nat)
    requires i <= k <= j <= |all|
    ensures Listed(all, there, i, j) == Listed(all, there, i, k) + Listed(all, there, k, j)
    decreases j
  {
    if k < j { ListedSplit(all, there, i, k, j - 1); }
  }

  lemma {:induction false} NoneListed(all: seq<Message>, there: set<nat>, i: nat, j: nat, filter: Filter)
    requires i <= j <= |all| && forall k :: i <= k < j && k in there ==> filter(all[k]).None?
    ensures forall x :: 0 <= x < |Listed(all, there, i, j)| ==> filter(Listed(all, there, i, j)[x]).None?
    decreases j
  {
    if i < j { NoneListed(all, there, i, j - 1, filter); }
  }

  lemma ListedArrive(h: Arrivals, m: Message)
    requires forall k :: k in h.there ==> k < |h.all|
    ensures Listed(Arrive(h, m).all, Arrive(h, m).there, 0, |h.all| + 1) == Listed(h.all, h.there, 0, |h.all|) + [m]
  {
    ListedSame(h.all, h.there, Arrive(h, m).all, Arrive(h, m).there, 0, |h.all|);
  }

  lemma {:induction false} FirstMatchAt(front: seq<Message>, m: Message, rest: seq<Message>, filter: Filter)
    requires (forall i :: 0 <= i < |front| ==> filter(front[i]).None?) && filter(m).Some?
    ensures FirstMatch(front + [m] + rest, filter) == |front|
    decreases |front|
  {
    var all := front + [m] + rest;
    if front == [] {
      assert all[0] == m;
    } else {
      assert all[0] == front[0] && all[1..] == front[1..] + [m] + rest;
      FirstMatchAt(front[1..], m, rest, filter);
    }
  }

  lemma {:induction false} NoMatch(mailbox: seq<Message>, filter: Filter)
    requires forall i :: 0 <= i < |mailbox| ==> filter(mailbox[i]).None?
    ensures FirstMatch(mailbox, filter) == |mailbox|
    decreases |mailbox|
  {
    if mailbox != [] { NoMatch(mailbox[1..], filter); }
  }

  /** The list with one number, and without it. */
  lemma ListedWithout(all: seq<Message>, there: set<nat>, k: nat)
    requires k in there && k < |all|
    ensures var front, rest := Listed(all, there, 0, k), Listed(all, there, k + 1, |all|);
            && Listed(all, there, 0, |all|) == front + [all[k]] + rest
            && Listed(all, there - {k}, 0, |all|) == front + rest
  {
    var n := |all|;
    ListedSplit(all, there, 0, k, n);
    ListedSplit(all, there, k, k + 1, n);
    assert Listed(all, there, k, k + 1) == [all[k]];
    ListedSplit(all, there - {k}, 0, k, n);
    ListedSplit(all, there - {k}, k, k + 1, n);
    assert Listed(all, there - {k}, k, k + 1) == [];
    ListedSame(all, there, all, there - {k}, 0, k);
    ListedSame(all, there, all, there - {k}, k + 1, n);
  }

  /** The earliest match among the numbered messages is the first match of the mailbox. */
  lemma TakesEarliest(h: Arrivals, mailbox: seq<Message>, filter: Filter, k: nat)
    requires mailbox == Listed(h.all, h.there, 0, |h.all|) && Earliest(h, filter, 0) == Some(k)
    ensures var i := FirstMatch(mailbox, filter);
            && i < |mailbox| && mailbox[i] == h.all[k]
            && mailbox[..i] + mailbox[i + 1..] == Listed(h.all, h.there - {k}, 0, |h.all|)
  {
    var front, rest := Listed(h.all, h.there, 0, k), Listed(h.all, h.there, k + 1, |h.all|);
    ListedWithout(h.all, h.there, k);
    NoneListed(h.all, h.there, 0, k, filter);
    FirstMatchAt(front, h.all[k], rest, filter);
    assert mailbox[..|front|] == front && mailbox[|front| + 1..] == rest;
  }

  lemma TakesNone(h: Arrivals, mailbox: seq<Message>, filter: Filter)
    requires mailbox == Listed(h.all, h.there, 0, |h.all|) && Earliest(h, filter, 0) == None
    ensures FirstMatch(mailbox, filter) == |mailbox|
  {
    NoneListed(h.all, h.there, 0, |h.all|, filter);
    NoMatch(mailbox, filter);
  }

  // ---- every step

  lemma ReceiveInOrder(s: State, h: Arrivals, filter: Filter)
    requires InOrder(s, h) && Enabled(s, Receive(filter))
    ensures InOrder(Next(s, Receive(filter)), Track(h, s, Receive(filter)))
  {
    if s.actor.interrupts == [] {
      var k := Earliest(h, filter, 0);
      if k.Some? {
        TakesEarliest(h, s.actor.mailbox, filter, k.value);
      } else {
        TakesNone(h, s.actor.mailbox, filter);
      }
    }
  }

  lemma {:induction false} NothingListed(all: seq<Message>, i: nat, j: nat)
    requires i <= j <= |all|
    ensures Listed(all, {}, i, j) == []
    decreases j
  {
    if i < j { NothingListed(all, i, j - 1); }
  }

  lemma StepInOrder(s: State, h: Arrivals, step: Step)
    requires InOrder(s, h) && Enabled(s, step) && Handshake(s)
    ensures InOrder(Next(s, step), Track(h, s, step))
  {
    match step
    case Send(m) =>
      ListedArrive(h, m);
      ListedSame(h.all, h.there, h.all + [m], h.there, 0, |h.all|);
    case NotifyExited(exit) =>
    case CheckForInterrupt =>
    case Receive(filter) => ReceiveInOrder(s, h, filter);
    case Wake => ListedArrive(h, s.actor.message);
    case Die => NothingListed(h.all, 0, |h.all|);
  }

  lemma {:induction false} RunInOrder(s: State, h: Arrivals, steps: seq<Step>, s': State)
    requires InOrder(s, h) && Inv(s) && Runs(s, steps, s')
    ensures InOrder(s', TrackAll(h, s, steps))
    decreases |steps|
  {
    if steps != [] {
      StepInOrder(s, h, steps[0]);
      StepInv(s, steps[0]);
      RunInOrder(Next(s, steps[0]), Track(h, s, steps[0]), steps[1..], s');
    }
  }

  /** In every run the mailbox holds the messages that are still there in the order in which they
      arrived, and exits are raised in the order in which they were notified. */
  lemma EveryRunIsInOrder(steps: seq<Step>, s: State)
    requires Runs(Initial(), steps, s)
    ensures var h := TrackAll(NOTHING, Initial(), steps);
            && s.actor.mailbox == Listed(h.all, h.there, 0, |h.all|)
            && (s.actor.alive ==> s.raised + s.actor.interrupts == h.exits)
  {
    assert Messages([]) == [];
    RunInOrder(Initial(), NOTHING, steps, s);
  }

  /** A receive delivers the earliest message still there that its filter matches, waits exactly if
      there is none, and gives way to the oldest interrupt. */
  lemma ReceivesEarliest(steps: seq<Step>, s: State, filter: Filter)
    requires Runs(Initial(), steps, s) && Enabled(s, Receive(filter))
    ensures var h := TrackAll(NOTHING, Initial(), steps);
            var k, r := Earliest(h, filter, 0), Next(s, Receive(filter));
            if s.actor.interrupts != [] then
              r.delivered == s.delivered && |s.raised| < |h.exits| && r.raised == s.raised + [h.exits[|s.raised|]]
            else if k.Some? then
              r.delivered == s.delivered + [Delivery(h.all[k.value], filter(h.all[k.value]).value)]
            else r.delivered == s.delivered && r.thread == Waiting(filter)
  {
    assert Messages([]) == [];
    var h := TrackAll(NOTHING, Initial(), steps);
    RunInOrder(Initial(), NOTHING, steps, s);
    if s.actor.interrupts == [] {
      var k := Earliest(h, filter, 0);
      if k.Some? {
        TakesEarliest(h, s.actor.mailbox, filter, k.value);
      } else {
        TakesNone(h, s.actor.mailbox, filter);
      }
    }
  }
}
