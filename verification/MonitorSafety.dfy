/**
 What holds in every interleaving of monitor calls.
 */
module MonitorSafety {
  import opened Common
  import opened MonitorSteps

  // ---- the invariant

  predicate Inside(p: Place) { p.Running? && p.depth > 0 }

  /** One owner at most; a thread that runs inside has the depth the monitor counts. */
  ghost predicate Owned(s: State) {
    && (s.owner == None <==> s.count == 0)
    && (forall t: Thread {:trigger PlaceOf(s, t)} :: s.owner == Some(t) <==> Inside(PlaceOf(s, t)))
    && (s.owner.Some? ==> PlaceOf(s, s.owner.value) == Running(s.count))
  }

  /** The queues hold exactly the threads that are blocked on them. */
  ghost predicate Queued(s: State) {
    && (forall t: Thread {:trigger PlaceOf(s, t)} :: t in s.entering <==> PlaceOf(s, t).Entering?)
    && (forall t: Thread {:trigger PlaceOf(s, t)} :: t in s.waiting <==> PlaceOf(s, t).Reacquiring?)
    && Distinct(s.entering) && Distinct(s.waiting)
  }

  ghost predicate CondQueued(s: State, c: Condition) {
    && (forall t: Thread {:trigger PlaceOf(s, t)} :: t in Queue(s, c) <==>
        PlaceOf(s, t).Waiting? && PlaceOf(s, t).cond == c)
    && Distinct(Queue(s, c))
  }

  predicate Contends(p: Place) { p.Reacquiring? || p.ReacquireWoken? }

  predicate Waits(p: Place, c: Condition) {
    (p.Waiting? || p.Woken? || p.Reacquiring? || p.ReacquireWoken?) && p.cond == c
  }

  function Contenders(places: map<Thread, Place>): set<Thread> {
    set t | t in places && Contends(places[t])
  }

  function Waiters(places: map<Thread, Place>, c: Condition): set<Thread> {
    set t | t in places && Waits(places[t], c)
  }

  /** The counters are those of the threads they stand for, and no saved count is zero. */
  ghost predicate Counted(s: State) {
    && s.totalWaiting == |Contenders(s.places)|
    && (forall c: Condition {:trigger NWaiters(s, c)} :: NWaiters(s, c) == |Waiters(s.places, c)|)
    && (forall t: Thread {:trigger PlaceOf(s, t)} ::
          PlaceOf(s, t).Waiting? || PlaceOf(s, t).Woken? || Contends(PlaceOf(s, t)) ==> PlaceOf(s, t).saved > 0)
  }

  predicate Signalled(p: Place) { p.EnterWoken? || p.ReacquireWoken? }

  /** No lost wake-up: when the monitor is free and threads are blocked on it, another contender
      has been signalled and is about to look. */
  ghost predicate NoLostWakeup(s: State) {
    s.owner == None && (s.entering != [] || s.waiting != []) ==> exists t: Thread :: Signalled(PlaceOf(s, t))
  }

  ghost predicate Core(s: State) {
    Owned(s) && Queued(s) && (forall c: Condition :: CondQueued(s, c)) && Counted(s)
  }

  ghost predicate Inv(s: State) {
    Core(s) && NoLostWakeup(s)
  }

  // ---- one thread moves

  lemma PlaceMoved(s: State, s': State, t: Thread, p: Place)
    requires s'.places == s.places[t := p]
    ensures forall u: Thread {:trigger PlaceOf(s', u)} :: PlaceOf(s', u) == if u == t then p else PlaceOf(s, u)
  {
  }

  /** A thread that is not, and does not become, a waiter of a condition leaves those queues alone. */
  lemma OthersQueued(s: State, s': State, t: Thread, p: Place)
    requires (forall c: Condition :: CondQueued(s, c)) && s'.queues == s.queues && s'.places == s.places[t := p]
    requires !PlaceOf(s, t).Waiting? && !p.Waiting?
    ensures forall c: Condition :: CondQueued(s', c)
  {
    PlaceMoved(s, s', t, p);
    forall c: Condition
      ensures CondQueued(s', c)
    {
      assert CondQueued(s, c);
      assert Queue(s', c) == Queue(s, c);
    }
  }

  lemma CardinalityMoved(a: set<Thread>, b: set<Thread>, t: Thread)
    requires b - {t} == a - {t}
    ensures |b| == |a| - (if t in a then 1 else 0) + (if t in b then 1 else 0)
  {
    assert |a| == |a - {t}| + (if t in a then 1 else 0) by {
      if t in a { assert a == (a - {t}) + {t}; } else { assert a == a - {t}; }
    }
    assert |b| == |b - {t}| + (if t in b then 1 else 0) by {
      if t in b { assert b == (b - {t}) + {t}; } else { assert b == b - {t}; }
    }
  }

  lemma ContendersMoved(s: State, t: Thread, p: Place)
    ensures |Contenders(s.places[t := p])|
         == |Contenders(s.places)| - (if Contends(PlaceOf(s, t)) then 1 else 0) + (if Contends(p) then 1 else 0)
  {
    CardinalityMoved(Contenders(s.places), Contenders(s.places[t := p]), t);
  }

  lemma WaitersMoved(s: State, t: Thread, p: Place, c: Condition)
    ensures |Waiters(s.places[t := p], c)|
         == |Waiters(s.places, c)| - (if Waits(PlaceOf(s, t), c) then 1 else 0) + (if Waits(p, c) then 1 else 0)
  {
    CardinalityMoved(Waiters(s.places, c), Waiters(s.places[t := p], c), t);
  }

  /** The counters after one thread has moved and they have been adjusted for it. */
  lemma CountedMoved(s: State, s': State, t: Thread, p: Place)
    requires Counted(s) && s'.places == s.places[t := p]
    requires s'.totalWaiting ==
      s.totalWaiting - (if Contends(PlaceOf(s, t)) then 1 else 0) + (if Contends(p) then 1 else 0)
    requires forall c: Condition {:trigger NWaiters(s', c)} ::
      NWaiters(s', c) == NWaiters(s, c) - (if Waits(PlaceOf(s, t), c) then 1 else 0) + (if Waits(p, c) then 1 else 0)
    requires p.Waiting? || p.Woken? || Contends(p) ==> p.saved > 0
    ensures Counted(s')
  {
    ContendersMoved(s, t, p);
    forall c: Condition
      ensures NWaiters(s', c) == |Waiters(s'.places, c)|
    {
      WaitersMoved(s, t, p, c);
    }
    PlaceMoved(s, s', t, p);
  }

  lemma DistinctTail(q: seq<Thread>)
    requires Distinct(q) && q != []
    ensures Distinct(q[1..]) && forall t :: t in q[1..] <==> t in q && t != q[0]
  {
  }

  lemma DistinctPush(q: seq<Thread>, t: Thread)
    requires Distinct(q) && t !in q
    ensures Distinct(q + [t]) && forall u :: u in q + [t] <==> u in q || u == t
  {
  }

  lemma {:induction false} DistinctWithout(q: seq<Thread>, t: Thread)
    requires Distinct(q)
    ensures Distinct(Without(q, t)) && forall u :: u in Without(q, t) <==> u in q && u != t
  {
    if q != [] {
      DistinctTail(q);
      DistinctWithout(q[1..], t);
      var r := Without(q[1..], t);
      if q[0] != t {
        assert forall u :: u in [q[0]] + r <==> u == q[0] || u in r;
        assert forall j :: 0 < j < |r| + 1 ==> ([q[0]] + r)[j] in r;
      }
    }
  }

  // ---- the steps

  lemma AcquireInv(s: State, t: Thread)
    requires Inv(s) && Free(s, t) && (PlaceOf(s, t).Running? || PlaceOf(s, t).EnterWoken?)
    ensures Inv(Acquire(s, t))
  {
    var s' := Acquire(s, t);
    CountedMoved(s, s', t, Running(s.count + 1));
    PlaceMoved(s, s', t, Running(s.count + 1));
    OthersQueued(s, s', t, Running(s.count + 1));
  }

  lemma EnterInv(s: State, t: Thread)
    requires Inv(s) && (PlaceOf(s, t).Running? || PlaceOf(s, t).EnterWoken?)
    ensures Inv(EnterStep(s, t))
  {
    if Free(s, t) {
      AcquireInv(s, t);
    } else {
      var s' := EnterStep(s, t);
      CountedMoved(s, s', t, Entering);
      PlaceMoved(s, s', t, Entering);
      OthersQueued(s, s', t, Entering);
      DistinctPush(s.entering, t);
    }
  }

  lemma WakeEnteringInv(s: State)
    requires Core(s) && s.owner == None && s.totalWaiting == 0
    ensures Inv(WakeEntering(s))
  {
    NobodyContends(s);
    if s.entering != [] {
      var t, s' := s.entering[0], WakeEntering(s);
      CountedMoved(s, s', t, EnterWoken);
      PlaceMoved(s, s', t, EnterWoken);
      OthersQueued(s, s', t, EnterWoken);
      DistinctTail(s.entering);
      assert Signalled(PlaceOf(s', t));
    }
  }

  lemma SomebodyContends(s: State)
    requires Core(s) && s.waiting != []
    ensures s.totalWaiting > 0
  {
    assert PlaceOf(s, s.waiting[0]).Reacquiring?;
    assert s.waiting[0] in Contenders(s.places);
  }

  lemma NobodyContends(s: State)
    requires Core(s) && s.totalWaiting == 0
    ensures s.waiting == []
  {
    if s.waiting != [] { SomebodyContends(s); }
  }

  lemma WakeWaitingInv(s: State)
    requires Core(s) && s.owner == None && s.totalWaiting != 0
    ensures Inv(WakeWaiting(s))
  {
    if s.waiting == [] {
      var t :| t in Contenders(s.places);
      assert Signalled(PlaceOf(s, t));
    } else {
      var t, s' := s.waiting[0], WakeWaiting(s);
      var p := PlaceOf(s, t);
      CountedMoved(s, s', t, ReacquireWoken(p.cond, p.saved));
      PlaceMoved(s, s', t, ReacquireWoken(p.cond, p.saved));
      OthersQueued(s, s', t, ReacquireWoken(p.cond, p.saved));
      DistinctTail(s.waiting);
      assert Signalled(PlaceOf(s', t));
    }
  }

  lemma ReleaseInv(s: State)
    requires Core(s.(owner := None))
    ensures Inv(Release(s))
  {
    if s.totalWaiting != 0 { WakeWaitingInv(s.(owner := None)); } else { WakeEnteringInv(s.(owner := None)); }
  }

  lemma ExitInv(s: State, t: Thread)
    requires Inv(s) && PlaceOf(s, t).Running?
    ensures Inv(ExitStep(s, t))
  {
    if s.owner == Some(t) {
      var s' := Move(s, t, Running(s.count - 1)).(count := s.count - 1);
      CountedMoved(s, s', t, Running(s.count - 1));
      PlaceMoved(s, s', t, Running(s.count - 1));
      OthersQueued(s, s', t, Running(s.count - 1));
      if s'.count == 0 {
        var s'' := s'.(owner := None);
        CountedMoved(s, s'', t, Running(0));
        PlaceMoved(s, s'', t, Running(0));
        OthersQueued(s, s'', t, Running(0));
        ReleaseInv(s');
      }
    }
  }

  /** The owner as a waiter of a condition, just before it releases the monitor. */
  function Queueing(s: State, t: Thread, c: Condition): State {
    Move(s, t, Waiting(c, s.count)).(count := 0, nWaiters := s.nWaiters[c := NWaiters(s, c) + 1],
                                     queues := s.queues[c := Queue(s, c) + [t]])
  }

  lemma QueueingCore(s: State, t: Thread, c: Condition, s': State)
    requires Inv(s) && PlaceOf(s, t).Running? && s.owner == Some(t)
    requires s' == Queueing(s, t, c).(owner := None)
    ensures Core(s')
  {
    var p := Waiting(c, s.count);
    CountedMoved(s, s', t, p);
    PlaceMoved(s, s', t, p);
    forall c': Condition ensures CondQueued(s', c') {
      assert CondQueued(s, c');
      if c' == c { DistinctPush(Queue(s, c), t); }
    }
  }

  lemma WaitInv(s: State, t: Thread, c: Condition)
    requires Inv(s) && PlaceOf(s, t).Running?
    ensures Inv(WaitStep(s, t, c))
  {
    if s.owner == Some(t) {
      assert WaitStep(s, t, c) == Release(Queueing(s, t, c));
      QueueingCore(s, t, c, Queueing(s, t, c).(owner := None));
      ReleaseInv(Queueing(s, t, c));
    }
  }

  lemma ResumeInv(s: State, t: Thread)
    requires Inv(s) && PlaceOf(s, t).Woken?
    ensures Inv(ResumeStep(s, t))
  {
    var p, s' := PlaceOf(s, t), ResumeStep(s, t);
    CountedMoved(s, s', t, if Free(s, t) then Running(p.saved) else Reacquiring(p.cond, p.saved));
    PlaceMoved(s, s', t, if Free(s, t) then Running(p.saved) else Reacquiring(p.cond, p.saved));
    OthersQueued(s, s', t, if Free(s, t) then Running(p.saved) else Reacquiring(p.cond, p.saved));
    if !Free(s, t) { DistinctPush(s.waiting, t); }
  }

  lemma ResumeAgainInv(s: State, t: Thread)
    requires Inv(s) && PlaceOf(s, t).ReacquireWoken?
    ensures Inv(ResumeAgainStep(s, t))
  {
    var p, s' := PlaceOf(s, t), ResumeAgainStep(s, t);
    CountedMoved(s, s', t, if Free(s, t) then Running(p.saved) else Reacquiring(p.cond, p.saved));
    PlaceMoved(s, s', t, if Free(s, t) then Running(p.saved) else Reacquiring(p.cond, p.saved));
    OthersQueued(s, s', t, if Free(s, t) then Running(p.saved) else Reacquiring(p.cond, p.saved));
    if !Free(s, t) { DistinctPush(s.waiting, t); }
  }

  /** A waiter leaves the queue of its condition. */
  lemma LeaveQueue(s: State, s': State, t: Thread, q: seq<Thread>)
    requires Inv(s) && PlaceOf(s, t).Waiting?
    requires var p := PlaceOf(s, t);
             s' == Move(s, t, Woken(p.cond, p.saved)).(queues := s.queues[p.cond := q])
             && Distinct(q) && forall u :: u in q <==> u in Queue(s, p.cond) && u != t
    ensures Inv(s')
  {
    var p := PlaceOf(s, t);
    CountedMoved(s, s', t, Woken(p.cond, p.saved));
    PlaceMoved(s, s', t, Woken(p.cond, p.saved));
    forall c: Condition
      ensures CondQueued(s', c)
    {
      assert CondQueued(s, c);
    }
    if s'.owner == None && (s'.entering != [] || s'.waiting != []) {
      var u: Thread :| Signalled(PlaceOf(s, u));
      assert Signalled(PlaceOf(s', u));
    }
  }

  lemma WakeFirstInv(s: State, c: Condition)
    requires Inv(s)
    ensures Inv(WakeFirst(s, c))
  {
    assert CondQueued(s, c);
    var q := Queue(s, c);
    if q != [] {
      assert PlaceOf(s, q[0]).Waiting?;
      DistinctTail(q);
      LeaveQueue(s, WakeFirst(s, c), q[0], q[1..]);
    }
  }

  lemma {:induction false} WakeAllInv(s: State, c: Condition, n: nat)
    requires Inv(s)
    ensures Inv(WakeAll(s, c, n))
    decreases n
  {
    if n > 0 {
      WakeFirstInv(s, c);
      WakeAllInv(WakeFirst(s, c), c, n - 1);
    }
  }

  lemma TimeoutInv(s: State, t: Thread)
    requires Inv(s) && PlaceOf(s, t).Waiting?
    ensures Inv(TimeoutStep(s, t))
  {
    var c := PlaceOf(s, t).cond;
    assert CondQueued(s, c);
    DistinctWithout(Queue(s, c), t);
    LeaveQueue(s, TimeoutStep(s, t), t, Without(Queue(s, c), t));
  }

  lemma StepInv(s: State, step: Step)
    requires Inv(s) && Enabled(s, step)
    ensures Inv(Next(s, step))
  {
    match step
    case TryEnter(t) => if Free(s, t) { AcquireInv(s, t); }
    case Enter(t) => EnterInv(s, t);
    case EnterAgain(t) => EnterInv(s, t);
    case Exit(t) => ExitInv(s, t);
    case Wait(t, c) => WaitInv(s, t, c);
    case Resume(t) => ResumeInv(s, t);
    case ResumeAgain(t) => ResumeAgainInv(s, t);
    case Signal(t, c) => WakeFirstInv(s, c);
    case Broadcast(t, c) => WakeAllInv(s, c, |Queue(s, c)|);
    case Timeout(t) => TimeoutInv(s, t);
    case PassOn(c) => WakeFirstInv(s, c);
  }

  lemma InitialInv()
    ensures Inv(Initial())
  {
    var s := Initial();
    assert Contenders(s.places) == {};
    forall c: Condition
      ensures NWaiters(s, c) == |Waiters(s.places, c)|
    {
      assert Waiters(s.places, c) == {};
    }
  }

  lemma {:induction false} RunInv(s: State, steps: seq<Step>, s': State)
    requires Inv(s) && Runs(s, steps, s')
    ensures Inv(s')
    decreases |steps|
  {
    if steps != [] {
      StepInv(s, steps[0]);
      RunInv(Next(s, steps[0]), steps[1..], s');
    }
  }

  // ---- what the invariant says

  /** In every interleaving: at most one thread is inside, the monitor is free exactly when its
      count is zero, and no wake-up is lost. */
  lemma EveryRunIsSafe(steps: seq<Step>, s: State)
    requires Runs(Initial(), steps, s)
    ensures s.owner == None <==> s.count == 0
    ensures forall t: Thread, u: Thread :: Inside(PlaceOf(s, t)) && Inside(PlaceOf(s, u)) ==> t == u
    ensures s.owner == None && (exists t: Thread :: PlaceOf(s, t).Entering? || PlaceOf(s, t).Reacquiring?) ==>
      exists t: Thread :: Signalled(PlaceOf(s, t))
  {
    InitialInv();
    RunInv(Initial(), steps, s);
    forall t: Thread, u: Thread | Inside(PlaceOf(s, t)) && Inside(PlaceOf(s, u))
      ensures t == u
    {
      assert s.owner == Some(t) && s.owner == Some(u);
    }
  }

  /** A signalled contender that looks while the monitor is free takes it. */
  lemma SignalledTakes(s: State, t: Thread)
    requires Inv(s) && s.owner == None && Signalled(PlaceOf(s, t))
    ensures var s' := Next(s, if PlaceOf(s, t).EnterWoken? then EnterAgain(t) else ResumeAgain(t));
            && s'.owner == Some(t) && PlaceOf(s', t) == Running(s'.count)
            && s'.count == if PlaceOf(s, t).EnterWoken? then 1 else PlaceOf(s, t).saved
  {
  }

  // ---- the saved count

  /** How often a thread has entered without leaving, whether it runs or waits. */
  function Depth(p: Place): int {
    match p
    case Running(depth) => depth
    case Entering => 0
    case EnterWoken => 0
    case Waiting(_, saved) => saved
    case Woken(_, saved) => saved
    case Reacquiring(_, saved) => saved
    case ReacquireWoken(_, saved) => saved
  }

  /** The steps that enter or leave: a thread enters exactly if no other thread owns the monitor. */
  function Gain(s: State, step: Step, t: Thread): int {
    var admitted := s.owner == None || s.owner == Some(t);
    match step
    case TryEnter(u) => if u == t && admitted then 1 else 0
    case Enter(u) => if u == t && admitted then 1 else 0
    case EnterAgain(u) => if u == t && admitted then 1 else 0
    case Exit(u) => if u == t && s.owner == Some(t) then -1 else 0
    case _ => 0
  }

  function TotalGain(s: State, steps: seq<Step>, t: Thread): int
    decreases |steps|
  {
    if steps == [] then 0 else Gain(s, steps[0], t) + TotalGain(Next(s, steps[0]), steps[1..], t)
  }

  /** Waking a waiter changes nobody's depth. */
  lemma WakeKeepsDepth(s: State, c: Condition, t: Thread)
    ensures Depth(PlaceOf(WakeFirst(s, c), t)) == Depth(PlaceOf(s, t))
  {
  }

  lemma {:induction false} WakeAllKeepsDepth(s: State, c: Condition, n: nat, t: Thread)
    ensures Depth(PlaceOf(WakeAll(s, c, n), t)) == Depth(PlaceOf(s, t))
    decreases n
  {
    if n > 0 {
      WakeKeepsDepth(s, c, t);
      WakeAllKeepsDepth(WakeFirst(s, c), c, n - 1, t);
    }
  }

  lemma ReleaseKeepsDepth(s: State, t: Thread)
    requires forall u: Thread :: u in s.entering ==> PlaceOf(s, u).Entering?
    ensures Depth(PlaceOf(Release(s), t)) == Depth(PlaceOf(s, t))
  {
  }

  lemma ExitGain(s: State, u: Thread, t: Thread)
    requires Inv(s) && PlaceOf(s, u).Running?
    ensures Depth(PlaceOf(ExitStep(s, u), t)) == Depth(PlaceOf(s, t)) + Gain(s, Exit(u), t)
  {
    if s.owner == Some(u) {
      var s' := Move(s, u, Running(s.count - 1)).(count := s.count - 1);
      PlaceMoved(s, s', u, Running(s.count - 1));
      ReleaseKeepsDepth(s', t);
    }
  }

  lemma WaitGain(s: State, u: Thread, c: Condition, t: Thread)
    requires Inv(s) && PlaceOf(s, u).Running?
    ensures Depth(PlaceOf(WaitStep(s, u, c), t)) == Depth(PlaceOf(s, t))
  {
    if s.owner == Some(u) {
      var s' := Queueing(s, u, c);
      PlaceMoved(s, s', u, Waiting(c, s.count));
      ReleaseKeepsDepth(s', t);
      assert WaitStep(s, u, c) == Release(s');
    }
  }

  lemma StepGain(s: State, step: Step, t: Thread)
    requires Inv(s) && Enabled(s, step)
    ensures Depth(PlaceOf(Next(s, step), t)) == Depth(PlaceOf(s, t)) + Gain(s, step, t)
  {
    match step
    case Exit(u) => ExitGain(s, u, t);
    case Wait(u, c) => WaitGain(s, u, c, t);
    case Signal(u, c) => WakeKeepsDepth(s, c, t);
    case Broadcast(u, c) => WakeAllKeepsDepth(s, c, |Queue(s, c)|, t);
    case PassOn(c) => WakeKeepsDepth(s, c, t);
    case _ =>
  }

  /** In every run a thread's depth is the number of its entries minus the number of its exits; a
      wait in between, and everything others do, changes nothing. So a thread that returns from a
      wait finds the count it gave up. */
  lemma {:induction false} DepthIsKept(s: State, steps: seq<Step>, s': State, t: Thread)
    requires Inv(s) && Runs(s, steps, s')
    ensures Depth(PlaceOf(s', t)) == Depth(PlaceOf(s, t)) + TotalGain(s, steps, t)
    ensures s'.owner == Some(t) ==> s'.count == Depth(PlaceOf(s, t)) + TotalGain(s, steps, t)
    decreases |steps|
  {
    if steps == [] {
      assert PlaceOf(s, t) == PlaceOf(s', t);
    } else {
      StepGain(s, steps[0], t);
      StepInv(s, steps[0]);
      DepthIsKept(Next(s, steps[0]), steps[1..], s', t);
    }
  }
}
