/**
 Waiting in line: every thread is given the number of the step at which it blocked, and in every run
 a wake-up goes to the thread that has been blocked longest.
 */
module MonitorOrder {
  import opened Common
  import opened MonitorSteps
  import opened MonitorSafety

  /** The number of the next step, and for each thread the number of the step at which it last blocked. */
  datatype Clock = Clock(now: nat, since: map<Thread, nat>)

  const START: Clock := Clock(0, map[])

  function Since(h: Clock, t: Thread): nat {
    if t in h.since then h.since[t] else 0
  }

  predicate Blocked(p: Place) { p.Entering? || p.Waiting? || p.Reacquiring? }

  /** The thread that takes a step. */
  function ThreadOf(step: Step): Option<Thread> {
    match step
    case TryEnter(t) => Some(t)
    case Enter(t) => Some(t)
    case EnterAgain(t) => Some(t)
    case Exit(t) => Some(t)
    case Wait(t, _) => Some(t)
    case Resume(t) => Some(t)
    case ResumeAgain(t) => Some(t)
    case Signal(t, _) => Some(t)
    case Broadcast(t, _) => Some(t)
    case Timeout(t) => Some(t)
    case PassOn(_) => None
  }

  /** The thread that takes the step is blocked by it. */
  predicate Blocks(s: State, step: Step) {
    var t := ThreadOf(step);
    t.Some? && !Blocked(PlaceOf(s, t.value)) && Blocked(PlaceOf(Next(s, step), t.value))
  }

  function Track(h: Clock, s: State, step: Step): Clock {
    Clock(h.now + 1, if Blocks(s, step) then h.since[ThreadOf(step).value := h.now] else h.since)
  }

  function TrackAll(h: Clock, s: State, steps: seq<Step>): Clock
    decreases |steps|
  {
    if steps == [] then h else TrackAll(Track(h, s, steps[0]), Next(s, steps[0]), steps[1..])
  }

  ghost predicate Lined(h: Clock, q: seq<Thread>) {
    && (forall i, j :: 0 <= i < j < |q| ==> Since(h, q[i]) < Since(h, q[j]))
    && (forall i :: 0 <= i < |q| ==> Since(h, q[i]) < h.now)
  }

  /** Every queue holds its threads in the order in which they blocked. */
  ghost predicate InLine(s: State, h: Clock) {
    Lined(h, s.entering) && Lined(h, s.waiting) && forall c: Condition :: Lined(h, Queue(s, c))
  }

  // ---- one queue

  /** Only thread t may have been given a new number. */
  ghost predicate Ticked(h: Clock, h': Clock, t: Thread) {
    h'.now == h.now + 1 && forall u: Thread {:trigger Since(h', u)} :: u != t ==> Since(h', u) == Since(h, u)
  }

  lemma LinedKept(h: Clock, h': Clock, t: Thread, q: seq<Thread>)
    requires Lined(h, q) && Ticked(h, h', t) && (t !in q || Since(h', t) == Since(h, t))
    ensures Lined(h', q)
  {
    forall i | 0 <= i < |q| ensures Since(h', q[i]) == Since(h, q[i]) {
      if q[i] == t { assert t in q; }
    }
  }

  lemma LinedPush(h: Clock, h': Clock, t: Thread, q: seq<Thread>)
    requires Lined(h, q) && Ticked(h, h', t) && t !in q && Since(h', t) == h.now
    ensures Lined(h', q + [t])
  {
    LinedKept(h, h', t, q);
    assert forall i :: 0 <= i < |q| ==> q[i] in q && Since(h', q[i]) == Since(h, q[i]) < h.now;
  }

  lemma LinedTail(h: Clock, q: seq<Thread>)
    requires Lined(h, q) && q != []
    ensures Lined(h, q[1..])
  {
  }

  lemma {:induction false} LinedWithout(h: Clock, q: seq<Thread>, t: Thread)
    requires Lined(h, q)
    ensures Lined(h, Without(q, t)) && forall u :: u in Without(q, t) ==> u in q
    decreases |q|
  {
    if q != [] {
      LinedTail(h, q);
      LinedWithout(h, q[1..], t);
      LaterThanFirst(h, q);
      if q[0] != t { LinedFirst(h, q[0], Without(q[1..], t)); }
    }
  }

  lemma LaterThanFirst(h: Clock, q: seq<Thread>)
    requires Lined(h, q) && q != []
    ensures forall u :: u in q[1..] ==> Since(h, q[0]) < Since(h, u)
  {
  }

  lemma LinedFirst(h: Clock, t: Thread, q: seq<Thread>)
    requires Lined(h, q) && Since(h, t) < h.now && forall u :: u in q ==> Since(h, t) < Since(h, u)
    ensures Lined(h, [t] + q)
  {
    forall i | 0 <= i < |q| ensures Since(h, t) < Since(h, q[i]) {
      assert q[i] in q;
    }
  }

  // ---- all queues

  ghost predicate Nowhere(s: State, t: Thread) {
    t !in s.entering && t !in s.waiting && forall c: Condition :: t !in Queue(s, c)
  }

  /** A thread that is not blocked is in no queue. */
  lemma NotInLine(s: State, t: Thread)
    requires Inv(s) && !Blocked(PlaceOf(s, t))
    ensures Nowhere(s, t)
  {
    forall c: Condition ensures t !in Queue(s, c) {
      assert CondQueued(s, c);
    }
  }

  lemma TickedInLine(s: State, h: Clock, h': Clock, t: Thread)
    requires InLine(s, h) && Ticked(h, h', t) && (Nowhere(s, t) || Since(h', t) == Since(h, t))
    ensures InLine(s, h')
  {
    LinedKept(h, h', t, s.entering);
    LinedKept(h, h', t, s.waiting);
    forall c: Condition ensures Lined(h', Queue(s, c)) {
      LinedKept(h, h', t, Queue(s, c));
    }
  }

  lemma WakeFirstInLine(s: State, c: Condition, h: Clock)
    requires InLine(s, h)
    ensures InLine(WakeFirst(s, c), h)
  {
    if Queue(s, c) != [] {
      LinedTail(h, Queue(s, c));
      forall d: Condition ensures Lined(h, Queue(WakeFirst(s, c), d)) {
        assert Lined(h, Queue(s, d));
      }
    }
  }

  lemma {:induction false} WakeAllInLine(s: State, c: Condition, n: nat, h: Clock)
    requires InLine(s, h)
    ensures InLine(WakeAll(s, c, n), h)
    decreases n
  {
    if n > 0 {
      WakeFirstInLine(s, c, h);
      WakeAllInLine(WakeFirst(s, c), c, n - 1, h);
    }
  }

  lemma TimeoutInLine(s: State, t: Thread, h: Clock)
    requires InLine(s, h)
    ensures InLine(TimeoutStep(s, t), h)
  {
    if PlaceOf(s, t).Waiting? {
      LinedWithout(h, Queue(s, PlaceOf(s, t).cond), t);
      forall d: Condition ensures Lined(h, Queue(TimeoutStep(s, t), d)) {
        assert Lined(h, Queue(s, d));
      }
    }
  }

  /** The queues of s' are those of s. */
  lemma SameQueues(s: State, s': State, h: Clock)
    requires InLine(s, h) && s'.entering == s.entering && s'.waiting == s.waiting && s'.queues == s.queues
    ensures InLine(s', h)
    ensures forall t :: Nowhere(s, t) ==> Nowhere(s', t)
  {
    assert forall c: Condition :: Queue(s', c) == Queue(s, c);
  }

  lemma WakeWaitingInLine(s: State, h: Clock)
    requires InLine(s, h)
    ensures InLine(WakeWaiting(s), h) && WakeWaiting(s).queues == s.queues
    ensures forall t :: Nowhere(s, t) ==> Nowhere(WakeWaiting(s), t)
  {
    var r := WakeWaiting(s);
    assert forall c: Condition :: Queue(r, c) == Queue(s, c);
    if s.waiting != [] { LinedTail(h, s.waiting); }
  }

  lemma WakeEnteringInLine(s: State, h: Clock)
    requires InLine(s, h)
    ensures InLine(WakeEntering(s), h) && WakeEntering(s).queues == s.queues
    ensures forall t :: Nowhere(s, t) ==> Nowhere(WakeEntering(s), t)
  {
    var r := WakeEntering(s);
    assert forall c: Condition :: Queue(r, c) == Queue(s, c);
    if s.entering != [] { LinedTail(h, s.entering); }
  }

  /** A release takes at most the first thread out of one queue. */
  lemma ReleaseInLine(s: State, h: Clock)
    requires InLine(s, h)
    ensures InLine(Release(s), h) && Release(s).queues == s.queues
    ensures forall t :: Nowhere(s, t) ==> Nowhere(Release(s), t)
  {
    var free := s.(owner := None);
    SameQueues(s, free, h);
    if s.totalWaiting != 0 { WakeWaitingInLine(free, h); } else { WakeEnteringInLine(free, h); }
  }

  // ---- the steps

  lemma EnterInLine(s: State, t: Thread, h: Clock, h': Clock)
    requires InLine(s, h) && Nowhere(s, t) && Ticked(h, h', t) && (!Free(s, t) ==> Since(h', t) == h.now)
    ensures InLine(EnterStep(s, t), h')
  {
    var s' := EnterStep(s, t);
    TickedInLine(s, h, h', t);
    assert forall c: Condition :: Queue(s', c) == Queue(s, c);
    if !Free(s, t) { LinedPush(h, h', t, s.entering); }
  }

  lemma ReacquireInLine(s: State, t: Thread, c: Condition, saved: nat, h: Clock, h': Clock)
    requires InLine(s, h) && Nowhere(s, t) && Ticked(h, h', t) && (!Free(s, t) ==> Since(h', t) == h.now)
    ensures InLine(Reacquire(s, t, c, saved), h')
  {
    var s' := Reacquire(s, t, c, saved);
    TickedInLine(s, h, h', t);
    assert forall d: Condition :: Queue(s', d) == Queue(s, d);
    if !Free(s, t) { LinedPush(h, h', t, s.waiting); }
  }

  /** A thread lines up at a condition. */
  lemma CondPush(r: State, t: Thread, c: Condition, h: Clock, h': Clock)
    requires InLine(r, h) && Nowhere(r, t) && Ticked(h, h', t) && Since(h', t) == h.now
    ensures InLine(r.(queues := r.queues[c := Queue(r, c) + [t]]), h')
  {
    var s' := r.(queues := r.queues[c := Queue(r, c) + [t]]);
    TickedInLine(r, h, h', t);
    LinedPush(h, h', t, Queue(r, c));
    forall d: Condition ensures Lined(h', Queue(s', d)) {
      if d != c { assert Queue(s', d) == Queue(r, d); }
    }
  }

  lemma WaitStepIs(s: State, t: Thread, c: Condition, m: State, r: State)
    requires s.owner == Some(t) && r == Release(m)
    requires m == Move(s, t, Waiting(c, s.count)).(count := 0, nWaiters := s.nWaiters[c := NWaiters(s, c) + 1])
    ensures WaitStep(s, t, c) == r.(queues := r.queues[c := Queue(r, c) + [t]])
  {
  }

  lemma WaitInLine(s: State, t: Thread, c: Condition, h: Clock, h': Clock)
    requires InLine(s, h) && Nowhere(s, t) && Ticked(h, h', t) && s.owner == Some(t) && Since(h', t) == h.now
    ensures InLine(WaitStep(s, t, c), h')
  {
    var m := Move(s, t, Waiting(c, s.count)).(count := 0, nWaiters := s.nWaiters[c := NWaiters(s, c) + 1]);
    var r := Release(m);
    WaitStepIs(s, t, c, m, r);
    assert InLine(r, h) && Nowhere(r, t) by {
      SameQueues(s, m, h);
      ReleaseInLine(m, h);
    }
    CondPush(r, t, c, h, h');
  }

  lemma ExitInLine(s: State, t: Thread, h: Clock)
    requires InLine(s, h)
    ensures InLine(ExitStep(s, t), h)
  {
    if s.owner == Some(t) && s.count > 0 {
      var m := Move(s, t, Running(s.count - 1)).(count := s.count - 1);
      SameQueues(s, m, h);
      ReleaseInLine(m, h);
    }
  }

  /** The steps that block nobody. */
  lemma OtherInLine(s: State, step: Step, h: Clock)
    requires InLine(s, h)
    requires step.Exit? || step.Signal? || step.Broadcast? || step.Timeout? || step.PassOn? || step.TryEnter?
    ensures InLine(Next(s, step), h)
  {
    match step
    case TryEnter(t) => SameQueues(s, TryEnterStep(s, t), h);
    case Exit(t) => ExitInLine(s, t, h);
    case Signal(_, c) => WakeFirstInLine(s, c, h);
    case Broadcast(_, c) => WakeAllInLine(s, c, |Queue(s, c)|, h);
    case Timeout(t) => TimeoutInLine(s, t, h);
    case PassOn(c) => WakeFirstInLine(s, c, h);
  }

  lemma TrackTicks(h: Clock, s: State, step: Step, t: Thread)
    requires ThreadOf(step) == Some(t) || ThreadOf(step) == None
    ensures var h' := Track(h, s, step);
            Ticked(h, h', t) && Since(h', t) == if Blocks(s, step) then h.now else Since(h, t)
  {
  }

  lemma WaitBlocks(s: State, t: Thread, c: Condition)
    requires Inv(s) && PlaceOf(s, t).Running? && s.owner == Some(t)
    ensures Blocked(PlaceOf(Next(s, Wait(t, c)), t))
  {
    if s.entering != [] { assert PlaceOf(s, s.entering[0]).Entering?; }
    if s.waiting != [] { assert PlaceOf(s, s.waiting[0]).Reacquiring?; }
  }

  lemma OthersTick(s: State, step: Step, h: Clock)
    requires Inv(s) && InLine(s, h) && Enabled(s, step)
    requires step.Exit? || step.Signal? || step.Broadcast? || step.Timeout? || step.PassOn? || step.TryEnter?
    ensures InLine(Next(s, step), Track(h, s, step))
  {
    var t := if ThreadOf(step).Some? then ThreadOf(step).value else 0;
    TrackTicks(h, s, step, t);
    if !step.Timeout? && !step.PassOn? { NotInLine(s, t); }
    TickedInLine(s, h, Track(h, s, step), t);
    OtherInLine(s, step, Track(h, s, step));
  }

  lemma StepInLine(s: State, step: Step, h: Clock)
    requires Inv(s) && InLine(s, h) && Enabled(s, step)
    ensures InLine(Next(s, step), Track(h, s, step))
  {
    var h' := Track(h, s, step);
    match step
    case Enter(t) =>
      NotInLine(s, t);
      TrackTicks(h, s, step, t);
      EnterInLine(s, t, h, h');
    case EnterAgain(t) =>
      NotInLine(s, t);
      TrackTicks(h, s, step, t);
      EnterInLine(s, t, h, h');
    case Wait(t, c) =>
      NotInLine(s, t);
      TrackTicks(h, s, step, t);
      if s.owner == Some(t) {
        WaitBlocks(s, t, c);
        WaitInLine(s, t, c, h, h');
      } else {
        TickedInLine(s, h, h', t);
      }
    case Resume(t) =>
      NotInLine(s, t);
      TrackTicks(h, s, step, t);
      var m, p := s.(totalWaiting := s.totalWaiting + 1), PlaceOf(s, t);
      SameQueues(s, m, h);
      ReacquireInLine(m, t, p.cond, p.saved, h, h');
    case ResumeAgain(t) =>
      NotInLine(s, t);
      TrackTicks(h, s, step, t);
      ReacquireInLine(s, t, PlaceOf(s, t).cond, PlaceOf(s, t).saved, h, h');
    case _ => OthersTick(s, step, h);
  }

  lemma {:induction false} RunInLine(s: State, steps: seq<Step>, s': State, h: Clock)
    requires Inv(s) && InLine(s, h) && Runs(s, steps, s')
    ensures Inv(s') && InLine(s', TrackAll(h, s, steps))
    decreases |steps|
  {
    if steps != [] {
      StepInLine(s, steps[0], h);
      StepInv(s, steps[0]);
      RunInLine(Next(s, steps[0]), steps[1..], s', Track(h, s, steps[0]));
    }
  }

  // ---- who is woken

  predicate WaitsFor(s: State, t: Thread, c: Condition) {
    PlaceOf(s, t).Waiting? && PlaceOf(s, t).cond == c
  }

  /** Of the threads in a set, t has been blocked longest. */
  ghost predicate Longest(h: Clock, t: Thread, blocked: iset<Thread>) {
    t in blocked && forall u: Thread {:trigger Since(h, u)} :: u != t && u in blocked ==> Since(h, t) < Since(h, u)
  }

  lemma FirstIsLongest(h: Clock, q: seq<Thread>, blocked: iset<Thread>, t: Thread)
    requires Lined(h, q) && forall u :: u in q <==> u in blocked
    ensures Longest(h, t, blocked) <==> q != [] && t == q[0]
  {
    if q != [] {
      var first := Since(h, q[0]);
      assert q[0] in q;
      assert t != q[0] && Longest(h, t, blocked) ==> t in q && Since(h, t) < first;
    }
  }

  /** The threads that wait on a condition. */
  ghost function WaitersOf(s: State, c: Condition): iset<Thread> { iset t: Thread | WaitsFor(s, t, c) }

  /** A signal wakes the thread that has waited longest on the condition, and moves no other thread. */
  lemma SignalWakesLongest(steps: seq<Step>, s: State, t: Thread, c: Condition, u: Thread)
    requires Runs(Initial(), steps, s) && s.owner == Some(t)
    ensures PlaceOf(Next(s, Signal(t, c)), u) ==
      if Longest(TrackAll(START, Initial(), steps), u, WaitersOf(s, c)) then Woken(c, PlaceOf(s, u).saved)
      else PlaceOf(s, u)
  {
    var h, q := TrackAll(START, Initial(), steps), Queue(s, c);
    InitialInv();
    RunInLine(Initial(), steps, s, START);
    assert CondQueued(s, c);
    FirstIsLongest(h, q, WaitersOf(s, c), u);
    if q != [] { assert q[0] in q; }
  }

  /** The threads blocked in mon_enter, and those that were signalled and are blocked again. */
  ghost function EnteringOf(s: State): iset<Thread> { iset t: Thread | PlaceOf(s, t).Entering? }

  ghost function ReacquiringOf(s: State): iset<Thread> { iset t: Thread | PlaceOf(s, t).Reacquiring? }

  /** Leaving the monitor wakes the thread that has been blocked longest, one that was signalled before
      one that enters; nobody else is moved, and nobody that enters is woken while one that was
      signalled still contends. */
  lemma ExitWakesLongest(steps: seq<Step>, s: State, t: Thread, u: Thread)
    requires Runs(Initial(), steps, s) && s.owner == Some(t) && s.count == 1 && u != t
    ensures var h, p := TrackAll(START, Initial(), steps), PlaceOf(s, u);
            PlaceOf(Next(s, Exit(t)), u) ==
              if (exists v: Thread :: Contends(PlaceOf(s, v))) then
                if Longest(h, u, ReacquiringOf(s)) then ReacquireWoken(p.cond, p.saved) else p
              else if Longest(h, u, EnteringOf(s)) then EnterWoken else p
  {
    var h := TrackAll(START, Initial(), steps);
    InitialInv();
    RunInLine(Initial(), steps, s, START);
    FirstIsLongest(h, s.waiting, ReacquiringOf(s), u);
    FirstIsLongest(h, s.entering, EnteringOf(s), u);
    ContendersCounted(s);
    ExitPlaces(s, t, u);
  }

  lemma ContendersCounted(s: State)
    requires Inv(s)
    ensures s.totalWaiting != 0 <==> exists v: Thread :: Contends(PlaceOf(s, v))
  {
    if s.totalWaiting != 0 {
      var v :| v in Contenders(s.places);
      assert Contends(PlaceOf(s, v));
    }
    if v: Thread :| Contends(PlaceOf(s, v)) { assert v in Contenders(s.places); }
  }

  lemma ExitPlaces(s: State, t: Thread, u: Thread)
    requires Inv(s) && s.owner == Some(t) && s.count == 1 && u != t
    ensures PlaceOf(ExitStep(s, t), u) ==
      if s.totalWaiting != 0 then
        if s.waiting != [] && u == s.waiting[0] then ReacquireWoken(PlaceOf(s, u).cond, PlaceOf(s, u).saved)
        else PlaceOf(s, u)
      else if s.entering != [] && u == s.entering[0] then EnterWoken else PlaceOf(s, u)
  {
    if s.waiting != [] { assert PlaceOf(s, s.waiting[0]).Reacquiring?; }
    if s.entering != [] { assert PlaceOf(s, s.entering[0]).Entering?; }
  }

  lemma {:induction false} WakeAllPlaces(s: State, c: Condition, n: nat, u: Thread)
    requires Inv(s) && n == |Queue(s, c)|
    ensures PlaceOf(WakeAll(s, c, n), u) == if WaitsFor(s, u, c) then Woken(c, PlaceOf(s, u).saved) else PlaceOf(s, u)
    decreases n
  {
    assert CondQueued(s, c);
    if n > 0 {
      var w, first := WakeFirst(s, c), Queue(s, c)[0];
      assert first in Queue(s, c) && WaitsFor(s, first, c);
      WakeFirstInv(s, c);
      assert Queue(w, c) == Queue(s, c)[1..];
      WakeAllPlaces(w, c, n - 1, u);
    }
  }

  /** A broadcast wakes every thread that waits on the condition, and moves no other thread. */
  lemma BroadcastWakesAll(steps: seq<Step>, s: State, t: Thread, c: Condition, u: Thread)
    requires Runs(Initial(), steps, s) && s.owner == Some(t)
    ensures PlaceOf(Next(s, Broadcast(t, c)), u) ==
      if WaitsFor(s, u, c) then Woken(c, PlaceOf(s, u).saved) else PlaceOf(s, u)
  {
    InitialInv();
    RunInv(Initial(), steps, s);
    WakeAllPlaces(s, c, |Queue(s, c)|, u);
  }
}
