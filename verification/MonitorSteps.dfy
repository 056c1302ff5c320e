/**
 A re-entrant monitor as a state machine: each critical section under the monitor's mutex is one
 atomic step of one thread.
 */
module MonitorSteps {
  import opened Common

  type Thread = nat
  type Condition = nat

  /** Where a thread is. The depth of a thread that runs counts its calls of mon_enter that it has
      not yet left; a waiter has saved it. */
  datatype Place =
    | Running(depth: nat)
    | Entering                                    // blocked on the entering condition
    | EnterWoken                                  // signalled there, about to look again
    | Waiting(cond: Condition, saved: nat)        // blocked on a condition of the user
    | Woken(cond: Condition, saved: nat)          // signalled there, or timed out
    | Reacquiring(cond: Condition, saved: nat)    // blocked on the waiting condition
    | ReacquireWoken(cond: Condition, saved: nat) // signalled there, about to look again

  datatype State = State(
    owner: Option<Thread>,
    count: nat,
    totalWaiting: int,
    entering: seq<Thread>,
    waiting: seq<Thread>,
    queues: map<Condition, seq<Thread>>,
    nWaiters: map<Condition, int>,
    places: map<Thread, Place>)

  function PlaceOf(s: State, t: Thread): Place {
    if t in s.places then s.places[t] else Running(0)
  }

  function Queue(s: State, c: Condition): seq<Thread> {
    if c in s.queues then s.queues[c] else []
  }

  function NWaiters(s: State, c: Condition): int {
    if c in s.nWaiters then s.nWaiters[c] else 0
  }

  function Move(s: State, t: Thread, p: Place): State {
    s.(places := s.places[t := p])
  }

  function Initial(): State {
    State(None, 0, 0, [], [], map[], map[], map[])
  }

  datatype Step =
    | TryEnter(t: Thread)
    | Enter(t: Thread)
    | EnterAgain(t: Thread)
    | Exit(t: Thread)
    | Wait(t: Thread, c: Condition)
    | Resume(t: Thread)
    | ResumeAgain(t: Thread)
    | Signal(t: Thread, c: Condition)
    | Broadcast(t: Thread, c: Condition)
    | Timeout(t: Thread)
    | PassOn(c: Condition)   // a signal that reached a timed-out waiter goes to the next one

  /** Whether the thread is at the place from which it takes the step. */
  predicate Enabled(s: State, step: Step) {
    match step
    case TryEnter(t) => PlaceOf(s, t).Running?
    case Enter(t) => PlaceOf(s, t).Running?
    case EnterAgain(t) => PlaceOf(s, t).EnterWoken?
    case Exit(t) => PlaceOf(s, t).Running?
    case Wait(t, _) => PlaceOf(s, t).Running?
    case Resume(t) => PlaceOf(s, t).Woken?
    case ResumeAgain(t) => PlaceOf(s, t).ReacquireWoken?
    case Signal(t, _) => PlaceOf(s, t).Running?
    case Broadcast(t, _) => PlaceOf(s, t).Running?
    case Timeout(t) => PlaceOf(s, t).Waiting?
    case PassOn(_) => true
  }

  /** The guard of mon_acquire's loop. */
  predicate Free(s: State, t: Thread) {
    s.owner == None || s.owner == Some(t)
  }

  /** mon_acquire and the increment behind it. */
  function Acquire(s: State, t: Thread): State {
    Move(s, t, Running(s.count + 1)).(owner := Some(t), count := s.count + 1)
  }

  function TryEnterStep(s: State, t: Thread): State {
    if Free(s, t) then Acquire(s, t) else s
  }

  function EnterStep(s: State, t: Thread): State {
    if Free(s, t) then Acquire(s, t) else Move(s, t, Entering).(entering := s.entering + [t])
  }

  /** signal on the waiting condition, or on the entering condition. */
  function WakeWaiting(s: State): State {
    if s.waiting == [] then s
    else
      var p := PlaceOf(s, s.waiting[0]);
      (if p.Reacquiring? then Move(s, s.waiting[0], ReacquireWoken(p.cond, p.saved)) else s).(waiting := s.waiting[1..])
  }

  function WakeEntering(s: State): State {
    if s.entering == [] then s else Move(s, s.entering[0], EnterWoken).(entering := s.entering[1..])
  }

  /** mon_release */
  function Release(s: State): State {
    var s' := s.(owner := None);
    if s.totalWaiting != 0 then WakeWaiting(s') else WakeEntering(s')
  }

  /** mon_exit; a thread that is not the owner gets a ThreadError. */
  function ExitStep(s: State, t: Thread): State {
    if s.owner != Some(t) || s.count == 0 then s
    else
      var s' := Move(s, t, Running(s.count - 1)).(count := s.count - 1);
      if s'.count == 0 then Release(s') else s'
  }

  /** mon_wait_for_cond up to the wait. */
  function WaitStep(s: State, t: Thread, c: Condition): State {
    if s.owner != Some(t) then s
    else
      var s' := Release(Move(s, t, Waiting(c, s.count)).(count := 0, nWaiters := s.nWaiters[c := NWaiters(s, c) + 1]));
      s'.(queues := s'.queues[c := Queue(s', c) + [t]])
  }

  /** The loop of mon_acquire behind the wait, and what follows it. */
  function Reacquire(s: State, t: Thread, c: Condition, saved: nat): State {
    if Free(s, t) then
      Move(s, t, Running(saved)).(owner := Some(t), count := saved, totalWaiting := s.totalWaiting - 1,
                                  nWaiters := s.nWaiters[c := NWaiters(s, c) - 1])
    else Move(s, t, Reacquiring(c, saved)).(waiting := s.waiting + [t])
  }

  function ResumeStep(s: State, t: Thread): State {
    var p := PlaceOf(s, t);
    if p.Woken? then Reacquire(s.(totalWaiting := s.totalWaiting + 1), t, p.cond, p.saved) else s
  }

  function ResumeAgainStep(s: State, t: Thread): State {
    var p := PlaceOf(s, t);
    if p.ReacquireWoken? then Reacquire(s, t, p.cond, p.saved) else s
  }

  /** The first waiter of a condition is woken. */
  function WakeFirst(s: State, c: Condition): State {
    var q := Queue(s, c);
    if q == [] then s
    else
      var p := PlaceOf(s, q[0]);
      (if p.Waiting? then Move(s, q[0], Woken(p.cond, p.saved)) else s).(queues := s.queues[c := q[1..]])
  }

  function WakeAll(s: State, c: Condition, n: nat): State
    decreases n
  {
    if n == 0 then s else WakeAll(WakeFirst(s, c), c, n - 1)
  }

  function Without(q: seq<Thread>, t: Thread): seq<Thread> {
    if q == [] then [] else if q[0] == t then q[1..] else [q[0]] + Without(q[1..], t)
  }

  function TimeoutStep(s: State, t: Thread): State {
    var p := PlaceOf(s, t);
    if p.Waiting? then
      Move(s, t, Woken(p.cond, p.saved)).(queues := s.queues[p.cond := Without(Queue(s, p.cond), t)])
    else s
  }

  function Next(s: State, step: Step): State {
    match step
    case TryEnter(t) => TryEnterStep(s, t)
    case Enter(t) => EnterStep(s, t)
    case EnterAgain(t) => EnterStep(s, t)
    case Exit(t) => ExitStep(s, t)
    case Wait(t, c) => WaitStep(s, t, c)
    case Resume(t) => ResumeStep(s, t)
    case ResumeAgain(t) => ResumeAgainStep(s, t)
    case Signal(t, c) => if s.owner == Some(t) then WakeFirst(s, c) else s
    case Broadcast(t, c) => if s.owner == Some(t) then WakeAll(s, c, |Queue(s, c)|) else s
    case Timeout(t) => TimeoutStep(s, t)
    case PassOn(c) => WakeFirst(s, c)
  }

  /** A run: every step is taken from where its thread is. */
  ghost predicate Runs(s: State, steps: seq<Step>, s': State)
    decreases |steps|
  {
    if steps == [] then s' == s else Enabled(s, steps[0]) && Runs(Next(s, steps[0]), steps[1..], s')
  }
}
