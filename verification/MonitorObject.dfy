/**
 MonitorMixin: the methods update the monitor's fields, each up to the point where the thread
 blocks and from the point where it goes on, and take the steps of the state machine.
 */
module MonitorObject {
  import opened Common
  import opened MonitorSteps
  import opened MonitorSafety

  datatype Result = Returned | Blocked | ThreadError

  class Monitor {
    var owner: Option<Thread>
    var count: nat
    var totalWaiting: int
    var enteringCond: seq<Thread>
    var waitingCond: seq<Thread>
    var conditions: map<Condition, seq<Thread>>
    var nWaiters: map<Condition, int>

    /** Where the threads are; the monitor itself does not know. */
    ghost var places: map<Thread, Place>

    ghost function St(): State
      reads this
    {
      State(owner, count, totalWaiting, enteringCond, waitingCond, conditions, nWaiters, places)
    }

    constructor ()
      ensures St() == Initial()
    {
      owner := None;
      count, totalWaiting := 0, 0;
      enteringCond, waitingCond := [], [];
      conditions, nWaiters, places := map[], map[], map[];
    }

    ghost method Move(t: Thread, p: Place)
      modifies this`places
      ensures St() == MonitorSteps.Move(old(St()), t, p)
    {
      places := places[t := p];
    }

    /** mon_try_enter */
    method TryEnter(t: Thread) returns (entered: bool)
      modifies this
      ensures St() == TryEnterStep(old(St()), t) && entered == Free(old(St()), t)
    {
      if owner == None { owner := Some(t); }
      if owner == Some(t) {
        count := count + 1;
        Move(t, Running(count));
        return true;
      }
      return false;
    }

    /** mon_enter, and its loop after a wake-up. */
    method Enter(t: Thread) returns (r: Result)
      modifies this
      ensures St() == EnterStep(old(St()), t) && (r == Returned <==> Free(old(St()), t))
    {
      if owner != None && owner != Some(t) {
        enteringCond := enteringCond + [t];
        Move(t, Entering);
        return Blocked;
      }
      owner := Some(t);
      count := count + 1;
      Move(t, Running(count));
      return Returned;
    }

    /** signal on one of the monitor's own conditions. */
    method SignalWaiting()
      modifies this
      ensures St() == WakeWaiting(old(St()))
    {
      if waitingCond == [] { return; }
      var t := waitingCond[0];
      ghost var p := PlaceOf(St(), t);
      if p.Reacquiring? { Move(t, ReacquireWoken(p.cond, p.saved)); }
      waitingCond := waitingCond[1..];
    }

    method SignalEntering()
      modifies this
      ensures St() == WakeEntering(old(St()))
    {
      if enteringCond == [] { return; }
      Move(enteringCond[0], EnterWoken);
      enteringCond := enteringCond[1..];
    }

    /** mon_release */
    method ReleaseMonitor()
      modifies this
      ensures St() == Release(old(St()))
    {
      owner := None;
      if totalWaiting != 0 { SignalWaiting(); } else { SignalEntering(); }
    }

    /** mon_exit */
    method Exit(t: Thread) returns (r: Result)
      requires owner == Some(t) ==> count > 0
      modifies this
      ensures St() == ExitStep(old(St()), t) && (r == ThreadError <==> old(owner) != Some(t))
    {
      if owner != Some(t) { return ThreadError; }
      count := count - 1;
      Move(t, Running(count));
      if count == 0 { ReleaseMonitor(); }
      return Returned;
    }

    /** mon_wait_for_cond, up to the wait. */
    method Wait(t: Thread, c: Condition) returns (r: Result)
      modifies this
      ensures St() == WaitStep(old(St()), t, c) && (r == ThreadError <==> old(owner) != Some(t))
    {
      if owner != Some(t) { return ThreadError; }
      var saved := count;
      count := 0;
      nWaiters := nWaiters[c := (if c in nWaiters then nWaiters[c] else 0) + 1];
      Move(t, Waiting(c, saved));
      ReleaseMonitor();
      conditions := conditions[c := (if c in conditions then conditions[c] else []) + [t]];
      return Blocked;
    }

    /** The loop of mon_acquire on the waiting condition, and what follows it. */
    method AcquireAgain(t: Thread, c: Condition, saved: nat) returns (r: Result)
      modifies this
      ensures St() == Reacquire(old(St()), t, c, saved) && (r == Returned <==> Free(old(St()), t))
    {
      if owner != None && owner != Some(t) {
        waitingCond := waitingCond + [t];
        Move(t, Reacquiring(c, saved));
        return Blocked;
      }
      owner := Some(t);
      totalWaiting := totalWaiting - 1;
      count := saved;
      nWaiters := nWaiters[c := (if c in nWaiters then nWaiters[c] else 0) - 1];
      Move(t, Running(saved));
      return Returned;
    }

    /** mon_wait_for_cond behind the wait. */
    method Resume(t: Thread, c: Condition, saved: nat) returns (r: Result)
      requires PlaceOf(St(), t) == Woken(c, saved)
      modifies this
      ensures St() == ResumeStep(old(St()), t)
    {
      totalWaiting := totalWaiting + 1;
      r := AcquireAgain(t, c, saved);
    }

    /** Waking the first waiter of a condition. */
    method SignalCondition(c: Condition)
      modifies this
      ensures St() == WakeFirst(old(St()), c)
    {
      if c !in conditions || conditions[c] == [] { return; }
      var t := conditions[c][0];
      ghost var p := PlaceOf(St(), t);
      if p.Waiting? { Move(t, Woken(p.cond, p.saved)); }
      conditions := conditions[c := conditions[c][1..]];
    }

    /** mon_signal_cond */
    method Signal(t: Thread, c: Condition) returns (r: Result)
      modifies this
      ensures St() == Next(old(St()), MonitorSteps.Signal(t, c)) && (r == ThreadError <==> old(owner) != Some(t))
    {
      if owner != Some(t) { return ThreadError; }
      SignalCondition(c);
      return Returned;
    }

    /** mon_broadcast_cond */
    method Broadcast(t: Thread, c: Condition) returns (r: Result)
      modifies this
      ensures St() == Next(old(St()), MonitorSteps.Broadcast(t, c)) && (r == ThreadError <==> old(owner) != Some(t))
    {
      if owner != Some(t) { return ThreadError; }
      ghost var n := |Queue(St(), c)|;
      while c in conditions && conditions[c] != []
        invariant n == |Queue(St(), c)|
        invariant WakeAll(St(), c, n) == WakeAll(old(St()), c, |Queue(old(St()), c)|)
        decreases n
      {
        SignalCondition(c);
        n := n - 1;
      }
      return Returned;
    }

    /** mon_count_cond_waiters */
    method CountWaiters(c: Condition) returns (n: int)
      requires Inv(St())
      ensures n == |Waiters(places, c)|
    {
      assert NWaiters(St(), c) == |Waiters(places, c)|;
      return if c in nWaiters then nWaiters[c] else 0;
    }
  }
}
