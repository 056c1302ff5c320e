/**
 The link and exit protocol of many actors: each critical section under one actor's lock is one
 atomic step. There are no unlinks, no exits sent by hand and no trapping of exits.
 */
module ActorLinks {
  import opened Common

  type Id = nat
  type Reason = int

  /** One actor, and what its watchdog still has to notify. The exits notified are the history of
      its interrupts. */
  datatype Actor = Actor(alive: bool, links: seq<Id>, reason: Option<Reason>, toNotify: seq<Id>,
                         exits: seq<(Id, Reason)>)

  /** A call of target.notify_link(other): behind its critical section it either is done, or has
      still to notify the other actor of the target's exit. */
  datatype Call = Call(target: Id, other: Id, pending: bool)

  datatype State = State(actors: map<Id, Actor>, calls: map<nat, Call>)

  function Get(s: State, a: Id): Actor {
    if a in s.actors then s.actors[a] else Actor(true, [], None, [], [])
  }

  function Put(s: State, a: Id, x: Actor): State {
    s.(actors := s.actors[a := x])
  }

  function Delete(links: seq<Id>, a: Id): seq<Id> {
    if links == [] then [] else if links[0] == a then Delete(links[1..], a) else [links[0]] + Delete(links[1..], a)
  }

  /** notify_exited of b for the exit of a. */
  function NotifyExited(s: State, b: Id, a: Id, reason: Option<Reason>): State {
    var x := Get(s, b);
    if !x.alive then s
    else
      var x' := x.(links := Delete(x.links, a));
      Put(s, b, if reason.Some? then x'.(exits := x'.exits + [(a, reason.value)]) else x')
  }

  datatype Step =
    | LinkFirst(call: nat, target: Id, other: Id)   // the critical section of notify_link
    | LinkLast(call: nat)                           // the notification behind it
    | Die(actor: Id, reason: Option<Reason>)        // the critical section of the watchdog
    | Notify(actor: Id)                             // one notification of its loop

  predicate Enabled(s: State, step: Step) {
    match step
    case LinkFirst(call, _, _) => call !in s.calls
    case LinkLast(call) => call in s.calls && s.calls[call].pending
    case Die(a, _) => Get(s, a).alive
    case Notify(a) => Get(s, a).toNotify != []
  }

  function LinkFirstStep(s: State, call: nat, target: Id, other: Id): State {
    var x := Get(s, target);
    var s' := s.(calls := s.calls[call := Call(target, other, !x.alive)]);
    if x.alive && other !in x.links then Put(s', target, x.(links := x.links + [other])) else s'
  }

  function LinkLastStep(s: State, call: nat): State
    requires call in s.calls
  {
    var c := s.calls[call];
    NotifyExited(s.(calls := s.calls[call := c.(pending := false)]), c.other, c.target, Get(s, c.target).reason)
  }

  function DieStep(s: State, a: Id, reason: Option<Reason>): State {
    var x := Get(s, a);
    Put(s, a, x.(alive := false, reason := reason, links := [], toNotify := x.links))
  }

  function NotifyStep(s: State, a: Id): State
    requires Get(s, a).toNotify != []
  {
    var x := Get(s, a);
    NotifyExited(Put(s, a, x.(toNotify := x.toNotify[1..])), x.toNotify[0], a, x.reason)
  }

  function Next(s: State, step: Step): State
    requires Enabled(s, step)
  {
    match step
    case LinkFirst(call, target, other) => LinkFirstStep(s, call, target, other)
    case LinkLast(call) => LinkLastStep(s, call)
    case Die(a, reason) => DieStep(s, a, reason)
    case Notify(a) => NotifyStep(s, a)
  }

  ghost predicate Runs(s: State, steps: seq<Step>, s': State)
    decreases |steps|
  {
    if steps == [] then s' == s else Enabled(s, steps[0]) && Runs(Next(s, steps[0]), steps[1..], s')
  }

  // ---- the invariant

  /** b has had the exit of a, with the reason a died with, queued as an interrupt. */
  ghost predicate Had(s: State, b: Id, a: Id) {
    Get(s, a).reason.Some? && (a, Get(s, a).reason.value) in Get(s, b).exits
  }

  /** Where the news of a's exit is on its way to b: not yet begun, in the watchdog's list, arrived,
      or no longer of interest. */
  ghost predicate OnItsWay(s: State, a: Id, b: Id) {
    var x := Get(s, a);
    || !Get(s, b).alive
    || (x.alive && b in x.links)
    || (!x.alive && (x.reason.None? || b in x.toNotify || Had(s, b, a)))
  }

  /** Behind every finished call the news is on its way; calls only wait for actors that are dead,
      and only dead actors have exited or are being announced. */
  ghost predicate Inv(s: State) {
    && (forall call {:trigger s.calls[call]} :: call in s.calls ==>
          if s.calls[call].pending then !Get(s, s.calls[call].target).alive
          else OnItsWay(s, s.calls[call].target, s.calls[call].other))
    && (forall a: Id {:trigger Get(s, a)} :: Get(s, a).alive ==> Get(s, a).toNotify == [])
  }

  lemma {:induction false} DeleteKeeps(links: seq<Id>, a: Id, b: Id)
    ensures b in Delete(links, a) <==> b in links && b != a
    decreases |links|
  {
    if links != [] { DeleteKeeps(links[1..], a, b); }
  }

  /** One actor's state changes; everybody else's stays. */
  lemma Changed(s: State, s': State, a: Id, x: Actor)
    requires s'.actors == s.actors[a := x]
    ensures forall b: Id {:trigger Get(s', b)} :: Get(s', b) == if b == a then x else Get(s, b)
  {
  }

  lemma SameActors(s: State, s': State)
    requires s'.actors == s.actors
    ensures forall b: Id {:trigger Get(s', b)} :: Get(s', b) == Get(s, b)
  {
  }

  /** Notifying b of the exit of a dead actor a keeps all news on its way, and brings this one. */
  lemma NotifyKeeps(s: State, b: Id, a: Id, c: Id, d: Id)
    requires !Get(s, a).alive && OnItsWay(s, c, d)
    ensures OnItsWay(NotifyExited(s, b, a, Get(s, a).reason), c, d)
  {
    var x, s' := Get(s, b), NotifyExited(s, b, a, Get(s, a).reason);
    if x.alive {
      Changed(s, s', b, Get(s', b));
      DeleteKeeps(x.links, a, d);
      if Had(s, d, c) { assert (c, Get(s, c).reason.value) in Get(s', d).exits; }
    }
  }

  lemma NotifyArrives(s: State, b: Id, a: Id)
    requires !Get(s, a).alive
    ensures OnItsWay(NotifyExited(s, b, a, Get(s, a).reason), a, b)
  {
    var x, reason, s' := Get(s, b), Get(s, a).reason, NotifyExited(s, b, a, Get(s, a).reason);
    if x.alive {
      Changed(s, s', b, Get(s', b));
      assert Get(s', a) == Get(s, a);
      if reason.Some? {
        var r: Reason := reason.value;
        assert Get(s', b).exits == x.exits + [(a, r)];
        assert (a, r) in Get(s', b).exits;
      }
    }
  }

  lemma NotifyOthers(s: State, b: Id, a: Id, reason: Option<Reason>)
    ensures var s' := NotifyExited(s, b, a, reason);
            s'.calls == s.calls && forall c: Id {:trigger Get(s', c)} ::
              Get(s', c).alive == Get(s, c).alive && Get(s', c).reason == Get(s, c).reason &&
                Get(s', c).toNotify == Get(s, c).toNotify
  {
    Changed(s, NotifyExited(s, b, a, reason), b, Get(NotifyExited(s, b, a, reason), b));
  }

  lemma LinkFirstInv(s: State, call: nat, target: Id, other: Id)
    requires Inv(s) && call !in s.calls
    ensures Inv(LinkFirstStep(s, call, target, other))
  {
    var x, s' := Get(s, target), LinkFirstStep(s, call, target, other);
    if x.alive && other !in x.links { Changed(s, s', target, Get(s', target)); } else { SameActors(s, s'); }
    forall k | k in s'.calls
      ensures var c := s'.calls[k]; if c.pending then !Get(s', c.target).alive else OnItsWay(s', c.target, c.other)
    {
      if k != call {
        var c := s.calls[k];
        if !c.pending {
          assert OnItsWay(s, c.target, c.other);
          assert Get(s', c.other).exits == Get(s, c.other).exits;
        }
      }
    }
  }

  lemma LinkLastInv(s: State, call: nat)
    requires Inv(s) && call in s.calls && s.calls[call].pending
    ensures Inv(LinkLastStep(s, call))
  {
    var c := s.calls[call];
    var s1 := s.(calls := s.calls[call := c.(pending := false)]);
    var s' := LinkLastStep(s, call);
    SameActors(s, s1);
    NotifyOthers(s1, c.other, c.target, Get(s, c.target).reason);
    forall k | k in s'.calls
      ensures var d := s'.calls[k]; if d.pending then !Get(s', d.target).alive else OnItsWay(s', d.target, d.other)
    {
      var d := s'.calls[k];
      if k == call {
        NotifyArrives(s1, c.other, c.target);
      } else if !d.pending {
        assert OnItsWay(s, s.calls[k].target, s.calls[k].other);
        NotifyKeeps(s1, c.other, c.target, d.target, d.other);
      }
    }
  }

  lemma DieInv(s: State, a: Id, reason: Option<Reason>)
    requires Inv(s) && Get(s, a).alive
    ensures Inv(DieStep(s, a, reason))
  {
    var s' := DieStep(s, a, reason);
    Changed(s, s', a, Get(s', a));
    forall k | k in s'.calls
      ensures var c := s'.calls[k]; if c.pending then !Get(s', c.target).alive else OnItsWay(s', c.target, c.other)
    {
      var c := s.calls[k];
      if !c.pending {
        assert OnItsWay(s, c.target, c.other);
        assert Get(s', c.other).exits == Get(s, c.other).exits;
      }
    }
  }

  lemma NotifyInv(s: State, a: Id)
    requires Inv(s) && Get(s, a).toNotify != []
    ensures Inv(NotifyStep(s, a))
  {
    var x := Get(s, a);
    var b, s1, s' := x.toNotify[0], Put(s, a, x.(toNotify := x.toNotify[1..])), NotifyStep(s, a);
    Changed(s, s1, a, x.(toNotify := x.toNotify[1..]));
    NotifyOthers(s1, b, a, x.reason);
    forall k | k in s'.calls
      ensures var c := s'.calls[k]; if c.pending then !Get(s', c.target).alive else OnItsWay(s', c.target, c.other)
    {
      var c := s.calls[k];
      if !c.pending {
        assert OnItsWay(s, c.target, c.other);
        if c.target == a && c.other == b {
          NotifyArrives(s1, b, a);
        } else {
          assert Get(s1, c.other).exits == Get(s, c.other).exits;
          assert OnItsWay(s1, c.target, c.other);
          NotifyKeeps(s1, b, a, c.target, c.other);
        }
      }
    }
  }

  lemma StepInv(s: State, step: Step)
    requires Inv(s) && Enabled(s, step)
    ensures Inv(Next(s, step))
  {
    match step
    case LinkFirst(call, target, other) => LinkFirstInv(s, call, target, other);
    case LinkLast(call) => LinkLastInv(s, call);
    case Die(a, reason) => DieInv(s, a, reason);
    case Notify(a) => NotifyInv(s, a);
  }

  lemma {:induction false} RunInv(s: State, steps: seq<Step>, s': State)
    requires Inv(s) && Runs(s, steps, s')
    ensures Inv(s')
    decreases |steps|
  {
    if steps != [] {
      StepInv(s, steps[0]);
      RunInv(Next(s, steps[0]), steps[1..], s');
    }
  }

  /** In every interleaving: once the target's watchdog and the linking call have finished, whether
      the call came before, during or after the target's death with a reason, the linked actor has
      had that exit, with the target's reason, queued as an interrupt, or is dead. */
  lemma ExitsReachLinked(steps: seq<Step>, s: State, call: nat)
    requires Runs(State(map[], map[]), steps, s) && call in s.calls && !s.calls[call].pending
    requires !Get(s, s.calls[call].target).alive && Get(s, s.calls[call].target).reason.Some?
    requires Get(s, s.calls[call].target).toNotify == []
    ensures Had(s, s.calls[call].other, s.calls[call].target) || !Get(s, s.calls[call].other).alive
  {
    RunInv(State(map[], map[]), steps, s);
    assert OnItsWay(s, s.calls[call].target, s.calls[call].other);
  }
}
