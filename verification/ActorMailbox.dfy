/**
 One actor's mailbox as a state machine: each critical section under the actor's lock is one
 atomic step. Receives have no timeout and the actor does not trap exits. A filter is a partial
 function from messages to actions.
 */
module ActorMailbox {
  import opened Common

  type Message = int
  type Action = int
  type Exit = int

  type Filter = Message -> Option<Action>

  datatype Delivery = Delivery(message: Message, action: Action)

  /** The fields under the lock. */
  datatype Actor = Actor(
    filter: Option<Filter>,
    ready: nat,
    action: Option<Action>,
    message: Message,
    mailbox: seq<Message>,
    interrupts: seq<Exit>,
    alive: bool)

  /** Where the actor's thread is: outside receive, or waiting for a token with a filter. */
  datatype Thread = Running | Waiting(filter: Filter)

  /** With the history: the messages accepted while alive, those handed to actions, the exits raised. */
  datatype State = State(
    actor: Actor,
    thread: Thread,
    accepted: multiset<Message>,
    delivered: seq<Delivery>,
    queued: multiset<Exit>,
    raised: seq<Exit>)

  function Initial(): State {
    State(Actor(None, 0, None, 0, [], [], true), Running, multiset{}, [], multiset{}, [])
  }

  datatype Step =
    | Send(message: Message)
    | NotifyExited(exit: Option<Exit>)   // without a reason nothing is queued
    | CheckForInterrupt
    | Receive(filter: Filter)
    | Wake                               // the token is taken and the lock again
    | Die                                // the watchdog's critical section

  predicate Enabled(s: State, step: Step) {
    match step
    case Send(_) => true
    case NotifyExited(_) => true
    case CheckForInterrupt => s.thread.Running? && s.actor.alive
    case Receive(_) => s.thread.Running? && s.actor.alive
    case Wake => s.thread.Waiting? && s.actor.ready > 0
    case Die => s.thread.Running? && s.actor.alive
  }

  /** send */
  function SendTo(a: Actor, m: Message): Actor {
    if !a.alive then a
    else if a.filter.Some? then
      var action := a.filter.value(m);
      if action.Some? then a.(action := action, filter := None, message := m, ready := a.ready + 1)
      else a.(action := None, mailbox := a.mailbox + [m])
    else a.(mailbox := a.mailbox + [m])
  }

  /** notify_exited, apart from the links */
  function ExitOf(a: Actor, exit: Option<Exit>): Actor {
    if !a.alive || exit.None? then a
    else
      var a' := a.(interrupts := a.interrupts + [exit.value]);
      if a.filter.Some? then a'.(filter := None, ready := a.ready + 1) else a'
  }

  /** The first message in the mailbox that the filter has an action for. */
  function FirstMatch(mailbox: seq<Message>, filter: Filter): (i: nat)
    ensures i <= |mailbox|
    ensures forall k :: 0 <= k < i ==> filter(mailbox[k]).None?
    ensures i < |mailbox| ==> filter(mailbox[i]).Some?
  {
    if mailbox == [] then 0
    else if filter(mailbox[0]).Some? then 0
    else 1 + FirstMatch(mailbox[1..], filter)
  }

  function RaiseFirst(s: State): State
    requires s.actor.interrupts != []
  {
    s.(actor := s.actor.(interrupts := s.actor.interrupts[1..]), raised := s.raised + [s.actor.interrupts[0]])
  }

  /** _receive up to the wait, or to its end if a message is there. */
  function ReceiveStep(s: State, filter: Filter): State {
    var a := s.actor;
    if a.interrupts != [] then RaiseFirst(s)
    else
      var i := FirstMatch(a.mailbox, filter);
      if i < |a.mailbox| then
        s.(actor := a.(mailbox := a.mailbox[..i] + a.mailbox[i + 1..]),
           delivered := s.delivered + [Delivery(a.mailbox[i], filter(a.mailbox[i]).value)])
      else s.(actor := a.(filter := Some(filter)), thread := Waiting(filter))
  }

  /** _receive behind the wait: the message handed over is delivered, or put into the mailbox if
      an exit has come in. */
  function WakeStep(s: State): State
    requires s.actor.ready > 0
  {
    var a := s.actor.(ready := s.actor.ready - 1);
    if a.interrupts == [] then
      s.(actor := a.(action := None), thread := Running,
         delivered := if a.action.Some? then s.delivered + [Delivery(a.message, a.action.value)] else s.delivered)
    else
      RaiseFirst(s.(actor := a.(action := None,
                                mailbox := if a.action.Some? then a.mailbox + [a.message] else a.mailbox),
                    thread := Running))
  }

  function Next(s: State, step: Step): State
    requires Enabled(s, step)
  {
    match step
    case Send(m) =>
      s.(actor := SendTo(s.actor, m), accepted := if s.actor.alive then s.accepted + multiset{m} else s.accepted)
    case NotifyExited(exit) =>
      s.(actor := ExitOf(s.actor, exit),
         queued := if s.actor.alive && exit.Some? then s.queued + multiset{exit.value} else s.queued)
    case CheckForInterrupt => if s.actor.interrupts != [] then RaiseFirst(s) else s
    case Receive(filter) => ReceiveStep(s, filter)
    case Wake => WakeStep(s)
    case Die => s.(actor := s.actor.(alive := false, mailbox := [], interrupts := []))
  }

  ghost predicate Runs(s: State, steps: seq<Step>, s': State)
    decreases |steps|
  {
    if steps == [] then s' == s else Enabled(s, steps[0]) && Runs(Next(s, steps[0]), steps[1..], s')
  }

  // ---- the invariant

  /** The message being handed over. */
  function Slot(a: Actor): seq<Message> {
    if a.action.Some? then [a.message] else []
  }

  function Messages(ds: seq<Delivery>): seq<Message> {
    seq(|ds|, i requires 0 <= i < |ds| => ds[i].message)
  }

  /** One token at most, exactly for a waiting thread whose filter has been taken away; the slot is
      only filled then, with a message that filter matches. */
  ghost predicate Handshake(s: State) {
    var a := s.actor;
    match s.thread
    case Running => a.filter == None && a.ready == 0 && a.action == None
    case Waiting(filter) =>
      && a.alive
      && (a.filter.Some? ==> a.filter.value == filter && a.ready == 0 && a.action == None && a.interrupts == [])
      && (a.filter.None? ==> a.ready == 1 && (a.action.None? ==> a.interrupts != []))
      && (a.action.Some? ==> filter(a.message) == a.action)
  }

  /** Each accepted message of a live actor is in exactly one place. */
  ghost predicate Conserved(s: State) {
    s.actor.alive ==>
      s.accepted == multiset(s.actor.mailbox) + multiset(Slot(s.actor)) + multiset(Messages(s.delivered))
  }

  /** Each exit notified to a live actor is pending or has been raised. */
  ghost predicate ExitsConserved(s: State) {
    s.actor.alive ==> s.queued == multiset(s.actor.interrupts) + multiset(s.raised)
  }

  /** A waiting actor has no message its filter matches. */
  ghost predicate NothingMissed(s: State) {
    s.actor.filter.Some? ==> forall i :: 0 <= i < |s.actor.mailbox| ==> s.actor.filter.value(s.actor.mailbox[i]).None?
  }

  ghost predicate Inv(s: State) {
    Handshake(s) && Conserved(s) && ExitsConserved(s) && NothingMissed(s)
  }

  lemma MessagesPush(ds: seq<Delivery>, d: Delivery)
    ensures Messages(ds + [d]) == Messages(ds) + [d.message]
  {
  }

  lemma Taken(mailbox: seq<Message>, i: nat)
    requires i < |mailbox|
    ensures multiset(mailbox) == multiset(mailbox[..i] + mailbox[i + 1..]) + multiset{mailbox[i]}
  {
    assert mailbox == mailbox[..i] + [mailbox[i]] + mailbox[i + 1..];
  }

  lemma Pushed(q: seq<int>, x: int)
    ensures multiset(q + [x]) == multiset(q) + multiset{x}
  {
  }

  lemma SendConserves(s: State, m: Message)
    requires Handshake(s) && Conserved(s) && s.actor.alive
    ensures var a := SendTo(s.actor, m);
            s.accepted + multiset{m} == multiset(a.mailbox) + multiset(Slot(a)) + multiset(Messages(s.delivered))
  {
    Pushed(s.actor.mailbox, m);
    assert multiset([m]) == multiset{m};
  }

  lemma SendInv(s: State, m: Message)
    requires Inv(s)
    ensures Inv(Next(s, Send(m)))
  {
    var s' := Next(s, Send(m));
    if s.actor.alive {
      assert Conserved(s') by { SendConserves(s, m); }
      assert Handshake(s') && NothingMissed(s');
    }
  }

  lemma ExitInv(s: State, exit: Option<Exit>)
    requires Inv(s)
    ensures Inv(Next(s, NotifyExited(exit)))
  {
    if s.actor.alive && exit.Some? {
      var s' := Next(s, NotifyExited(exit));
      assert ExitsConserved(s') by { Pushed(s.actor.interrupts, exit.value); }
      assert Conserved(s') && Handshake(s') && NothingMissed(s');
    }
  }

  lemma RaiseConserves(s: State)
    requires s.actor.interrupts != []
    ensures multiset(RaiseFirst(s).actor.interrupts) + multiset(RaiseFirst(s).raised) ==
      multiset(s.actor.interrupts) + multiset(s.raised)
  {
    assert s.actor.interrupts == [s.actor.interrupts[0]] + s.actor.interrupts[1..];
  }

  lemma ReceiveRaises(s: State, filter: Filter)
    requires Inv(s) && Enabled(s, Receive(filter)) && s.actor.interrupts != []
    ensures Inv(ReceiveStep(s, filter))
  {
    RaiseConserves(s);
  }

  lemma ReceiveTakes(s: State, filter: Filter, i: nat)
    requires Inv(s) && Enabled(s, Receive(filter)) && s.actor.interrupts == []
    requires i == FirstMatch(s.actor.mailbox, filter) && i < |s.actor.mailbox|
    ensures Inv(ReceiveStep(s, filter))
  {
    Taken(s.actor.mailbox, i);
    MessagesPush(s.delivered, Delivery(s.actor.mailbox[i], filter(s.actor.mailbox[i]).value));
  }

  lemma ReceiveWaits(s: State, filter: Filter)
    requires Inv(s) && Enabled(s, Receive(filter)) && s.actor.interrupts == []
    requires FirstMatch(s.actor.mailbox, filter) == |s.actor.mailbox|
    ensures Inv(ReceiveStep(s, filter))
  {
  }

  lemma ReceiveInv(s: State, filter: Filter)
    requires Inv(s) && Enabled(s, Receive(filter))
    ensures Inv(ReceiveStep(s, filter))
  {
    if s.actor.interrupts != [] {
      ReceiveRaises(s, filter);
    } else if FirstMatch(s.actor.mailbox, filter) < |s.actor.mailbox| {
      ReceiveTakes(s, filter, FirstMatch(s.actor.mailbox, filter));
    } else {
      ReceiveWaits(s, filter);
    }
  }

  lemma WakeInv(s: State)
    requires Inv(s) && Enabled(s, Wake)
    ensures Inv(WakeStep(s))
  {
    var a := s.actor;
    if a.interrupts == [] {
      MessagesPush(s.delivered, Delivery(a.message, a.action.value));
    } else {
      RaiseConserves(s);
    }
  }

  lemma StepInv(s: State, step: Step)
    requires Inv(s) && Enabled(s, step)
    ensures Inv(Next(s, step))
  {
    match step
    case Send(m) => SendInv(s, m);
    case NotifyExited(exit) => ExitInv(s, exit);
    case CheckForInterrupt => if s.actor.interrupts != [] { RaiseConserves(s); }
    case Receive(filter) => ReceiveInv(s, filter);
    case Wake => WakeInv(s);
    case Die =>
  }

  lemma {:induction false} RunInv(s: State, steps: seq<Step>, s': State)
    requires Inv(s) && Runs(s, steps, s')
    ensures Inv(s')
    decreases |steps|
  {
    if steps != [] {
      StepInv(s, steps[0]);
      RunInv(Next(s, steps[0]), steps[1..], s');
    }
  }

  /** In every interleaving: no message accepted by a live actor is lost or doubled, the channel
      never holds more than one token, and a waiting actor misses no message. */
  lemma EveryRunConserves(steps: seq<Step>, s: State)
    requires Runs(Initial(), steps, s)
    ensures s.actor.alive ==>
              s.accepted == multiset(s.actor.mailbox) + multiset(Slot(s.actor)) + multiset(Messages(s.delivered))
    ensures s.actor.alive ==> s.queued == multiset(s.actor.interrupts) + multiset(s.raised)
    ensures s.actor.ready <= 1
    ensures s.actor.filter.Some? ==> forall m :: m in s.actor.mailbox ==> s.actor.filter.value(m).None?
    ensures s.thread.Waiting? ==> (s.actor.ready == 0 <==> s.actor.filter.Some?)
  {
    assert Messages([]) == [];
    RunInv(Initial(), steps, s);
  }

  /** A waiting thread that is woken without an exit finds an action, and it is the one its own filter
      gives for the message handed over: there is always something to call. */
  lemma WakeHasAction(steps: seq<Step>, s: State)
    requires Runs(Initial(), steps, s) && Enabled(s, Wake) && s.actor.interrupts == []
    ensures s.actor.action.Some? && s.thread.filter(s.actor.message) == s.actor.action
  {
    assert Messages([]) == [];
    RunInv(Initial(), steps, s);
  }
}
