/**
 Actor: the methods, each critical section under the lock being one method, proved against the
 steps of the mailbox and of the link protocol.
 */
module ActorObject {
  import opened Common
  import M = ActorMailbox
  import L = ActorLinks

  datatype Received =
    | Raised(exit: M.Exit)                            // an exit is raised instead
    | Perform(message: M.Message, action: M.Action)   // the action is called on the message
    | Wait                                            // the thread blocks on the ready channel
    | NoAction                                        // nil is called

  class Actor {
    var filter: Option<M.Filter>
    var ready: nat
    var action: Option<M.Action>
    var message: M.Message
    var mailbox: seq<M.Message>
    var interrupts: seq<M.Exit>
    var links: seq<L.Id>
    var alive: bool
    var exitReason: Option<L.Reason>

    ghost function Box(): M.Actor
      reads this
    {
      M.Actor(filter, ready, action, message, mailbox, interrupts, alive)
    }

    constructor ()
      ensures Box() == M.Initial().actor && links == [] && exitReason == None
    {
      filter, action, exitReason := None, None, None;
      ready, message := 0, 0;
      mailbox, interrupts, links := [], [], [];
      alive := true;
    }

    /** send */
    method Send(m: M.Message)
      modifies this`filter, this`ready, this`action, this`message, this`mailbox
      ensures Box() == M.SendTo(old(Box()), m)
    {
      if !alive { return; }
      if filter.Some? {
        action := filter.value(m);
        if action.Some? {
          filter := None;
          message := m;
          ready := ready + 1;
        } else {
          mailbox := mailbox + [m];
        }
      } else {
        mailbox := mailbox + [m];
      }
    }

    /** Takes out the oldest interrupt, if there is one, to be raised. */
    method ShiftInterrupt() returns (exit: Option<M.Exit>)
      modifies this`interrupts
      ensures if old(interrupts) == [] then exit == None && interrupts == []
              else exit == Some(old(interrupts)[0]) && interrupts == old(interrupts)[1..]
    {
      if interrupts == [] { return None; }
      exit := Some(interrupts[0]);
      interrupts := interrupts[1..];
    }

    /** The state of the machine with this mailbox and an empty history. */
    ghost function Alone(thread: M.Thread): M.State
      reads this
    {
      M.State(Box(), thread, multiset{}, [], multiset{}, [])
    }

    /** _receive up to the wait. */
    method ReceiveFirst(f: M.Filter) returns (r: Received)
      modifies this`filter, this`mailbox, this`interrupts
      ensures var s := M.ReceiveStep(old(Alone(M.Running)), f);
              Box() == s.actor
              && match r
                 case Raised(exit) => s.raised == [exit] && s.delivered == [] && s.thread.Running?
                 case Perform(m, a) => s.raised == [] && s.delivered == [M.Delivery(m, a)] && s.thread.Running?
                 case Wait => s.raised == [] && s.delivered == [] && s.thread.Waiting?
                 case NoAction => false
    {
      var exit := ShiftInterrupt();
      if exit.Some? { return Raised(exit.value); }
      var found: Option<M.Action> := None;
      var i := 0;
      while i < |mailbox| && found.None?
        invariant i <= |mailbox| && mailbox == old(mailbox)
        invariant found.None? ==> M.FirstMatch(mailbox, f) == i + M.FirstMatch(mailbox[i..], f)
        invariant found.Some? ==> i < |mailbox| && M.FirstMatch(mailbox, f) == i && f(mailbox[i]) == found
        decreases |mailbox| - i, found.None?
      {
        assert mailbox[i..][0] == mailbox[i] && mailbox[i..][1..] == mailbox[i + 1..];
        found := f(mailbox[i]);
        if found.None? { i := i + 1; }
      }
      if found.Some? {
        r := Perform(mailbox[i], found.value);
        mailbox := mailbox[..i] + mailbox[i + 1..];
      } else {
        filter := Some(f);
        r := Wait;
      }
    }

    /** _receive behind the wait: a token has come. */
    method ReceiveLast(ghost f: M.Filter) returns (r: Received)
      requires ready > 0
      modifies this
      ensures var s := M.WakeStep(old(Alone(M.Waiting(f))));
              Box() == s.actor && links == old(links) && exitReason == old(exitReason)
              && match r
                 case Raised(exit) => s.raised == [exit] && s.delivered == []
                 case Perform(m, a) => s.raised == [] && s.delivered == [M.Delivery(m, a)]
                 case NoAction => s.raised == [] && s.delivered == []
                 case Wait => false
    {
      ready := ready - 1;
      var a, m := None, message;
      if interrupts == [] {
        a := action;
      } else if action.Some? {
        mailbox := mailbox + [message];
      }
      action := None;
      var exit := ShiftInterrupt();
      if exit.Some? { return Raised(exit.value); }
      return if a.Some? then Perform(m, a.value) else NoAction;
    }

    /** The critical section of notify_link: what it saw of this actor. */
    method NotifyLink(other: L.Id) returns (wasAlive: bool, reason: Option<L.Reason>)
      modifies this`links
      ensures wasAlive == alive && reason == exitReason
      ensures links == if alive && other !in old(links) then old(links) + [other] else old(links)
    {
      wasAlive, reason := alive, exitReason;
      if alive && other !in links { links := links + [other]; }
    }

    /** Array#delete */
    method DeleteLink(a: L.Id)
      modifies this`links
      ensures links == L.Delete(old(links), a)
    {
      var rest: seq<L.Id> := [];
      for i := 0 to |links|
        invariant links == old(links) && rest + L.Delete(links[i..], a) == L.Delete(links, a)
      {
        assert links[i..][0] == links[i] && links[i..][1..] == links[i + 1..];
        assert rest + ([links[i]] + L.Delete(links[i + 1..], a)) == rest + [links[i]] + L.Delete(links[i + 1..], a);
        if links[i] != a { rest := rest + [links[i]]; }
      }
      assert rest + [] == rest;
      links := rest;
    }

    /** notify_exited, of an actor that does not trap exits; exit stands for the error it queues. */
    method NotifyExited(a: L.Id, exit: Option<M.Exit>)
      modifies this`links, this`interrupts, this`filter, this`ready
      ensures Box() == M.ExitOf(old(Box()), exit)
      ensures links == if alive then L.Delete(old(links), a) else old(links)
    {
      if !alive { return; }
      DeleteLink(a);
      if exit.Some? {
        interrupts := interrupts + [exit.value];
        if filter.Some? {
          filter := None;
          ready := ready + 1;
        }
      }
    }

    /** The critical section of the watchdog: the links it goes on to notify. */
    method Watchdog(reason: Option<L.Reason>) returns (toNotify: seq<L.Id>)
      modifies this
      ensures Box() == old(Box()).(alive := false, mailbox := [], interrupts := [])
      ensures toNotify == old(links) && links == [] && exitReason == reason
    {
      alive := false;
      mailbox, interrupts := [], [];
      exitReason := reason;
      toNotify := links;
      links := [];
    }
  }
}
