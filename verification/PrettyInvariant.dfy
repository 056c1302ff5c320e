/**
 The invariant that ties buffer, group stack, group queue and output of the pretty
 printer together, and its preservation by every call.
 */
module PrettyInvariant {
  import opened Common
  import opened PrettyCalls
  import opened PrettyState

  /** The buffered hints of group g, in order. */
  function Of(buffer: seq<Item>, g: nat): seq<Item> {
    if buffer == [] then []
    else (if Hinted(buffer[0], g) then [buffer[0]] else []) + Of(buffer[1..], g)
  }

  lemma {:induction false} OfAppend(buffer: seq<Item>, tail: seq<Item>, g: nat)
    ensures Of(buffer + tail, g) == Of(buffer, g) + Of(tail, g)
  {
    if buffer == [] {
      assert buffer + tail == tail;
    } else {
      assert (buffer + tail)[1..] == buffer[1..] + tail;
      OfAppend(buffer[1..], tail, g);
      var first := if Hinted(buffer[0], g) then [buffer[0]] else [];
      assert first + (Of(buffer[1..], g) + Of(tail, g)) == (first + Of(buffer[1..], g)) + Of(tail, g);
    }
  }

  /** How many items have to be printed until no hint of g is left in the buffer. */
  function Reach(buffer: seq<Item>, g: nat): (r: nat)
    ensures r <= |buffer|
    ensures r > 0 <==> Of(buffer, g) != []
    ensures r > 0 ==> Hinted(buffer[r - 1], g)
    ensures forall i :: r <= i < |buffer| ==> !Hinted(buffer[i], g)
  {
    if buffer == [] then 0
    else
      var r := Reach(buffer[1..], g);
      assert forall i :: 1 <= i < |buffer| ==> buffer[i] == buffer[1..][i - 1];
      if r > 0 then r + 1 else if Hinted(buffer[0], g) then 1 else 0
  }

  ghost predicate Paths(s: State) {
    && |s.paths| == |s.groups|
    && (forall g :: 0 <= g < |s.paths| ==>
          |s.paths[g]| == s.groups[g].depth + 1 && s.paths[g][s.groups[g].depth] == g)
    && (forall g, k :: 0 <= g < |s.paths| && 0 <= k < |s.paths[g]| ==>
          s.paths[g][k] < |s.groups| && s.groups[s.paths[g][k]].depth == k)
    && (forall k :: 0 <= k < |s.stack| ==> s.stack[k] < |s.paths| && s.paths[s.stack[k]] == s.stack[..k + 1])
  }

  /** Item i is a hint of group a or of a group inside a. */
  ghost predicate Within(paths: seq<seq<nat>>, buffer: seq<Item>, i: nat, a: nat)
    requires i < |buffer|
  {
    buffer[i].Breakable? && buffer[i].group < |paths| && a in paths[buffer[i].group]
  }

  /** The hints inside one group are contiguous. */
  ghost predicate Contiguous(paths: seq<seq<nat>>, buffer: seq<Item>) {
    forall i, j, k, a | 0 <= i < j < k < |buffer| && Within(paths, buffer, i, a) && Within(paths, buffer, k, a) ::
      buffer[j].Breakable? ==> Within(paths, buffer, j, a)
  }

  /** The hints inside an open group reach the end of the buffer. */
  ghost predicate OpenToEnd(paths: seq<seq<nat>>, buffer: seq<Item>, stack: seq<nat>) {
    forall i, j, a | 0 <= i < j < |buffer| && a in stack && Within(paths, buffer, i, a) ::
      buffer[j].Breakable? ==> Within(paths, buffer, j, a)
  }

  ghost predicate Nested(s: State) {
    Contiguous(s.paths, s.buffer) && OpenToEnd(s.paths, s.buffer, s.stack)
  }

  ghost predicate Registered(s: State) {
    forall g :: 0 <= g < |s.groups| ==> s.groups[g].breakables == Of(s.buffer, g)
  }

  /** A group with pending hints, other than t, is unbroken and queued; so is every open unbroken group queued. */
  ghost predicate Ready(s: State, t: int)
    requires Wf(s)
  {
    && (forall g :: 0 <= g < |s.groups| && s.groups[g].breakables != [] && g != t ==>
          !s.groups[g].broke && IsQueued(s.groups, s.queue, g))
    && (forall k :: 0 <= k < |s.stack| ==>
          s.groups[s.stack[k]].broke || IsQueued(s.groups, s.queue, s.stack[k]))
  }

  /** Of the open groups, the broken ones are the outer ones. */
  ghost predicate BrokenOutside(s: State)
    requires Wf(s)
  {
    forall j, k :: 0 <= j < k < |s.stack| && s.groups[s.stack[k]].broke ==> s.groups[s.stack[j]].broke
  }

  predicate Newlined(p: Piece) { p.Hint? && p.broken }

  predicate Separated(p: Piece) { p.Hint? && !p.broken }

  ghost predicate LogInRange(log: seq<Piece>, n: nat) {
    forall i :: 0 <= i < |log| && log[i].Hint? ==> log[i].group < n
  }

  /** No group around a hint printed as newline has a hint printed as separator. */
  ghost predicate Consistent(log: seq<Piece>, paths: seq<seq<nat>>)
    requires LogInRange(log, |paths|)
  {
    forall i, j :: 0 <= i < |log| && 0 <= j < |log| && Newlined(log[i]) && Separated(log[j]) ==>
      log[j].group !in paths[log[i].group]
  }

  /** Group g has printed a separator and is finished, up to hints inside it among the first lim. */
  ghost predicate Finished(s: State, g: nat, lim: nat)
    requires Wf(s) && g < |s.groups|
  {
    && g !in s.stack && !s.groups[g].broke
    && (s.groups[g].breakables == [] ==> !IsQueued(s.groups, s.queue, g))
    && (forall i :: 0 <= i < |s.buffer| && Within(s.paths, s.buffer, i, g) ==> i < lim)
  }

  /** A group with a printed separator is closed and unbroken, has left the queue once nothing of it is
      pending, and hints inside it are among the first lim. */
  ghost predicate Sealed(s: State, lim: nat)
    requires Wf(s) && LogInRange(s.log, |s.groups|)
  {
    forall j :: 0 <= j < |s.log| && Separated(s.log[j]) ==> Finished(s, s.log[j].group, lim)
  }

  /** A group around a printed newline that is open or has pending hints is broken. */
  ghost predicate Settled(s: State)
    requires Wf(s) && Paths(s) && LogInRange(s.log, |s.groups|)
  {
    forall i :: 0 <= i < |s.log| && Newlined(s.log[i]) ==> BrokenAround(s, s.log[i].group)
  }

  ghost predicate BrokenAround(s: State, g: nat)
    requires Wf(s) && Paths(s) && g < |s.groups|
  {
    forall k :: 0 <= k < |s.paths[g]| ==>
      var a := s.paths[g][k];
      a in s.stack || s.groups[a].breakables != [] ==> s.groups[a].broke
  }

  /** Group t is broken, everything around it that still prints is broken, nothing around it was separated. */
  ghost predicate Focus(s: State, t: nat)
    requires Wf(s) && Paths(s) && LogInRange(s.log, |s.groups|)
  {
    && t < |s.groups| && s.groups[t].broke
    && BrokenAround(s, t)
    && (forall j :: 0 <= j < |s.log| && Separated(s.log[j]) ==> s.log[j].group !in s.paths[t])
  }

  /** The unbroken groups of the first lim items are closed and have no hint inside them later. */
  ghost predicate Flushable(s: State, lim: nat)
    requires Wf(s)
  {
    forall i :: 0 <= i < lim <= |s.buffer| && s.buffer[i].Breakable? && !s.groups[s.buffer[i].group].broke ==>
      && s.buffer[i].group !in s.stack
      && (forall k :: 0 <= k < |s.buffer| && Within(s.paths, s.buffer, k, s.buffer[i].group) ==> k < lim)
  }

  ghost predicate Core(s: State) {
    Wf(s) && Paths(s) && Nested(s) && Registered(s) && LogInRange(s.log, |s.groups|)
  }

  /** Between two calls. */
  ghost predicate Inv(s: State) {
    && Core(s) && Ready(s, -1) && BrokenOutside(s)
    && Consistent(s.log, s.paths) && Sealed(s, 0) && Settled(s)
  }

  /** While the first lim items are being printed because of broken group t. */
  ghost predicate Mid(s: State, lim: nat, t: nat) {
    && Core(s) && lim <= |s.buffer| && Ready(s, t) && BrokenOutside(s)
    && Consistent(s.log, s.paths) && Sealed(s, lim) && Settled(s)
    && Focus(s, t) && Flushable(s, lim)
  }

  // ---- printing one item

  lemma WithinRest(paths: seq<seq<nat>>, buffer: seq<Item>)
    requires buffer != []
    ensures forall i, a :: 0 <= i < |buffer| - 1 ==>
      (Within(paths, buffer[1..], i, a) <==> Within(paths, buffer, i + 1, a))
  {
  }

  lemma NestedRest(paths: seq<seq<nat>>, buffer: seq<Item>, stack: seq<nat>)
    requires buffer != [] && Contiguous(paths, buffer) && OpenToEnd(paths, buffer, stack)
    ensures Contiguous(paths, buffer[1..]) && OpenToEnd(paths, buffer[1..], stack)
  {
    var rest := buffer[1..];
    WithinRest(paths, buffer);
    forall i, j, k, a | 0 <= i < j < k < |rest| && Within(paths, rest, i, a) && Within(paths, rest, k, a)
      ensures rest[j].Breakable? ==> Within(paths, rest, j, a)
    {
      assert Within(paths, buffer, i + 1, a) && Within(paths, buffer, k + 1, a);
      assert buffer[j + 1].Breakable? ==> Within(paths, buffer, j + 1, a);
    }
    forall i, j, a | 0 <= i < j < |rest| && a in stack && Within(paths, rest, i, a)
      ensures rest[j].Breakable? ==> Within(paths, rest, j, a)
    {
      assert Within(paths, buffer, i + 1, a);
      assert buffer[j + 1].Breakable? ==> Within(paths, buffer, j + 1, a);
    }
  }

  /** Printing an item changes no depth and breaks no group. */
  ghost predicate SameGroups(s: State, r: State) {
    && |r.groups| == |s.groups|
    && (forall g :: 0 <= g < |s.groups| ==>
          r.groups[g].depth == s.groups[g].depth && r.groups[g].broke == s.groups[g].broke
          && (r.groups[g].breakables != [] ==> s.groups[g].breakables != []))
  }

  lemma OutputWf(s: State)
    requires Wf(s) && s.buffer != []
    ensures Wf(Output(s))
  {
  }

  lemma OutputRegistered(s: State)
    requires Wf(s) && Registered(s) && s.buffer != []
    ensures Registered(Output(s)) && SameGroups(s, Output(s))
  {
    var r := Output(s);
    forall g | 0 <= g < |r.groups|
      ensures r.groups[g].breakables == Of(r.buffer, g)
    {
      assert s.groups[g].breakables == Of(s.buffer, g);
    }
  }

  lemma OutputCore(s: State)
    requires Core(s) && s.buffer != []
    ensures Core(Output(s)) && SameGroups(s, Output(s))
  {
    OutputWf(s);
    OutputRegistered(s);
    NestedRest(s.paths, s.buffer, s.stack);
  }

  /** Printing an item dequeues at most the item's own group, and only an unbroken one. */
  lemma OutputQueue(s: State)
    requires Wf(s) && s.buffer != []
    ensures Wf(Output(s)) && |Output(s).groups| == |s.groups|
    ensures forall g :: 0 <= g < |s.groups| ==>
      (IsQueued(Output(s).groups, Output(s).queue, g) <==>
       IsQueued(s.groups, s.queue, g)
       && !(Hinted(s.buffer[0], g) && !s.groups[g].broke && Output(s).groups[g].breakables == []))
  {
    OutputWf(s);
  }

  lemma OutputReady(s: State, lim: nat, t: nat)
    requires Core(s) && Ready(s, t) && Flushable(s, lim) && s.buffer != [] && lim <= |s.buffer|
    requires lim > 0 || s.buffer[0].Text?
    ensures Wf(Output(s)) && Ready(Output(s), t)
  {
    OutputCore(s);
    OutputQueue(s);
    var r := Output(s);
    forall g | 0 <= g < |s.groups| && r.groups[g].breakables != [] && g != t
      ensures !r.groups[g].broke && IsQueued(r.groups, r.queue, g)
    {
      assert IsQueued(s.groups, s.queue, g);
    }
    forall k | 0 <= k < |s.stack|
      ensures r.groups[s.stack[k]].broke || IsQueued(r.groups, r.queue, s.stack[k])
    {
      var g := s.stack[k];
      assert s.groups[g].broke || IsQueued(s.groups, s.queue, g);
      assert !s.groups[g].broke ==> !Hinted(s.buffer[0], g);
    }
  }

  lemma OutputFlushable(s: State, lim: nat)
    requires Core(s) && Flushable(s, lim) && s.buffer != []
    requires lim > 0 || s.buffer[0].Text?
    ensures Core(Output(s)) && Flushable(Output(s), if lim > 0 then lim - 1 else 0)
  {
    OutputCore(s);
    var r := Output(s);
    WithinRest(s.paths, s.buffer);
    forall i, k | 0 <= i < lim - 1 < |s.buffer| && r.buffer[i].Breakable? && !r.groups[r.buffer[i].group].broke
      && 0 <= k < |r.buffer| && Within(r.paths, r.buffer, k, r.buffer[i].group)
      ensures k < lim - 1
    {
      assert Within(s.paths, s.buffer, k + 1, s.buffer[i + 1].group);
    }
  }

  lemma BrokenAroundKept(s: State, r: State, g: nat)
    requires Wf(s) && Paths(s) && Wf(r) && Paths(r) && SameGroups(s, r)
    requires r.paths == s.paths && r.stack == s.stack && g < |s.groups| && BrokenAround(s, g)
    ensures BrokenAround(r, g)
  {
  }

  /** What r keeps of s when one item was printed. */
  ghost predicate Kept(s: State, r: State) {
    Core(s) && Core(r) && SameGroups(s, r) && r.paths == s.paths && r.stack == s.stack
  }

  lemma LogNewline(s: State, r: State, t: nat, piece: Piece)
    requires Kept(s, r) && r.log == s.log + [piece] && Newlined(piece) && piece.group == t
    requires Consistent(s.log, s.paths) && Settled(s) && Focus(s, t)
    ensures Consistent(r.log, r.paths) && Settled(r) && Focus(r, t)
  {
    BrokenAroundKept(s, r, t);
    NewlineConsistent(s.log, piece, s.paths);
    forall i | 0 <= i < |r.log| && Newlined(r.log[i])
      ensures BrokenAround(r, r.log[i].group)
    {
      if i < |s.log| { BrokenAroundKept(s, r, s.log[i].group); }
    }
  }

  /** A newline of a group around which nothing was separated does no harm. */
  lemma NewlineConsistent(log: seq<Piece>, piece: Piece, paths: seq<seq<nat>>)
    requires LogInRange(log, |paths|) && LogInRange(log + [piece], |paths|) && Consistent(log, paths)
    requires Newlined(piece) && piece.group < |paths|
    requires forall j :: 0 <= j < |log| && Separated(log[j]) ==> log[j].group !in paths[piece.group]
    ensures Consistent(log + [piece], paths)
  {
    var longer := log + [piece];
    forall i, j | 0 <= i < |longer| && 0 <= j < |longer| && Newlined(longer[i]) && Separated(longer[j])
      ensures longer[j].group !in paths[longer[i].group]
    {
      assert j < |log| && longer[j] == log[j];
    }
  }

  /** An unbroken group that is open or pending is not around a printed newline. */
  lemma UnbrokenIsNotAround(s: State, g: nat, t: nat)
    requires Wf(s) && Paths(s) && t < |s.groups| && BrokenAround(s, t)
    requires g < |s.groups| && !s.groups[g].broke && (g in s.stack || s.groups[g].breakables != [])
    ensures g !in s.paths[t]
  {
  }

  lemma LogSeparator(s: State, r: State, t: nat, piece: Piece)
    requires Kept(s, r) && r.log == s.log + [piece] && Separated(piece)
    requires piece.group < |s.groups| && !s.groups[piece.group].broke && s.groups[piece.group].breakables != []
    requires Consistent(s.log, s.paths) && Settled(s) && Focus(s, t)
    ensures Consistent(r.log, r.paths) && Settled(r) && Focus(r, t)
  {
    var g := piece.group;
    BrokenAroundKept(s, r, t);
    UnbrokenIsNotAround(s, g, t);
    forall i | 0 <= i < |r.log| && Newlined(r.log[i])
      ensures BrokenAround(r, r.log[i].group) && g !in r.paths[r.log[i].group]
    {
      assert r.log[i] == s.log[i];
      BrokenAroundKept(s, r, s.log[i].group);
      UnbrokenIsNotAround(s, g, s.log[i].group);
    }
  }

  lemma LogWords(s: State, r: State, t: nat, piece: Piece)
    requires Kept(s, r) && r.log == s.log + [piece] && piece.Words?
    requires Consistent(s.log, s.paths) && Settled(s) && Focus(s, t)
    ensures Consistent(r.log, r.paths) && Settled(r) && Focus(r, t)
  {
    BrokenAroundKept(s, r, t);
    forall i | 0 <= i < |r.log| && Newlined(r.log[i])
      ensures BrokenAround(r, r.log[i].group)
    {
      BrokenAroundKept(s, r, s.log[i].group);
    }
  }

  lemma OutputLog(s: State, lim: nat, t: nat)
    requires Mid(s, lim, t) && s.buffer != []
    ensures Core(Output(s)) && Consistent(Output(s).log, s.paths) && Settled(Output(s)) && Focus(Output(s), t)
  {
    OutputCore(s);
    var r := Output(s);
    var piece := r.log[|s.log|];
    assert r.log == s.log + [piece];
    if s.buffer[0].Text? {
      LogWords(s, r, t, piece);
    } else {
      var g := s.buffer[0].group;
      assert s.groups[g].breakables == Of(s.buffer, g);
      if s.groups[g].broke {
        LogNewline(s, r, t, piece);
      } else {
        LogSeparator(s, r, t, piece);
      }
    }
  }

  /** Printing one item moves the bound down by one. */
  lemma FinishedKept(s: State, r: State, g: nat, lim: nat)
    requires Kept(s, r) && s.buffer != [] && r.buffer == s.buffer[1..] && (lim > 0 || s.buffer[0].Text?)
    requires g < |s.groups| && g !in s.stack && !s.groups[g].broke
    requires r.groups[g].breakables == [] ==> !IsQueued(r.groups, r.queue, g)
    requires forall i :: 0 <= i < |s.buffer| && Within(s.paths, s.buffer, i, g) ==> i < lim
    ensures Finished(r, g, if lim > 0 then lim - 1 else 0)
  {
    WithinRest(s.paths, s.buffer);
    forall i | 0 <= i < |r.buffer| && Within(r.paths, r.buffer, i, g)
      ensures i < if lim > 0 then lim - 1 else 0
    {
      assert Within(s.paths, s.buffer, i + 1, g);
    }
  }

  lemma SealedKept(s: State, r: State, lim: nat, piece: Piece)
    requires Kept(s, r) && s.buffer != [] && r.buffer == s.buffer[1..] && r.log == s.log + [piece]
    requires Sealed(s, lim) && (lim > 0 || s.buffer[0].Text?)
    requires forall g :: 0 <= g < |s.groups| && IsQueued(r.groups, r.queue, g) ==>
      IsQueued(s.groups, s.queue, g) &&
        !(r.groups[g].breakables == [] && s.groups[g].breakables != [] && !s.groups[g].broke)
    requires Separated(piece) ==>
      var g := piece.group;
      && g < |s.groups| && g !in s.stack && !s.groups[g].broke
      && (r.groups[g].breakables == [] ==> !IsQueued(r.groups, r.queue, g))
      && (forall k :: 0 <= k < |s.buffer| && Within(s.paths, s.buffer, k, g) ==> k < lim)
    ensures Sealed(r, if lim > 0 then lim - 1 else 0)
  {
    forall j | 0 <= j < |r.log| && Separated(r.log[j])
      ensures Finished(r, r.log[j].group, if lim > 0 then lim - 1 else 0)
    {
      assert j < |s.log| ==> r.log[j] == s.log[j];
      FinishedKept(s, r, r.log[j].group, lim);
    }
  }

  /** A group whose last pending hint is printed as a separator leaves the queue. */
  lemma OutputDequeues(s: State)
    requires Core(s) && s.buffer != []
    ensures var r := Output(s);
            && Core(r)
            && (forall g :: 0 <= g < |s.groups| && IsQueued(r.groups, r.queue, g) ==>
                  IsQueued(s.groups, s.queue, g)
                  && !(r.groups[g].breakables == [] && s.groups[g].breakables != [] && !s.groups[g].broke))
  {
    OutputCore(s);
    OutputQueue(s);
    var r := Output(s);
    assert s.buffer[0].Breakable? ==> s.groups[s.buffer[0].group].breakables == Of(s.buffer, s.buffer[0].group);
  }

  lemma OutputSealed(s: State, lim: nat, t: nat)
    requires Mid(s, lim, t) && s.buffer != []
    requires lim > 0 || s.buffer[0].Text?
    ensures Core(Output(s)) && Sealed(Output(s), if lim > 0 then lim - 1 else 0)
  {
    OutputCore(s);
    OutputDequeues(s);
    var r := Output(s);
    assert s.buffer[0].Breakable? && !s.groups[s.buffer[0].group].broke ==> s.buffer[0].group !in s.stack;
    assert s.buffer[0].Breakable? ==> s.groups[s.buffer[0].group].breakables == Of(s.buffer, s.buffer[0].group);
    SealedKept(s, r, lim, r.log[|s.log|]);
  }

  lemma OutputMid(s: State, lim: nat, t: nat)
    requires Mid(s, lim, t) && s.buffer != []
    requires lim > 0 || s.buffer[0].Text?
    ensures Mid(Output(s), if lim > 0 then lim - 1 else 0, t)
  {
    OutputCore(s);
    OutputReady(s, lim, t);
    OutputFlushable(s, lim);
    OutputLog(s, lim, t);
    OutputSealed(s, lim, t);
  }

  // ---- breaking the outermost group

  lemma {:induction false} OutputGroupMid(s: State, t: nat)
    requires Mid(s, Reach(s.buffer, t), t)
    ensures Mid(OutputGroup(s, t), 0, t) && OutputGroup(s, t).groups[t].breakables == []
    decreases |s.buffer|
  {
    assert s.groups[t].breakables == Of(s.buffer, t);
    if s.groups[t].breakables != [] {
      OutputMid(s, Reach(s.buffer, t), t);
      OutputGroupMid(Output(s), t);
    }
  }

  lemma {:induction false} OutputTextsMid(s: State, t: nat)
    requires Mid(s, 0, t) && s.groups[t].breakables == []
    ensures Mid(OutputTexts(s), 0, t) && OutputTexts(s).groups[t].breakables == []
    ensures OutputTexts(s).buffer != [] ==> OutputTexts(s).buffer[0].Breakable?
    decreases |s.buffer|
  {
    if s.buffer != [] && s.buffer[0].Text? {
      OutputMid(s, 0, t);
      OutputTextsMid(Output(s), t);
    }
  }

  lemma MidEnds(s: State, t: nat)
    requires Mid(s, 0, t) && s.groups[t].breakables == []
    ensures Inv(s)
  {
  }

  /** Dequeuing changes which groups are broken and queued, and nothing else. */
  lemma DeqCore(s: State)
    requires Core(s)
    ensures Core(Deq(s))
    ensures DeqSpec(s.groups, s.queue, 0, DeqFrom(s.groups, s.queue, 0))
  {
    DeqMeetsSpec(s.groups, s.queue, 0, DeqFrom(s.groups, s.queue, 0));
  }

  lemma DeqReady(s: State)
    requires Core(s) && Ready(s, -1) && BrokenOutside(s)
    ensures Core(Deq(s)) && BrokenOutside(Deq(s))
    ensures var found := Found(s);
            && Ready(Deq(s), if found.Some? then found.value else -1)
            && (found.None? ==> forall g :: 0 <= g < |s.groups| ==> s.groups[g].breakables == [])
  {
    DeqCore(s);
    var d := DeqFrom(s.groups, s.queue, 0);
    var r := Deq(s);
    forall k | 0 <= k < |s.stack|
      ensures s.groups[s.stack[k]].broke || IsQueued(s.groups, s.queue, s.stack[k])
      ensures r.groups[s.stack[k]].broke || IsQueued(r.groups, r.queue, s.stack[k])
    {
    }
    forall g | 0 <= g < |s.groups| && s.groups[g].breakables != []
      ensures IsQueued(s.groups, s.queue, g)
    {
    }
  }

  /** After dequeuing t, everything around t that still prints is broken. */
  lemma DeqBreaksAround(s: State, t: nat)
    requires Inv(s) && Found(s) == Some(t)
    ensures Core(Deq(s)) && t < |s.groups| && BrokenAround(Deq(s), t)
  {
    DeqCore(s);
    var r := Deq(s);
    forall k | 0 <= k < |s.paths[t]|
      ensures var a := s.paths[t][k]; a in s.stack || s.groups[a].breakables != [] ==> r.groups[a].broke
    {
      var a := s.paths[t][k];
      if a in s.stack {
        var m :| 0 <= m < |s.stack| && s.stack[m] == a;
        assert s.groups[s.stack[m]].broke || IsQueued(s.groups, s.queue, s.stack[m]);
      }
      if s.groups[a].breakables != [] {
        assert IsQueued(s.groups, s.queue, a);
      }
    }
  }

  /** After dequeuing t, everything around t is broken and nothing around it was separated. */
  lemma DeqFocus(s: State, t: nat)
    requires Inv(s) && Found(s) == Some(t)
    ensures Core(Deq(s)) && Focus(Deq(s), t)
  {
    DeqCore(s);
    DeqBreaksAround(s, t);
    assert s.groups[t].breakables == Of(s.buffer, t);
    var i := Reach(s.buffer, t) - 1;
    forall j | 0 <= j < |s.log| && Separated(s.log[j])
      ensures s.log[j].group !in s.paths[t]
    {
      assert !Within(s.paths, s.buffer, i, s.log[j].group);
    }
  }

  lemma DeqLog(s: State, t: int)
    requires Inv(s)
    requires var found := Found(s); t == if found.Some? then found.value else -1
    ensures Core(Deq(s)) && Settled(Deq(s)) && Consistent(Deq(s).log, Deq(s).paths)
    ensures Sealed(Deq(s), 0)
  {
    DeqCore(s);
    var r := Deq(s);
    forall i | 0 <= i < |s.log| && Newlined(s.log[i])
      ensures BrokenAround(r, s.log[i].group)
    {
      assert BrokenAround(s, s.log[i].group);
    }
    forall j | 0 <= j < |s.log| && Separated(s.log[j])
      ensures s.groups[s.log[j].group].breakables == []
    {
      SealedHasNothingPending(s, s.log[j].group, j);
    }
  }

  /** A hint of g is within g. */
  lemma HintIsWithin(s: State, i: nat)
    requires Core(s) && i < |s.buffer| && s.buffer[i].Breakable?
    ensures Within(s.paths, s.buffer, i, s.buffer[i].group)
  {
    var g := s.buffer[i].group;
    assert s.paths[g][s.groups[g].depth] == g;
  }

  lemma SealedHasNothingPending(s: State, g: nat, j: nat)
    requires Inv(s) && j < |s.log| && Separated(s.log[j]) && s.log[j].group == g
    ensures s.groups[g].breakables == []
  {
    assert s.groups[g].breakables == Of(s.buffer, g);
    if s.groups[g].breakables != [] {
      HintIsWithin(s, Reach(s.buffer, g) - 1);
    }
  }

  /** The dequeued group is outermost: no other group with pending hints is around it. */
  lemma DequeuedIsOutermost(s: State, t: nat, c: nat)
    requires Inv(s) && Found(s) == Some(t)
    requires t < |s.groups| && c < |s.groups| && s.groups[c].breakables != [] && c != t
    ensures c !in s.paths[t]
  {
    DeqCore(s);
    assert IsQueued(s.groups, s.queue, c);
  }

  lemma DeqFlushable(s: State, t: nat)
    requires Inv(s) && Found(s) == Some(t)
    ensures Core(Deq(s)) && Flushable(Deq(s), Reach(s.buffer, t))
  {
    DeqCore(s);
    var r := Deq(s);
    var lim := Reach(s.buffer, t);
    assert s.groups[t].breakables == Of(s.buffer, t);
    forall i | 0 <= i < lim && s.buffer[i].Breakable? && !r.groups[s.buffer[i].group].broke
      ensures s.buffer[i].group !in s.stack
      ensures forall k :: 0 <= k < |s.buffer| && Within(s.paths, s.buffer, k, s.buffer[i].group) ==> k < lim
    {
      HintIsWithin(s, i);
      PendingHint(s, i);
      DequeuedIsOutermost(s, t, s.buffer[i].group);
      NotAround(s, i, lim - 1, s.buffer[i].group);
    }
  }

  /** A group that has a hint and is not around a later one is closed, and has no hint behind that. */
  lemma NotAround(s: State, i: nat, k: nat, c: nat)
    requires Core(s) && i <= k < |s.buffer| && s.buffer[k].Breakable? && Within(s.paths, s.buffer, i, c)
    requires c !in s.paths[s.buffer[k].group]
    ensures c !in s.stack && forall j :: 0 <= j < |s.buffer| && Within(s.paths, s.buffer, j, c) ==> j <= k
  {
    assert !Within(s.paths, s.buffer, k, c);
  }

  lemma PendingHint(s: State, i: nat)
    requires Core(s) && i < |s.buffer| && s.buffer[i].Breakable?
    ensures s.groups[s.buffer[i].group].breakables != []
  {
    var g := s.buffer[i].group;
    assert s.groups[g].breakables == Of(s.buffer, g);
    var lim := Reach(s.buffer, g);
  }

  lemma DeqMid(s: State, t: nat)
    requires Inv(s) && Found(s) == Some(t)
    ensures Mid(Deq(s), Reach(s.buffer, t), t)
  {
    DeqReady(s);
    DeqFocus(s, t);
    DeqLog(s, t);
    DeqFlushable(s, t);
  }

  ghost predicate StartsWithHint(s: State) {
    s.buffer != [] ==> s.buffer[0].Breakable?
  }

  /** Between two calls, what is buffered still fits on the current line. */
  ghost predicate Fits(maxwidth: int, s: State) {
    StartsWithHint(s) && (s.buffer != [] ==> s.outputWidth + s.bufferWidth <= maxwidth)
  }

  lemma RoundInv(s: State, t: nat)
    requires Inv(s) && Found(s) == Some(t)
    ensures Inv(Round(Deq(s), t)) && StartsWithHint(Round(Deq(s), t))
  {
    DeqMid(s, t);
    OutputGroupMid(Deq(s), t);
    OutputTextsMid(OutputGroup(Deq(s), t), t);
    MidEnds(Round(Deq(s), t), t);
  }

  /** When nothing is left to break, nothing is buffered. */
  lemma NothingFound(s: State)
    requires Inv(s) && StartsWithHint(s) && Found(s) == None
    ensures Inv(Deq(s)) && s.buffer == []
  {
    DeqReady(s);
    DeqLog(s, -1);
    if s.buffer != [] { PendingHint(s, 0); }
  }

  lemma {:induction false} BreakOutmostInv(maxwidth: int, s: State)
    requires Inv(s) && StartsWithHint(s)
    ensures Inv(BreakOutmost(maxwidth, s)) && Fits(maxwidth, BreakOutmost(maxwidth, s))
    decreases QueueSize(s.queue)
  {
    if maxwidth < s.outputWidth + s.bufferWidth {
      if Found(s) == None {
        NothingFound(s);
      } else {
        var t := Found(s).value;
        RoundInv(s, t);
        BreakOutmostInv(maxwidth, Round(Deq(s), t));
      }
    }
  }

  // ---- the calls

  lemma WithTextHints(buffer: seq<Item>, obj: Obj, width: int)
    requires buffer != []
    ensures var r := WithText(buffer, obj, width);
            && |buffer| <= |r|
            && (forall i :: 0 <= i < |r| && r[i].Breakable? ==> i < |buffer| && r[i] == buffer[i])
            && (forall i :: 0 <= i < |buffer| && buffer[i].Breakable? ==> r[i] == buffer[i])
            && (forall g :: Of(r, g) == Of(buffer, g))
  {
    var r := WithText(buffer, obj, width);
    var n := |buffer| - 1;
    forall g
      ensures Of(r, g) == Of(buffer, g)
    {
      if buffer[n].Text? {
        assert r == buffer[..n] + [r[n]] && buffer == buffer[..n] + [buffer[n]];
        OfAppend(buffer[..n], [r[n]], g);
        OfAppend(buffer[..n], [buffer[n]], g);
      } else {
        OfAppend(buffer, [r[n + 1]], g);
      }
    }
  }

  /** Two states whose buffers hold the same hints at the same places. */
  ghost predicate SameHints(buffer: seq<Item>, buffer': seq<Item>) {
    && (forall i :: 0 <= i < |buffer'| && buffer'[i].Breakable? ==> i < |buffer| && buffer'[i] == buffer[i])
    && (forall i :: 0 <= i < |buffer| && buffer[i].Breakable? ==> i < |buffer'|)
    && (forall g :: Of(buffer', g) == Of(buffer, g))
  }

  lemma NestedSameHints(paths: seq<seq<nat>>, stack: seq<nat>, b: seq<Item>, b': seq<Item>)
    requires SameHints(b, b') && Contiguous(paths, b) && OpenToEnd(paths, b, stack)
    ensures Contiguous(paths, b') && OpenToEnd(paths, b', stack)
  {
    forall i, j, k, a | 0 <= i < j < k < |b'| && Within(paths, b', i, a) && Within(paths, b', k, a)
      ensures b'[j].Breakable? ==> Within(paths, b', j, a)
    {
      assert Within(paths, b, i, a) && Within(paths, b, k, a);
      assert b[j].Breakable? ==> Within(paths, b, j, a);
    }
    forall i, j, a | 0 <= i < j < |b'| && a in stack && Within(paths, b', i, a)
      ensures b'[j].Breakable? ==> Within(paths, b', j, a)
    {
      assert Within(paths, b, i, a);
      assert b'[j].Breakable? ==> b[j].Breakable?;
    }
  }

  lemma AddWordsInv(s: State, r: State)
    requires Inv(s) && AddsWords(s, r)
    ensures Inv(r)
  {
    AddWordsSealed(s, r);
    AddWordsSettled(s, r);
    assert Ready(s, -1) && Ready(r, -1);
  }

  lemma AddWordsSettled(s: State, r: State)
    requires Inv(s) && AddsWords(s, r)
    ensures Core(r) && Settled(r) && Consistent(r.log, r.paths)
  {
    AddWordsCore(s, r);
    AddedHints(s.log, r.log);
    AddedConsistent(s.log, r.log, s.paths);
    forall i | 0 <= i < |r.log| && Newlined(r.log[i]) ensures BrokenAround(r, r.log[i].group) {
      assert i < |s.log| && r.log[i] == s.log[i];
      BrokenAroundKept(s, r, s.log[i].group);
    }
  }

  /** A log that has got at most a text behind it has the hints it had. */
  ghost predicate AddsNoHint(log: seq<Piece>, log': seq<Piece>) {
    log' == log || exists p: Piece :: p.Words? && log' == log + [p]
  }

  lemma AddedHints(log: seq<Piece>, log': seq<Piece>)
    requires AddsNoHint(log, log')
    ensures forall i :: 0 <= i < |log'| && log'[i].Hint? ==> i < |log| && log'[i] == log[i]
  {
  }

  lemma AddedConsistent(log: seq<Piece>, log': seq<Piece>, paths: seq<seq<nat>>)
    requires AddsNoHint(log, log') && LogInRange(log, |paths|) && Consistent(log, paths)
    ensures LogInRange(log', |paths|) && Consistent(log', paths)
  {
    AddedHints(log, log');
  }

  ghost predicate AddsWords(s: State, r: State) {
    && SameHints(s.buffer, r.buffer)
    && r == s.(buffer := r.buffer, log := r.log, outputWidth := r.outputWidth, bufferWidth := r.bufferWidth)
    && AddsNoHint(s.log, r.log)
  }

  lemma AddWordsCore(s: State, r: State)
    requires Inv(s) && AddsWords(s, r)
    ensures Core(r)
  {
    NestedSameHints(s.paths, s.stack, s.buffer, r.buffer);
    assert forall g :: 0 <= g < |s.groups| ==> s.groups[g].breakables == Of(s.buffer, g);
  }

  lemma AddWordsSealed(s: State, r: State)
    requires Inv(s) && AddsWords(s, r)
    ensures Core(r) && Sealed(r, 0)
  {
    AddWordsCore(s, r);
    forall j, i | 0 <= j < |r.log| && Separated(r.log[j]) && 0 <= i < |r.buffer| &&
      Within(r.paths, r.buffer, i, r.log[j].group)
      ensures false
    {
      assert Within(s.paths, s.buffer, i, s.log[j].group);
    }
  }

  lemma AddTextInv(s: State, obj: Obj, width: int, r: State)
    requires Inv(s) && StartsWithHint(s) && s.buffer != []
    requires r == BufferText(s, obj, width)
    ensures Inv(r) && StartsWithHint(r)
  {
    WithTextHints(s.buffer, obj, width);
    AddWordsInv(s, r);
  }

  lemma BufferTextInv(maxwidth: int, s: State, obj: Obj, width: int, t: State)
    requires Inv(s) && StartsWithHint(s) && s.buffer != []
    requires t == BufferText(s, obj, width)
    ensures Inv(BreakOutmost(maxwidth, t)) && Fits(maxwidth, BreakOutmost(maxwidth, t))
  {
    AddTextInv(s, obj, width, t);
    BreakOutmostInv(maxwidth, t);
  }

  lemma PrintTextInv(s: State, obj: Obj, width: int)
    requires Inv(s) && s.buffer == []
    ensures Inv(PrintText(s, obj, width))
  {
    var p := Words([obj], width);
    AddWordsInv(s, PrintText(s, obj, width));
  }

  lemma TextInv(maxwidth: int, s: State, obj: Obj, width: int)
    requires Inv(s) && Fits(maxwidth, s)
    ensures Inv(TextStep(maxwidth, s, obj, width)) && Fits(maxwidth, TextStep(maxwidth, s, obj, width))
  {
    if s.buffer == [] {
      PrintTextInv(s, obj, width);
    } else {
      var t := BufferText(s, obj, width);
      var r := BreakOutmost(maxwidth, t);
      BufferTextInv(maxwidth, s, obj, width, t);
      assert TextStep(maxwidth, s, obj, width) == r;
    }
  }

  lemma PushHintNested(s: State, item: Item)
    requires Core(s) && item.Breakable? && item.group == Top(s)
    ensures Contiguous(s.paths, s.buffer + [item]) && OpenToEnd(s.paths, s.buffer + [item], s.stack)
  {
    var b, b' := s.buffer, s.buffer + [item];
    assert s.paths[Top(s)] == s.stack;
    assert forall i, a :: 0 <= i < |b| ==> (Within(s.paths, b', i, a) <==> Within(s.paths, b, i, a));
    assert forall a :: Within(s.paths, b', |b|, a) <==> a in s.stack;
  }

  lemma PushHintCore(s: State, sep: Obj, width: int)
    requires Core(s)
    ensures Core(PushHint(s, sep, width))
  {
    var r := PushHint(s, sep, width);
    var item := r.buffer[|s.buffer|];
    PushHintNested(s, item);
    forall g | 0 <= g < |s.groups|
      ensures r.groups[g].breakables == Of(r.buffer, g)
    {
      OfAppend(s.buffer, [item], g);
      assert s.groups[g].breakables == Of(s.buffer, g);
    }
  }

  lemma PushHintReady(s: State, sep: Obj, width: int)
    requires Inv(s) && !s.groups[Top(s)].broke
    ensures Wf(PushHint(s, sep, width)) && Ready(PushHint(s, sep, width), -1)
  {
    PushHintCore(s, sep, width);
    var r := PushHint(s, sep, width);
    var n := |s.stack| - 1;
    assert s.groups[s.stack[n]].broke || IsQueued(s.groups, s.queue, s.stack[n]);
    forall g | 0 <= g < |s.groups|
      ensures IsQueued(s.groups, s.queue, g) ==> IsQueued(r.groups, r.queue, g)
    {
    }
  }

  lemma PushHintSealed(s: State, sep: Obj, width: int)
    requires Inv(s)
    ensures Core(PushHint(s, sep, width)) && Sealed(PushHint(s, sep, width), 0)
  {
    PushHintCore(s, sep, width);
    var r := PushHint(s, sep, width);
    forall j | 0 <= j < |r.log| && Separated(r.log[j])
      ensures forall i :: 0 <= i < |r.buffer| ==> !Within(r.paths, r.buffer, i, r.log[j].group)
      ensures r.log[j].group != Top(s)
    {
      PushHintOutside(s, r.buffer[|s.buffer|], s.log[j].group);
    }
  }

  /** A closed group without buffered hints gets none when a hint of the current group is pushed. */
  lemma PushHintOutside(s: State, item: Item, g: nat)
    requires Wf(s) && Paths(s) && item.Breakable? && item.group == Top(s) && g !in s.stack
    requires forall i :: 0 <= i < |s.buffer| ==> !Within(s.paths, s.buffer, i, g)
    ensures forall i :: 0 <= i < |s.buffer| + 1 ==> !Within(s.paths, s.buffer + [item], i, g)
  {
    assert s.paths[s.stack[|s.stack| - 1]] == s.stack;
    forall i | 0 <= i < |s.buffer| + 1 ensures !Within(s.paths, s.buffer + [item], i, g) {
      if i < |s.buffer| { assert !Within(s.paths, s.buffer, i, g); }
    }
  }

  lemma PushHintInv(s: State, sep: Obj, width: int)
    requires Inv(s) && StartsWithHint(s) && !s.groups[Top(s)].broke
    ensures Inv(PushHint(s, sep, width)) && StartsWithHint(PushHint(s, sep, width))
  {
    var r := PushHint(s, sep, width);
    PushHintCore(s, sep, width);
    PushHintReady(s, sep, width);
    PushHintSealed(s, sep, width);
    forall i | 0 <= i < |s.log| && Newlined(s.log[i])
      ensures BrokenAround(r, s.log[i].group)
    {
      assert BrokenAround(s, s.log[i].group);
    }
  }

  lemma {:induction false} OutputAllMid(s: State, t: nat)
    requires Mid(s, |s.buffer|, t)
    ensures Mid(OutputAll(s), 0, t)
    decreases |s.buffer|
  {
    if s.buffer != [] {
      OutputMid(s, |s.buffer|, t);
      OutputAllMid(Output(s), t);
    }
  }

  /** When the current group is broken, flushing prints closed groups only. */
  lemma FlushMid(s: State)
    requires Inv(s) && s.groups[Top(s)].broke
    ensures Mid(s, |s.buffer|, Top(s))
  {
    var t := Top(s);
    assert s.paths[t] == s.stack;
    forall k | 0 <= k < |s.stack|
      ensures s.groups[s.stack[k]].broke
    {
    }
    assert BrokenAround(s, t);
    assert forall a :: a in s.stack ==> a < |s.groups| && s.groups[a].broke;
  }

  lemma MidIgnoresWidth(s: State, lim: nat, t: nat, width: int)
    requires Mid(s, lim, t)
    ensures Mid(s.(bufferWidth := width), lim, t)
  {
    var r := s.(bufferWidth := width);
    BrokenAroundKept(s, r, t);
    forall i | 0 <= i < |s.log| && Newlined(s.log[i])
      ensures BrokenAround(r, s.log[i].group)
    {
      BrokenAroundKept(s, r, s.log[i].group);
    }
  }

  lemma BreakLineMid(s: State, sep: Obj, width: int)
    requires s.stack != [] && Mid(s, 0, Top(s)) && s.buffer == []
    ensures Inv(BreakLine(s, sep, width))
  {
    var t := Top(s);
    var r := BreakLine(s, sep, width);
    assert s.groups[t].breakables == Of(s.buffer, t);
    assert Core(r);
    LogNewline(s, r, t, r.log[|s.log|]);
    assert Ready(s, t) && Ready(r, -1);
  }

  lemma BreakLineInv(s: State, sep: Obj, width: int)
    requires Inv(s) && s.groups[Top(s)].broke
    ensures Inv(BreakLine(Flush(s), sep, width)) && BreakLine(Flush(s), sep, width).buffer == []
  {
    FlushMid(s);
    OutputAllMid(s, Top(s));
    MidIgnoresWidth(OutputAll(s), 0, Top(s), 0);
    BreakLineMid(Flush(s), sep, width);
  }

  lemma BreakableInv(maxwidth: int, s: State, sep: Obj, width: int)
    requires Inv(s) && Fits(maxwidth, s)
    ensures Inv(BreakableStep(maxwidth, s, sep, width)) && Fits(maxwidth, BreakableStep(maxwidth, s, sep, width))
  {
    if s.groups[Top(s)].broke {
      BreakLineInv(s, sep, width);
    } else {
      PushHintInv(s, sep, width);
      BreakOutmostInv(maxwidth, PushHint(s, sep, width));
    }
  }

  lemma OpenGroupWf(s: State)
    requires Wf(s)
    ensures Wf(OpenGroup(s))
    ensures forall g :: 0 <= g < |s.groups| ==>
      (IsQueued(OpenGroup(s).groups, OpenGroup(s).queue, g) <==> IsQueued(s.groups, s.queue, g))
    ensures IsQueued(OpenGroup(s).groups, OpenGroup(s).queue, |s.groups|)
  {
    EnqRows(s.queue, s.groups[Top(s)].depth + 1, |s.groups|);
    var r := OpenGroup(s);
    forall d, i | 0 <= d < |r.queue| && 0 <= i < |r.queue[d]|
      ensures r.queue[d][i] < |r.groups| && r.groups[r.queue[d][i]].depth == d
    {
      assert r.queue[d][i] in r.queue[d];
    }
  }

  lemma OpenGroupNested(s: State)
    requires Core(s)
    ensures Nested(OpenGroup(s))
    ensures forall i, a :: 0 <= i < |s.buffer| ==>
      (Within(OpenGroup(s).paths, s.buffer, i, a) <==> Within(s.paths, s.buffer, i, a))
  {
    var r := OpenGroup(s);
    forall i, a | 0 <= i < |s.buffer|
      ensures Within(r.paths, s.buffer, i, a) <==> Within(s.paths, s.buffer, i, a)
    {
    }
    forall i, j, k, a | 0 <= i < j < k < |s.buffer| && Within(r.paths, s.buffer, i, a) &&
      Within(r.paths, s.buffer, k, a)
      ensures s.buffer[j].Breakable? ==> Within(r.paths, s.buffer, j, a)
    {
      assert Within(s.paths, s.buffer, i, a) && Within(s.paths, s.buffer, k, a);
    }
    forall i, j, a | 0 <= i < j < |s.buffer| && a in r.stack && Within(r.paths, s.buffer, i, a)
      ensures s.buffer[j].Breakable? ==> Within(r.paths, s.buffer, j, a)
    {
      assert Within(s.paths, s.buffer, i, a);
      assert a != |s.groups|;
    }
  }

  lemma OpenGroupPaths(s: State)
    requires Core(s)
    ensures Paths(OpenGroup(s))
  {
    var r := OpenGroup(s);
    assert s.paths[s.stack[|s.stack| - 1]] == s.stack;
    forall k | 0 <= k < |r.stack|
      ensures r.stack[k] < |r.paths| && r.paths[r.stack[k]] == r.stack[..k + 1]
    {
      if k < |s.stack| { assert r.stack[..k + 1] == s.stack[..k + 1]; } else { assert r.stack[..k + 1] == r.stack; }
    }
  }

  lemma OpenGroupCore(s: State)
    requires Core(s)
    ensures Core(OpenGroup(s))
  {
    var r := OpenGroup(s);
    OpenGroupWf(s);
    OpenGroupPaths(s);
    OpenGroupNested(s);
    var lim := Reach(s.buffer, |s.groups|);
    forall g | 0 <= g < |r.groups|
      ensures r.groups[g].breakables == Of(r.buffer, g)
    {
      assert g < |s.groups| ==> s.groups[g].breakables == Of(s.buffer, g);
    }
  }

  lemma OpenGroupQueue(s: State)
    requires Inv(s)
    ensures Wf(OpenGroup(s)) && Ready(OpenGroup(s), -1) && BrokenOutside(OpenGroup(s))
  {
    OpenGroupWf(s);
    var r := OpenGroup(s);
    forall g | 0 <= g < |r.groups| && r.groups[g].breakables != []
      ensures !r.groups[g].broke && IsQueued(r.groups, r.queue, g)
    {
      assert IsQueued(s.groups, s.queue, g);
    }
    forall k | 0 <= k < |r.stack|
      ensures r.groups[r.stack[k]].broke || IsQueued(r.groups, r.queue, r.stack[k])
    {
      assert k < |s.stack| ==> s.groups[s.stack[k]].broke || IsQueued(s.groups, s.queue, s.stack[k]);
    }
  }

  lemma OpenGroupInv(s: State)
    requires Inv(s)
    ensures Inv(OpenGroup(s))
  {
    var r := OpenGroup(s);
    OpenGroupCore(s);
    OpenGroupQueue(s);
    OpenGroupSealed(s);
    forall i | 0 <= i < |s.log| && Newlined(s.log[i])
      ensures BrokenAround(r, s.log[i].group)
    {
      assert BrokenAround(s, s.log[i].group);
    }
  }

  /** Groups that are finished stay finished. */
  lemma OpenGroupSealed(s: State)
    requires Core(s) && Sealed(s, 0)
    ensures Core(OpenGroup(s)) && Sealed(OpenGroup(s), 0) && (Consistent(s.log, s.paths) ==>
            Consistent(OpenGroup(s).log, OpenGroup(s).paths))
  {
    OpenGroupCore(s);
    OpenGroupWf(s);
    OpenGroupNested(s);
    var r := OpenGroup(s);
    forall j | 0 <= j < |s.log| && Separated(s.log[j])
      ensures Finished(r, s.log[j].group, 0)
    {
      assert Finished(s, s.log[j].group, 0);
    }
  }

  lemma CloseGroupQueue(s: State)
    requires Wf(s) && |s.stack| > 1
    ensures Wf(CloseGroup(s))
    ensures forall g :: 0 <= g < |s.groups| ==>
      (IsQueued(s.groups, CloseGroup(s).queue, g) <==>
       IsQueued(s.groups, s.queue, g) && !(g == Top(s) && s.groups[g].breakables == []))
  {
  }

  lemma CloseGroupInv(s: State)
    requires Inv(s)
    ensures Inv(CloseGroup(s))
  {
    if |s.stack| > 1 { CloseInnerInv(s); }
  }

  lemma CloseGroupCore(s: State)
    requires Core(s) && |s.stack| > 1
    ensures Core(CloseGroup(s))
  {
    var r := CloseGroup(s);
    CloseGroupQueue(s);
    assert forall a :: a in r.stack ==> a in s.stack;
    forall k | 0 <= k < |r.stack|
      ensures r.stack[k] < |r.paths| && r.paths[r.stack[k]] == r.stack[..k + 1]
    {
      assert r.stack[..k + 1] == s.stack[..k + 1];
    }
  }

  lemma CloseGroupReady(s: State)
    requires Inv(s) && |s.stack| > 1
    ensures Wf(CloseGroup(s)) && Ready(CloseGroup(s), -1) && BrokenOutside(CloseGroup(s))
  {
    var r := CloseGroup(s);
    CloseGroupQueue(s);
    forall k | 0 <= k < |r.stack|
      ensures r.groups[r.stack[k]].broke || IsQueued(r.groups, r.queue, r.stack[k])
    {
      assert r.stack[k] == s.stack[k] && s.groups[s.stack[k]].depth == k != s.groups[Top(s)].depth;
      assert s.groups[s.stack[k]].broke || IsQueued(s.groups, s.queue, s.stack[k]);
    }
    forall g | 0 <= g < |s.groups| && s.groups[g].breakables != []
      ensures !s.groups[g].broke && IsQueued(r.groups, r.queue, g)
    {
      assert IsQueued(s.groups, s.queue, g);
    }
  }

  lemma CloseInnerInv(s: State)
    requires Inv(s) && |s.stack| > 1
    ensures Inv(CloseGroup(s))
  {
    var r := CloseGroup(s);
    CloseGroupQueue(s);
    CloseGroupCore(s);
    CloseGroupReady(s);
    assert forall a :: a in r.stack ==> a in s.stack;
    forall i | 0 <= i < |s.log| && Newlined(s.log[i])
      ensures BrokenAround(r, s.log[i].group)
    {
      assert BrokenAround(s, s.log[i].group);
    }
  }

  lemma NestInv(s: State, indent: int)
    requires Inv(s)
    ensures Inv(Indented(s, indent))
  {
    assert forall g :: 0 <= g < |s.groups| && BrokenAround(s, g) ==> BrokenAround(Indented(s, indent), g);
  }

  ghost predicate Good(maxwidth: int, s: State) {
    Inv(s) && Fits(maxwidth, s)
  }

  lemma GoodStep(maxwidth: int, s: State)
    ensures KeptBy(Pretty(maxwidth), (x: State) => Good(maxwidth, x), s)
  {
    if Good(maxwidth, s) {
      forall obj, width
        ensures Good(maxwidth, TextStep(maxwidth, s, obj, width))
      {
        TextInv(maxwidth, s, obj, width);
      }
      forall sep, width
        ensures Good(maxwidth, BreakableStep(maxwidth, s, sep, width))
      {
        BreakableInv(maxwidth, s, sep, width);
      }
      OpenGroupInv(s);
      CloseGroupInv(s);
      forall n
        ensures Good(maxwidth, Indented(s, n))
      {
        NestInv(s, n);
      }
    }
  }

  /** Every call of every block keeps the invariant. */
  lemma RunInv(maxwidth: int, s: State, calls: Calls)
    requires Good(maxwidth, s)
    ensures Good(maxwidth, Run(Pretty(maxwidth), s, calls))
  {
    var P := (x: State) => Good(maxwidth, x);
    forall x: State
      ensures KeptBy(Pretty(maxwidth), P, x)
    {
      GoodStep(maxwidth, x);
    }
    RunPreserves(Pretty(maxwidth), P, s, calls);
  }

  lemma InitialInv()
    ensures Inv(INITIAL)
  {
    assert INITIAL.paths[0] == [0];
    assert 0 in INITIAL.queue[0];
  }

  ghost predicate AllUnbroken(s: State) {
    forall g :: 0 <= g < |s.groups| && s.groups[g].breakables != [] ==> !s.groups[g].broke
  }

  /** Printing the first item when no group in the buffer is broken: a separator is not around a newline. */
  lemma FinalPiece(s: State)
    requires Core(s) && AllUnbroken(s) && Settled(s) && s.buffer != []
    ensures Core(Output(s)) && AllUnbroken(Output(s)) && Settled(Output(s))
    ensures var piece := Output(s).log[|s.log|];
            && !Newlined(piece)
            && (Separated(piece) ==> forall i :: 0 <= i < |s.log| && Newlined(s.log[i]) ==>
                piece.group !in s.paths[s.log[i].group])
  {
    OutputCore(s);
    var r := Output(s);
    assert s.buffer[0].Breakable? ==> s.groups[s.buffer[0].group].breakables == Of(s.buffer, s.buffer[0].group);
    forall i | 0 <= i < |r.log| && Newlined(r.log[i])
      ensures i < |s.log| && BrokenAround(r, r.log[i].group)
      ensures s.buffer[0].Breakable? ==> s.buffer[0].group !in r.paths[r.log[i].group]
    {
      assert i < |s.log|;
      assert r.log[i] == s.log[i];
      BrokenAroundKept(s, r, s.log[i].group);
    }
  }

  /** A piece without a newline that is not around an earlier newline does no harm. */
  lemma AppendConsistent(log: seq<Piece>, piece: Piece, paths: seq<seq<nat>>)
    requires LogInRange(log + [piece], |paths|) && LogInRange(log, |paths|) && Consistent(log, paths)
    requires !Newlined(piece)
    requires Separated(piece) ==> forall i :: 0 <= i < |log| && Newlined(log[i]) ==> piece.group !in paths[log[i].group]
    ensures Consistent(log + [piece], paths)
  {
    var longer := log + [piece];
    forall i, j | 0 <= i < |longer| && 0 <= j < |longer| && Newlined(longer[i]) && Separated(longer[j])
      ensures longer[j].group !in paths[longer[i].group]
    {
      assert i < |log| && longer[i] == log[i];
    }
  }

  lemma FinalOutput(s: State)
    requires Core(s) && AllUnbroken(s) && Consistent(s.log, s.paths) && Settled(s) && s.buffer != []
    ensures Core(Output(s)) && AllUnbroken(Output(s)) && Consistent(Output(s).log, s.paths) && Settled(Output(s))
  {
    FinalPiece(s);
    var piece := Output(s).log[|s.log|];
    assert Output(s).log == s.log + [piece];
    AppendConsistent(s.log, piece, s.paths);
  }

  /** The final flush prints unbroken groups as separators only. */
  lemma {:induction false} FinalFlush(s: State)
    requires Core(s) && AllUnbroken(s) && Consistent(s.log, s.paths) && Settled(s)
    ensures Core(OutputAll(s)) && Consistent(OutputAll(s).log, s.paths)
    decreases |s.buffer|
  {
    if s.buffer != [] {
      FinalOutput(s);
      FinalFlush(Output(s));
    }
  }
}
