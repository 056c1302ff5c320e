// The classes of lib/join.rb: defining channels and chords, and sending on an object.
module JoinObject {
  import opened Common
  import opened JoinBits
  import opened JoinRules
  import opened JoinRuns
  import opened JoinClasses

  function Reversed<T>(s: seq<T>): (r: seq<T>)
    ensures |r| == |s|
  {
    seq(|s|, k requires 0 <= k < |s| => s[|s| - 1 - k])
  }

  predicate Known(indices: map<string, nat>, names: seq<string>) {
    forall k :: 0 <= k < |names| ==> names[k] in indices
  }

  function NumbersOf(indices: map<string, nat>, names: seq<string>): (r: seq<nat>)
    requires Known(indices, names)
    ensures |r| == |names|
  {
    seq(|names|, k requires 0 <= k < |names| => indices[names[k]])
  }

  function Marked(numbers: seq<nat>, waits: bool): map<nat, bool> {
    map i | i in numbers :: waits
  }

  /** The table of channel names while the defining block runs. */
  class Definition {
    var max: int
    var indices: map<string, nat>
    var chords: seq<Chord>
    var sync: map<nat, bool>
    ghost var named: seq<seq<string>>

    ghost predicate Numbered()
      reads this
    {
      && max >= -1
      && (forall n :: n in indices ==> indices[n] <= max)
      && (forall n, m :: n in indices && m in indices && indices[n] == indices[m] ==> n == m)
    }

    ghost predicate Declared(c: Chord, names: seq<string>)
      reads this
    {
      names != [] && Known(indices, names) && c.indices == NumbersOf(indices, names) && c.mask == MaskOf(c.indices)
    }

    ghost predicate Valid()
      reads this
    {
      && Numbered()
      && |named| == |chords|
      && forall k :: 0 <= k < |chords| ==> Declared(chords[k], named[k])
    }

    constructor ()
      ensures Valid() && max == -1 && indices == map[] && chords == [] && sync == map[]
    {
      max, indices, chords, sync, named := -1, map[], [], map[], [];
    }

    /** Numbers the channels: a known name keeps its number, new names get the next numbers. */
    method DefChannels(names: seq<string>) returns (r: seq<nat>)
      requires Valid()
      modifies this`max, this`indices
      ensures Valid() && max >= old(max)
      ensures forall n :: n in old(indices) ==> n in indices && indices[n] == old(indices)[n]
      ensures forall n :: n in indices <==> n in old(indices) || n in names
      ensures Known(indices, names) && r == NumbersOf(indices, names)
      ensures Distinct(r) <==> Distinct(names)
      ensures Within(r, max + 1)
    {
      r := [];
      for k := 0 to |names|
        invariant Valid() && max >= old(max)
        invariant forall n :: n in old(indices) ==> n in indices && indices[n] == old(indices)[n]
        invariant forall n :: n in indices <==> n in old(indices) || n in names[..k]
        invariant |r| == k && forall j :: 0 <= j < k ==> r[j] == indices[names[j]]
      {
        assert names[..k + 1] == names[..k] + [names[k]];
        if names[k] !in indices {
          max := max + 1;
          indices := indices[names[k] := max];
        }
        r := r + [indices[names[k]]];
      }
      assert names[..|names|] == names;
      NumbersDistinct(names);
    }

    /** Numbers are distinct exactly if the names are. */
    lemma NumbersDistinct(names: seq<string>)
      requires Numbered() && Known(indices, names)
      ensures Distinct(NumbersOf(indices, names)) <==> Distinct(names)
      ensures Within(NumbersOf(indices, names), max + 1)
    {
      var r := NumbersOf(indices, names);
      forall j, k | 0 <= j < k < |names| ensures r[j] == r[k] <==> names[j] == names[k] {}
    }

    /** Declares a chord; with no names the source raises ArgumentError and nothing changes. */
    method AddChord(names: seq<string>, action: nat) returns (ok: bool)
      requires Valid()
      modifies this
      ensures Valid() && sync == old(sync)
      ensures ok <==> names != []
      ensures !ok ==> chords == old(chords) && indices == old(indices) && max == old(max) && named == old(named)
      ensures ok ==> |chords| == |old(chords)| + 1 && chords[..|old(chords)|] == old(chords)
      ensures ok ==> chords[|old(chords)|].action == action && named == old(named) + [names]
    {
      if names == [] { return false; }
      var r := DefChannels(names);
      var mask := 0;
      for k := 0 to |r|
        invariant mask == MaskOf(r[..k])
      {
        assert r[..k + 1][..k] == r[..k];
        mask := Or(mask, Shifted(r[k]));
      }
      assert r[..|r|] == r;
      var chord := Chord(mask, r, action);
      ghost var before := chords;
      chords, named := chords + [chord], named + [names];
      forall k | 0 <= k < |chords| ensures Declared(chords[k], named[k]) {
        if k < |before| { assert chords[k] == before[k]; }
      }
      ok := true;
    }

    method SetAll(r: seq<nat>, waits: bool)
      modifies this`sync
      ensures sync == old(sync) + Marked(r, waits)
    {
      for k := 0 to |r|
        invariant sync == old(sync) + Marked(r[..k], waits)
      {
        assert r[..k + 1] == r[..k] + [r[k]];
        sync := sync[r[k] := waits];
      }
      assert r[..|r|] == r;
    }

    /** Marks channels as synchronous or asynchronous; the last word on a channel counts. */
    method Mark(names: seq<string>, waits: bool)
      requires Valid()
      modifies this
      ensures Valid() && chords == old(chords) && named == old(named)
      ensures forall n :: n in indices <==> n in old(indices) || n in names
      ensures Known(indices, names) && sync == old(sync) + Marked(NumbersOf(indices, names), waits)
    {
      var r := DefChannels(names);
      SetAll(r, waits);
    }

    lemma DeclaredDistinct(c: Chord, names: seq<string>)
      requires Numbered() && Declared(c, names)
      ensures Distinct(c.indices) <==> Distinct(names)
      ensures c.indices != [] && Within(c.indices, max + 1)
    {
      NumbersDistinct(names);
    }

    /** The end of the block: later chords come first. Chords that name each channel once make every run of
        an object safe; which others do is said in JoinClasses. */
    method Finish() returns (rules: Rules)
      requires Valid()
      ensures rules == Rules(max + 1, Reversed(chords), sync)
      ensures rules.Ok()
      ensures RulesOk(rules) <==> forall names :: names in named ==> Distinct(names)
      ensures (forall names :: names in named ==> Distinct(names)) ==> AllRunsSafe(rules)
    {
      rules := Rules(max + 1, Reversed(chords), sync);
      forall k | 0 <= k < |chords|
        ensures chords[k].mask == MaskOf(chords[k].indices)
        ensures Distinct(chords[k].indices) <==> Distinct(named[k])
        ensures chords[k].indices != [] && Within(chords[k].indices, max + 1)
      {
        assert Declared(chords[k], named[k]);
        DeclaredDistinct(chords[k], named[k]);
      }
      ReversedHas(chords);
      if RulesOk(rules) { DistinctIsSafe(rules); }
    }
  }

  lemma ReversedHas<T>(s: seq<T>)
    ensures forall x :: x in Reversed(s) <==> x in s
  {
    forall k | 0 <= k < |s| ensures Reversed(s)[|s| - 1 - k] == s[k] {}
    forall x | x in Reversed(s) ensures x in s {
      var k :| 0 <= k < |s| && Reversed(s)[k] == x;
      assert s[|s| - 1 - k] == x;
    }
  }

  // ----- Objects -----

  datatype Thread = Thread(chord: nat, args: seq<Value>)

  /** An object of a finished class; each send is one critical section under its lock. */
  class Joined {
    const rules: Rules
    var pending: seq<seq<Item>>
    var mask: nat
    var threads: seq<Thread>
    var answers: map<nat, nat>
    var clock: nat
    ghost var firings: seq<Firing>

    ghost function Abs(): World
      reads this
    {
      World(pending, mask, firings, answers, clock)
    }

    /** A synchronous channel queues pairs and an asynchronous one bare values; threads got what was shifted. */
    ghost predicate Valid()
      reads this
    {
      && rules.Ok() && |pending| == rules.width
      && Typed(rules, pending)
      && |threads| == |firings|
      && forall k :: 0 <= k < |threads| ==> threads[k] == Thread(firings[k].chord, Values(firings[k].items))
    }

    constructor (rules: Rules)
      requires rules.Ok()
      ensures Valid() && this.rules == rules && Abs() == Fresh(rules.width)
    {
      this.rules := rules;
      pending, mask, threads := seq(rules.width, _ => []), 0, [];
      answers, clock, firings := map[], 0, [];
    }

    /** Shifts one queue, clearing its bit when it runs dry; an empty synchronous queue raises. */
    method TakeNext(i: nat, ghost items: seq<Item>) returns (item: Item, raised: bool)
      requires Typed(rules, pending) && i < |pending|
      modifies this`pending, this`mask
      ensures Typed(rules, pending) && |pending| == |old(pending)|
      ensures Taken(pending, mask, if raised then items else items + [item], raised)
           == TakeOne(rules, Taken(old(pending), old(mask), items, false), i)
      ensures !raised ==> (item.Paired? <==> rules.Sync(i))
    {
      var queue := pending[i];
      if queue == [] && rules.Sync(i) { return Bare(Nil), true; }
      if queue == [] {
        item := Bare(Nil);
      } else {
        item := queue[0];
        pending := pending[i := queue[1..]];
      }
      if pending[i] == [] { mask := Xor(mask, Shifted(i)); }
      raised := false;
    }

    /** Shifts one item from each queue of a chord, in the order the chord names them. */
    method TakeItems(indices: seq<nat>) returns (args: seq<Value>, waiting: seq<nat>, raised: bool,
                                                 ghost items: seq<Item>)
      requires Typed(rules, pending) && Within(indices, |pending|)
      modifies this`pending, this`mask
      ensures Typed(rules, pending)
      ensures Taken(pending, mask, items, raised) == Take(rules, old(pending), old(mask), indices)
      ensures !raised ==> args == Values(items) && waiting == Replies(items)
    {
      args, waiting, raised, items := [], [], false, [];
      for k := 0 to |indices|
        invariant Typed(rules, pending) && |pending| == |old(pending)|
        invariant Taken(pending, mask, items, false) == Take(rules, old(pending), old(mask), indices[..k])
        invariant args == Values(items) && waiting == Replies(items)
      {
        TakeMore(rules, old(pending), old(mask), indices, k);
        var item;
        item, raised := TakeNext(indices[k], items);
        if raised {
          TakeRaised(rules, old(pending), old(mask), indices, k + 1);
          return;
        }
        args := args + [item.value];
        if rules.Sync(indices[k]) { waiting := waiting + [item.reply]; }
        assert (items + [item])[..|items|] == items;
        items := items + [item];
      }
      assert indices[..|indices|] == indices;
    }

    /** Tries the chords in order against the mask. */
    method FindEnabled() returns (k: nat)
      ensures k == FirstEnabled(rules.chords, mask)
    {
      k := 0;
      while k < |rules.chords| && !Enabled(rules.chords[k], mask)
        invariant k <= |rules.chords|
        invariant forall j :: 0 <= j < k ==> !Enabled(rules.chords[j], mask)
      {
        k := k + 1;
      }
    }

    method Enqueue(index: nat, value: Value)
      requires Valid() && index < rules.width
      modifies this
      ensures Valid() && Abs() == Queued(rules, old(Abs()), index, value)
    {
      var item := if rules.Sync(index) then Paired(value, clock) else Bare(value);
      pending := pending[index := pending[index] + [item]];
      mask := Or(mask, Shifted(index));
      clock := clock + 1;
    }

    method FireChord(k: nat, outcome: Result) returns (r: Result)
      requires Valid() && k < |rules.chords| && Within(rules.chords[k].indices, rules.width)
      modifies this
      ensures Valid() && Sent(Abs(), r) == Fire(rules, old(Abs()), k, outcome)
    {
      ghost var items;
      var args, waiting, raised;
      args, waiting, raised, items := TakeItems(rules.chords[k].indices);
      if raised { return Raised; }
      Start(k, args, waiting, items);
      r := outcome;
    }

    /** Starts a thread and tells it to the synchronous callers. */
    method Start(k: nat, args: seq<Value>, waiting: seq<nat>, ghost items: seq<Item>)
      requires Valid() && args == Values(items)
      modifies this`threads, this`firings, this`answers
      ensures Valid() && firings == old(firings) + [Firing(k, items)]
      ensures answers == Answered(old(answers), waiting, |old(firings)|)
    {
      threads := threads + [Thread(k, args)];
      firings := firings + [Firing(k, items)];
      AnswerAll(waiting, |threads| - 1);
    }

    /** One call of a channel method, from taking the lock to giving it back. */
    method ChannelSend(index: nat, value: Value) returns (outcome: Result)
      requires Valid() && index < rules.width
      modifies this
      ensures Valid() && Sent(Abs(), outcome) == Send(rules, old(Abs()), index, value)
    {
      outcome := if rules.Sync(index) then Waits(clock) else Done;
      Enqueue(index, value);
      var k := FindEnabled();
      if k < |rules.chords| {
        assert rules.chords[k] in rules.chords;
        outcome := FireChord(k, outcome);
      }
    }

    method AnswerAll(waiting: seq<nat>, thread: nat)
      modifies this`answers
      ensures answers == Answered(old(answers), waiting, thread)
    {
      for k := 0 to |waiting|
        invariant answers == Answered(old(answers), waiting[..k], thread)
      {
        assert waiting[..k + 1] == waiting[..k] + [waiting[k]];
        answers := answers[waiting[k] := thread];
      }
      assert waiting[..|waiting|] == waiting;
    }
  }

  predicate Typed(rules: Rules, pending: seq<seq<Item>>) {
    forall i, p :: 0 <= i < |pending| && 0 <= p < |pending[i]| ==> (pending[i][p].Paired? <==> rules.Sync(i))
  }

  lemma TakeMore(rules: Rules, pending: seq<seq<Item>>, mask: nat, indices: seq<nat>, k: nat)
    requires Within(indices, |pending|) && k < |indices|
    ensures Take(rules, pending, mask, indices[..k + 1])
         == TakeOne(rules, Take(rules, pending, mask, indices[..k]), indices[k])
  {
    assert indices[..k + 1][..k] == indices[..k];
  }

  lemma {:induction false} TakeRaised(rules: Rules, pending: seq<seq<Item>>, mask: nat, indices: seq<nat>, k: nat)
    requires Within(indices, |pending|) && k <= |indices|
    requires Take(rules, pending, mask, indices[..k]).raised
    ensures Take(rules, pending, mask, indices) == Take(rules, pending, mask, indices[..k])
  {
    if k == |indices| {
      assert indices[..k] == indices;
    } else {
      assert indices[..|indices| - 1][..k] == indices[..k];
      TakeRaised(rules, pending, mask, indices[..|indices| - 1], k);
    }
  }
}
