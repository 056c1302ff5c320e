/**
 StreamBuf: a stream that arrives in chunks, read as if it were one string.
 */
module CsvStream {
  import opened Common
  import opened CsvFormat

  const BUF_SIZE: nat := 8192

  function Join(chunks: seq<string>): string {
    if chunks == [] then "" else chunks[0] + Join(chunks[1..])
  }

  /** What a read may return: some characters, but no more than were asked for. */
  predicate ChunkOk(chunk: string) {
    0 < |chunk| <= BUF_SIZE
  }

  /** Reading on in the next buffer is reading the same text. */
  lemma NextBuffer(a: string, rest: string, at: nat)
    requires |a| <= at <= |a| + |rest|
    ensures (a + rest)[at..] == rest[at - |a|..]
  {
  }

  /** A part of a string: nothing outside it, and less behind its end. */
  function Sub(s: string, index: int, n: nat): Option<string> {
    if index < 0 || |s| < index then None
    else Some(if index + n <= |s| then s[index..index + n] else s[index..])
  }

  /** A character of a string, or nothing outside it. */
  function At(s: string, index: int): Option<char> {
    if 0 <= index < |s| then Some(s[index]) else None
  }

  /** Dropping inside the current buffer. */
  lemma DropInside(text: string, offset: nat, n: nat)
    requires offset + n <= |text|
    ensures text[offset..][n..] == text[offset + n..]
  {
  }

  /** Dropping the rest of the current buffer and some of the text behind it. */
  lemma DropBuffer(buf: string, rest: string, offset: nat, n: nat)
    requires offset <= |buf| && |buf| - offset <= n <= |buf| - offset + |rest|
    ensures (buf + rest)[offset..][n..] == rest[n - (|buf| - offset)..]
  {
  }

  lemma SubOfNothing(idx: nat, n: nat)
    ensures Sub("", idx, n) == if idx == 0 then Some("") else None
  {
  }

  /** A place behind the last buffer. */
  lemma BehindBuffer(buf: string, loc: nat, all: string, idx: nat, n: nat)
    requires |buf| <= loc && |buf| - loc == |all| - idx
    ensures Sub(buf, loc, BUF_SIZE) == Sub(all, idx, n)
  {
    if loc == |buf| {
      assert buf[loc..] == "" == all[idx..];
      assert n == 0 ==> all[idx..idx + n] == "";
    }
  }

  /** A substring that ends inside the first buffer. */
  lemma WithinBuffer(buf: string, rest: string, loc: nat, all: string, idx: nat, n: nat)
    requires loc <= |buf| && idx <= |all| && (buf + rest)[loc..] == all[idx..] && loc + n <= |buf|
    ensures Sub(buf, loc, n) == Sub(all, idx, n)
  {
    assert |all| - idx == |(buf + rest)[loc..]| == |buf| + |rest| - loc;
    assert all[idx..][..n] == all[idx..idx + n];
    assert (buf + rest)[loc..][..n] == buf[loc..loc + n];
  }

  lemma InOneBuffer(text: string, buf: string, rest: string, loc: nat, all: string, idx: nat, n: nat)
    requires text == buf + rest && Spot(text, loc, all, idx) && (loc >= |buf| ==> rest == "") &&
      (loc + n - 1 < |buf| || loc >= |buf|)
    ensures Sub(buf, loc, if loc + n - 1 < |buf| then n else BUF_SIZE) == Sub(all, idx, n)
  {
    if loc + n - 1 < |buf| {
      WithinBuffer(buf, rest, loc, all, idx, n);
    } else {
      BehindBuffer(buf, loc, all, idx, n);
    }
  }

  ghost predicate Continued(buf: string, loc: nat, all: string, idx: nat, n: nat)
    requires loc < |buf| && loc + n > |buf|
  {
    var k := |buf| - loc;
    Sub(buf, loc, BUF_SIZE).Some? && Sub(all, idx + k, n - k).Some?
    && Sub(all, idx, n) == Some(Sub(buf, loc, BUF_SIZE).value + Sub(all, idx + k, n - k).value)
  }

  /** A substring that goes on behind the first buffer. */
  lemma AcrossBuffers(text: string, buf: string, rest: string, loc: nat, all: string, idx: nat, n: nat)
    requires text == buf + rest && Spot(text, loc, all, idx) && loc < |buf| <= BUF_SIZE && loc + n > |buf|
    ensures Continued(buf, loc, all, idx, n)
  {
    var k := |buf| - loc;
    assert |all| - idx == |(buf + rest)[loc..]| == |buf| + |rest| - loc;
    assert Sub(buf, loc, BUF_SIZE).value == buf[loc..];
    assert all[idx..][..k] == all[idx..idx + k];
    assert (buf + rest)[loc..][..k] == buf[loc..];
    if idx + n <= |all| {
      assert all[idx..idx + n] == all[idx..idx + k] + all[idx + k..idx + n];
    } else {
      assert all[idx..] == all[idx..idx + k] + all[idx + k..];
    }
  }

  /** Position pos of a text and what follows is position idx of the text `all`. */
  ghost predicate Spot(text: string, pos: nat, all: string, idx: nat) {
    |text| - pos == |all| - idx && (idx <= |all| ==> text[pos..] == all[idx..])
  }

  lemma SpotNext(text: string, buf: string, rest: string, pos: nat, all: string, idx: nat)
    requires text == buf + rest && Spot(text, pos, all, idx) && |buf| <= pos
    ensures Spot(rest, pos - |buf|, all, idx)
  {
    if idx <= |all| { NextBuffer(buf, rest, pos); }
  }

  class StreamBuf {
    /** The chunks that read will still return; nil follows the last of them. */
    var input: seq<string>
    var bufList: seq<Option<string>>
    var curBuf: int
    var bufTailIdx: int
    var offset: nat
    var isEos: bool

    /** The text from each buffer on, the chunks still to come included. */
    ghost var tails: seq<string>

    ghost predicate ChunksOk()
      reads this
    {
      && |bufList| == bufTailIdx + 1 && |tails| == |bufList| + 1
      && tails[|bufList|] == Join(input)
      && (forall i :: 0 <= i < |input| ==> ChunkOk(input[i]))
      && (isEos ==> input == [] && 0 <= bufTailIdx && bufList[bufTailIdx] == Some(""))
      && (forall i :: 0 <= i < |bufList| && bufList[i].Some? ==> Holds(i, bufList[i].value))
    }

    /** Buffer i holds characters, except behind the end of the stream, and the text goes on after them. */
    ghost predicate Holds(i: nat, buf: string)
      reads this
      requires i + 1 < |tails|
    {
      && |buf| <= BUF_SIZE && (buf == "" ==> isEos && i == bufTailIdx)
      && tails[i] == buf + tails[i + 1]
    }

    ghost predicate Valid()
      reads this
    {
      && ChunksOk() && -1 <= curBuf <= bufTailIdx
      && (curBuf == -1 ==> isEos && offset == 0)
      && (curBuf >= 0 ==> forall i :: curBuf <= i < |bufList| ==> bufList[i].Some?)
      && (curBuf >= 0 ==> offset < |bufList[curBuf].value| || offset == 0 == |bufList[curBuf].value|)
    }

    /** The part of the stream that has not been dropped. */
    ghost function Contents(): string
      reads this
      requires Valid()
    {
      if curBuf < 0 then "" else tails[curBuf][offset..]
    }

    function BufSize(k: nat): nat
      reads this
      requires k < |bufList| && bufList[k].Some?
    {
      |bufList[k].value|
    }

    constructor (input: seq<string>)
      requires forall i :: 0 <= i < |input| ==> ChunkOk(input[i])
      ensures Valid() && Contents() == Join(input)
    {
      this.input := input;
      bufList := [];
      curBuf := -1;
      bufTailIdx := -1;
      offset := 0;
      isEos := false;
      tails := [Join(input)];
      new;
      var _ := AddBuf();
      curBuf := bufTailIdx;
    }

    /** add_buf: reads one more chunk behind the others, or notes the end of the stream. */
    method AddBuf() returns (more: bool)
      requires ChunksOk()
      modifies this`input, this`bufList, this`bufTailIdx, this`isEos, this`tails
      ensures ChunksOk() && more == !isEos
      ensures old(isEos) ==> isEos && bufList == old(bufList) && input == old(input) && tails == old(tails)
      ensures !old(isEos) ==> |bufList| == |old(bufList)| + 1
      ensures !old(isEos) ==> old(bufList) <= bufList && bufList[|old(bufList)|].Some?
      ensures !old(isEos) ==> old(tails) <= tails
      ensures more ==> |input| < |old(input)|
    {
      if isEos { return false; }
      if input == [] {
        isEos := true;
        bufList := bufList + [Some("")];
        bufTailIdx := bufTailIdx + 1;
        tails := tails + [""];
        more := false;
      } else {
        bufList := bufList + [Some(input[0])];
        input := input[1..];
        bufTailIdx := bufTailIdx + 1;
        tails := tails + [Join(input)];
        more := true;
      }
    }

    /** rel_buf: forgets the current buffer. */
    method RelBuf() returns (more: bool)
      requires ChunksOk() && -1 <= curBuf <= bufTailIdx
      modifies this`bufList, this`curBuf
      ensures old(curBuf) < 0 ==> !more && bufList == old(bufList) && curBuf == -1
      ensures old(curBuf) >= 0 ==> bufList == old(bufList)[old(curBuf) := None] && more == (old(curBuf) != bufTailIdx)
      ensures old(curBuf) >= 0 ==> curBuf == if more then old(curBuf) + 1 else -1
    {
      if curBuf < 0 { return false; }
      bufList := bufList[curBuf := None];
      if curBuf == bufTailIdx {
        curBuf := -1;
        return false;
      }
      curBuf := curBuf + 1;
      return true;
    }

    /** idx_is_eos?: true exactly when nothing is left. */
    predicate IsEos()
      reads this
    {
      isEos && (curBuf < 0 || curBuf == bufTailIdx)
    }

    lemma EosIsEmpty()
      requires Valid()
      ensures IsEos() <==> Contents() == ""
    {
      if curBuf >= 0 {
        assert Holds(curBuf, bufList[curBuf].value);
      }
    }

    /** Reading ahead from the last buffer, or finding nothing behind it. */
    method ReadAhead() returns (more: bool)
      requires Valid() && !IsEos()
      modifies this`input, this`bufList, this`bufTailIdx, this`isEos, this`tails
      ensures Valid() && !IsEos() && Contents() == old(Contents())
      ensures old(bufList) <= bufList && old(tails) <= tails
      ensures if more then |input| < |old(input)| && |bufList| == |old(bufList)| + 1 else tails[|old(bufList)|] == ""
    {
      more := AddBuf();
    }

    /** The search for index idx of the stream `all` stands at a place of one buffer. */
    ghost predicate Searching(myBuf: nat, place: nat, all: string, idx: nat)
      reads this
    {
      && Valid() && !IsEos() && Contents() == all
      && 0 <= curBuf <= myBuf < |bufList|
      && Spot(tails[myBuf], place, all, idx)
    }

    /** Makes sure there is a buffer behind this one, unless the stream ends here. */
    method StepAhead(myBuf: nat, ghost place: nat, ghost all: string, ghost idx: nat) returns (more: bool)
      requires Searching(myBuf, place, all, idx)
      modifies this`input, this`bufList, this`bufTailIdx, this`isEos, this`tails
      ensures Searching(myBuf, place, all, idx) && old(bufList) <= bufList
      ensures if more then myBuf + 1 < |bufList| else tails[myBuf + 1] == ""
      ensures more ==> |input| < |old(input)| || (input == old(input) && |bufList| == |old(bufList)|)
    {
      more := true;
      if myBuf == bufTailIdx {
        more := ReadAhead();
      }
    }

    /** The place is behind the buffer, so it is one of the next buffer. */
    lemma PassBuffer(myBuf: nat, place: nat, all: string, idx: nat)
      requires Searching(myBuf, place, all, idx) && BufSize(myBuf) <= place && myBuf + 1 < |bufList|
      ensures Searching(myBuf + 1, place - BufSize(myBuf), all, idx)
    {
      assert Holds(myBuf, bufList[myBuf].value);
      SpotNext(tails[myBuf], bufList[myBuf].value, tails[myBuf + 1], place, all, idx);
    }

    /** The search loop of []: the buffer that holds the character at idx, or a place behind the end. */
    method Locate(idx: nat) returns (myBuf: nat, loc: nat)
      requires Valid() && !IsEos()
      modifies this`input, this`bufList, this`bufTailIdx, this`isEos, this`tails
      ensures Searching(myBuf, loc, old(Contents()), idx) && Holds(myBuf, bufList[myBuf].value)
      ensures loc >= BufSize(myBuf) ==> tails[myBuf + 1] == ""
    {
      myBuf := curBuf;
      var myOffset: nat := offset;
      var nextIdx: nat := idx;
      ghost var all := Contents();
      while myOffset + nextIdx >= BufSize(myBuf)
        invariant Searching(myBuf, myOffset + nextIdx, all, idx)
        decreases |input|, |bufList| - myBuf
      {
        var more := StepAhead(myBuf, myOffset + nextIdx, all, idx);
        if !more {
          break;
        }
        PassBuffer(myBuf, myOffset + nextIdx, all, idx);
        nextIdx := myOffset + nextIdx - BufSize(myBuf);
        myBuf := myBuf + 1;
        myOffset := 0;
      }
      loc := myOffset + nextIdx;
      assert Holds(myBuf, bufList[myBuf].value);
    }

    /** The character at an index of the stream. */
    method Get(idx: int) returns (c: Option<char>)
      requires Valid()
      modifies this`input, this`bufList, this`bufTailIdx, this`isEos, this`tails
      ensures Valid() && Contents() == old(Contents()) && c == At(Contents(), idx)
    {
      if idx < 0 { return None; }
      EosIsEmpty();
      if IsEos() { return None; }
      var myBuf, loc := Locate(idx);
      c := At(bufList[myBuf].value, loc);
      if loc < BufSize(myBuf) {
        assert tails[myBuf][loc..][0] == Contents()[idx..][0];
      }
    }

    /** A part of the stream, collected buffer by buffer. */
    method GetString(idx: int, n: nat) returns (r: Option<string>)
      requires Valid()
      modifies this`input, this`bufList, this`bufTailIdx, this`isEos, this`tails
      ensures Valid() && Contents() == old(Contents()) && r == Sub(Contents(), idx, n)
      decreases n, 1
    {
      if idx < 0 { return None; }
      EosIsEmpty();
      if IsEos() {
        SubOfNothing(idx, n);
        return if idx == 0 then Some("") else None;
      }
      var myBuf, loc := Locate(idx);
      var buf := bufList[myBuf].value;
      ghost var all, rest := Contents(), tails[myBuf + 1];
      if loc + n - 1 < |buf| || loc >= |buf| {
        InOneBuffer(tails[myBuf], buf, rest, loc, all, idx, n);
        r := Sub(buf, loc, if loc + n - 1 < |buf| then n else BUF_SIZE);
      } else {
        AcrossBuffers(tails[myBuf], buf, rest, loc, all, idx, n);
        r := GetAcross(buf, loc, idx, n);
      }
    }

    /** The recursive case of []: the rest of one buffer, and the remaining characters from behind it. */
    method GetAcross(buf: string, loc: nat, idx: nat, n: nat) returns (r: Option<string>)
      requires Valid() && loc < |buf| && loc + n > |buf| && Continued(buf, loc, Contents(), idx, n)
      modifies this`input, this`bufList, this`bufTailIdx, this`isEos, this`tails
      ensures Valid() && Contents() == old(Contents()) && r == Sub(Contents(), idx, n)
      decreases n, 0
    {
      var res := Sub(buf, loc, BUF_SIZE).value;
      var sizeAdded := |buf| - loc;
      var ret := GetString(idx + sizeAdded, n - sizeAdded);
      return Some(res + ret.value);
    }

    /** The part of drop that gives up the current buffer and turns to the next one. */
    method NextBuf() returns (more: bool)
      requires Valid() && curBuf >= 0 && !IsEos()
      modifies this
      ensures Valid() && Contents() == old(tails[curBuf + 1]) && (!more ==> Contents() == "")
    {
      offset := 0;
      more := RelBuf();
      if !more {
        more := AddBuf();
        if more {
          curBuf := bufTailIdx;
        }
      }
      if curBuf >= 0 { assert Holds(curBuf, bufList[curBuf].value); }
    }

    /** drop within the text that is left. */
    method Drop(n: nat) returns (dropped: nat)
      requires Valid() && n <= |Contents()|
      modifies this
      ensures Valid() && dropped == n && Contents() == old(Contents())[n..]
    {
      EosIsEmpty();
      if IsEos() { return 0; }
      dropped := 0;
      var n': nat := n;
      while n' > 0
        invariant Valid() && dropped + n' == n && n' <= |Contents()| && Contents()[n'..] == old(Contents())[n..]
        decreases n'
      {
        EosIsEmpty();
        ghost var buf, rest := bufList[curBuf].value, tails[curBuf + 1];
        assert Holds(curBuf, buf);
        if offset + n' < BufSize(curBuf) {
          DropInside(buf + rest, offset, n');
          dropped := dropped + n';
          offset := offset + n';
          n' := 0;
        } else {
          var size := BufSize(curBuf) - offset;
          DropBuffer(buf, rest, offset, n');
          dropped := dropped + size;
          n' := n' - size;
          var more := NextBuf();
          if !more {
            break;
          }
        }
      }
    }
  }
}
