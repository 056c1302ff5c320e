/**
 The parser's loops over a string or a StreamBuf, the two readers and the writer.
 */
module CsvReader {
  import opened Common
  import opened CsvFormat
  import opened CsvStream

  /** What parse_body reads from: anything that answers [] like a string. */
  datatype Source = Text(text: string) | Buffer(buf: StreamBuf)

  function Repr(src: Source): set<object> {
    if src.Buffer? then {src.buf} else {}
  }

  ghost predicate Ok(src: Source)
    reads Repr(src)
  {
    src.Buffer? ==> src.buf.Valid()
  }

  ghost function Contents(src: Source): string
    reads Repr(src)
    requires Ok(src)
  {
    if src.Buffer? then src.buf.Contents() else src.text
  }

  /** The character at a position of the text, if there is one. */
  method CharAt(src: Source, idx: nat) returns (c: Option<char>)
    requires Ok(src)
    modifies Repr(src)
    ensures Ok(src) && Contents(src) == old(Contents(src)) && c == At(Contents(src), idx)
  {
    match src
    case Text(text) => c := At(text, idx);
    case Buffer(buf) => c := buf.Get(idx);
  }

  /** A part of the text. */
  method Between(src: Source, from: nat, to: nat) returns (s: string)
    requires Ok(src) && from <= to <= |Contents(src)|
    modifies Repr(src)
    ensures Ok(src) && Contents(src) == old(Contents(src)) && s == Contents(src)[from..to]
  {
    match src
    case Text(text) => s := text[from..to];
    case Buffer(buf) =>
      var r := buf.GetString(from, to - from);
      s := r.value;
  }

  /** The automaton at idx: what it makes of the rest of the text is the whole cell. */
  ghost predicate Reached(text: string, fs: char, whole: Body, idx: nat, st: Scan) {
    idx <= |text| && forall rest :: rest == text[idx..] ==> Behind(idx, ScanFrom(rest, st, fs)) == whole
  }

  /** Copies the pending characters behind the cell. */
  method Collect(src: Source, cell: string, lastIdx: nat, idx: nat) returns (r: string)
    requires Ok(src) && lastIdx <= idx <= |Contents(src)|
    modifies Repr(src)
    ensures Ok(src) && Contents(src) == old(Contents(src)) && r == cell + Contents(src)[lastIdx..idx]
  {
    var part := Between(src, lastIdx, idx);
    r := cell + part;
  }

  /** The branch of the loop for a quote; more is false for IllegalFormatError. */
  method TurnAtQuote(src: Source, ghost st: Scan, idx: nat, lastIdx: nat, cell: string, mode: Mode, quoted: bool,
                     cr: bool)
    returns (more: bool, cell': string, mode': Mode, quoted': bool)
    requires Ok(src) && lastIdx <= idx <= |Contents(src)|
    requires st == Scan(mode, quoted, cr, st.fschar, st.rschar, cell, Contents(src)[lastIdx..idx])
    modifies Repr(src)
    ensures Ok(src) && Contents(src) == old(Contents(src))
    ensures AtQuote(st) == if more then More(Scan(mode', quoted', cr, st.fschar, st.rschar, cell', "")) else Fail
  {
    cell', mode', quoted' := cell, mode, quoted;
    if cr { return false, cell', mode', quoted'; }
    cell' := Collect(src, cell, lastIdx, idx);
    more := true;
    if mode == Data {
      more := quoted;
      quoted' := false;
      mode' := Quote;
    } else if mode == Quote {
      cell' := cell' + "\"";
      quoted' := true;
      mode' := Data;
    } else {
      quoted' := true;
      mode' := Data;
    }
  }

  /** The branch for a carriage return. */
  method TurnAtReturn(src: Source, ghost st: Scan, idx: nat, lastIdx: nat, cell: string, mode: Mode, quoted: bool,
                      cr: bool)
    returns (more: bool, cell': string, mode': Mode, cr': bool)
    requires Ok(src) && lastIdx <= idx <= |Contents(src)|
    requires st == Scan(mode, quoted, cr, st.fschar, st.rschar, cell, Contents(src)[lastIdx..idx])
    modifies Repr(src)
    ensures Ok(src) && Contents(src) == old(Contents(src))
    ensures AtReturn(st) == if more then More(Scan(mode', quoted, cr', st.fschar, st.rschar, cell', "\r")) else Fail
  {
    cell', mode', cr' := cell, mode, cr;
    if cr { return false, cell', mode', cr'; }
    cell' := Collect(src, cell, lastIdx, idx);
    more := true;
    if quoted { mode' := Data; } else { cr' := true; }
  }

  /** The branch for a column or row separator: the cell is complete. */
  method TurnAtSeparator(src: Source, ghost st: Scan, idx: nat, lastIdx: nat, cell: string, mode: Mode, cr: bool,
                         fschar: bool)
    returns (r: Body)
    requires Ok(src) && lastIdx <= idx <= |Contents(src)|
    requires st == Scan(mode, st.quoted, cr, fschar, st.rschar, cell, Contents(src)[lastIdx..idx])
    modifies Repr(src)
    ensures Ok(src) && Contents(src) == old(Contents(src))
    ensures var next := if fschar then AtColSep(st) else AtRowSep(st);
            r == if next.Fail? then Illegal else Body(next.sep, idx + 1, next.cell)
  {
    var cell' := cell;
    if fschar {
      cell' := Collect(src, cell, lastIdx, idx);
      if cr { return Illegal; }
    } else if !cr {
      cell' := Collect(src, cell, lastIdx, idx);
    }
    return Body(if fschar then ColSep else RowSep, idx + 1, if mode == Start then None else Some(cell'));
  }

  /** The pending characters after one more turn, kept, started anew or dropped. */
  lemma Slices(text: string, lastIdx: nat, idx: nat)
    requires lastIdx <= idx < |text|
    ensures text[lastIdx..idx + 1] == text[lastIdx..idx] + [text[idx]]
    ensures text[idx..idx + 1] == [text[idx]] && text[idx + 1..idx + 1] == ""
  {
  }

  /** What a turn of the loop means for the automaton: an early return, or the next state. */
  ghost predicate Turned(next: Next, ret: Option<Body>, idx: nat, st: Scan) {
    match next
    case Fail => ret == Some(Illegal)
    case Done(sep, cell) => ret == Some(Body(sep, idx + 1, cell))
    case More(st') => ret == None && st' == st
  }

  lemma ReachedNext(text: string, fs: char, whole: Body, idx: nat, st: Scan, ret: Option<Body>, st': Scan)
    requires Reached(text, fs, whole, idx, st) && idx < |text| && Turned(Step(st, text[idx], fs), ret, idx, st')
    ensures if ret.Some? then ret.value == whole else Reached(text, fs, whole, idx + 1, st')
  {
    var rest := text[idx..];
    assert rest[0] == text[idx] && rest[1..] == text[idx + 1..];
    assert Behind(idx, ScanFrom(rest, st, fs)) == whole;
  }

  /** One turn of the loop, with the loop's variables before and after it. */
  method Turn(src: Source, ghost text: string, ghost st: Scan, c: char, fs: char, idx: nat, last: nat,
              cell: string, mode: Mode, quoted: bool, cr: bool, fschar: bool, rschar: bool)
    returns (ret: Option<Body>, last': nat, cell': string, mode': Mode, quoted': bool, cr': bool, fschar': bool,
             rschar': bool)
    requires Ok(src) && text == Contents(src) && last <= idx < |text| && c == text[idx]
    requires st == Scan(mode, quoted, cr, fschar, rschar, cell, text[last..idx])
    modifies Repr(src)
    ensures Ok(src) && Contents(src) == text && last <= last' <= idx + 1
    ensures Turned(Step(st, text[idx], fs), ret, idx,
                   Scan(mode', quoted', cr', fschar', rschar', cell', text[last'..idx + 1]))
  {
    Slices(text, last, idx);
    ret, last', cell', mode', quoted', cr', fschar', rschar' := None, last, cell, mode, quoted, cr, fschar, rschar;
    if !quoted {
      fschar' := c == fs;
      rschar' := c == '\n';
    }
    ghost var s := st.(fschar := fschar', rschar := rschar');
    var more := true;
    if c == '"' {
      more, cell', mode', quoted' := TurnAtQuote(src, s, idx, last, cell, mode, quoted, cr);
      last' := idx + 1;
    } else if fschar' || rschar' {
      var body := TurnAtSeparator(src, s, idx, last, cell, mode, cr, fschar');
      ret := Some(body);
    } else if c == '\r' {
      more, cell', mode', cr' := TurnAtReturn(src, s, idx, last, cell, mode, quoted, cr);
      last' := idx;
    } else {
      more := mode != Quote && !cr;
      mode' := Data;
    }
    if !more { ret := Some(Illegal); }
  }

  /** A turn carries the automaton one character on, or gives the result of the whole cell. */
  method Advance(src: Source, ghost text: string, ghost whole: Body, c: char, fs: char, idx: nat, last: nat,
                 cell: string, mode: Mode, quoted: bool, cr: bool, fschar: bool, rschar: bool)
    returns (ret: Option<Body>, last': nat, cell': string, mode': Mode, quoted': bool, cr': bool, fschar': bool,
             rschar': bool)
    requires Ok(src) && text == Contents(src) && last <= idx < |text| && c == text[idx]
    requires Reached(text, fs, whole, idx, Scan(mode, quoted, cr, fschar, rschar, cell, text[last..idx]))
    modifies Repr(src)
    ensures Ok(src) && Contents(src) == text && last <= last' <= idx + 1
    ensures if ret.Some? then ret.value == whole
            else Reached(text, fs, whole, idx + 1,
                         Scan(mode', quoted', cr', fschar', rschar', cell', text[last'..idx + 1]))
  {
    ghost var st := Scan(mode, quoted, cr, fschar, rschar, cell, text[last..idx]);
    ret, last', cell', mode', quoted', cr', fschar', rschar' :=
      Turn(src, text, st, c, fs, idx, last, cell, mode, quoted, cr, fschar, rschar);
    ReachedNext(text, fs, whole, idx, st, ret,
                Scan(mode', quoted', cr', fschar', rschar', cell', text[last'..idx + 1]));
  }

  /** Behind the last character. */
  method Finish(src: Source, ghost text: string, ghost whole: Body, ghost fs: char, ghost st: Scan,
                idx: nat, last: nat, cell: string, mode: Mode, quoted: bool, cr: bool) returns (r: Body)
    requires Ok(src) && text == Contents(src) && last <= idx == |text|
    requires st == Scan(mode, quoted, cr, st.fschar, st.rschar, cell, text[last..idx])
    requires Reached(text, fs, whole, idx, st)
    modifies Repr(src)
    ensures Ok(src) && Contents(src) == text && r == whole
  {
    assert text[idx..] == "";
    assert Behind(idx, ScanFrom("", st, fs)) == whole;
    if mode == Start { return Body(Eos, idx, None); }
    if quoted || cr { return Illegal; }
    var cell' := Collect(src, cell, last, idx);
    return Body(Eos, idx, Some(cell'));
  }

  /** The loop of parse_body from a fresh automaton to the end of the cell. */
  method ReadCell(src: Source, start: nat, fs: char, ghost whole: Body) returns (r: Body)
    requires Ok(src) && Reached(Contents(src), fs, whole, start, Fresh())
    modifies Repr(src)
    ensures Ok(src) && Contents(src) == old(Contents(src)) && r == whole
  {
    ghost var text := Contents(src);
    var idx, lastIdx := start, start;
    var cell := "";
    var mode := Start;
    var quoted, cr, fschar, rschar := false, false, false, false;
    assert text[lastIdx..idx] == "";
    var c := CharAt(src, idx);
    while c.Some?
      invariant Ok(src) && Contents(src) == text && c == At(text, idx)
      invariant start <= lastIdx <= idx <= |text|
      invariant Reached(text, fs, whole, idx, Scan(mode, quoted, cr, fschar, rschar, cell, text[lastIdx..idx]))
      decreases |text| - idx
    {
      var ret: Option<Body>;
      ret, lastIdx, cell, mode, quoted, cr, fschar, rschar :=
        Advance(src, text, whole, c.value, fs, idx, lastIdx, cell, mode, quoted, cr, fschar, rschar);
      if ret.Some? { return ret.value; }
      idx := idx + 1;
      c := CharAt(src, idx);
    }
    r := Finish(src, text, whole, fs, Scan(mode, quoted, cr, fschar, rschar, cell, text[lastIdx..idx]),
                idx, lastIdx, cell, mode, quoted, cr);
  }

  /** parse_body: one cell from start on, with the index behind its separator. */
  method ReadBody(src: Source, start: nat, fs: char) returns (r: Body)
    requires Ok(src) && start <= |Contents(src)|
    modifies Repr(src)
    ensures Ok(src) && Contents(src) == old(Contents(src))
    ensures r == Behind(start, ParseBody(Contents(src)[start..], fs))
  {
    r := ReadCell(src, start, fs, Behind(start, ParseBody(Contents(src)[start..], fs)));
  }

  // ---- rows

  /** parse_row: the number of cells and the index behind the row, or zeros for the end of the
      text and for a format error. */
  method ReadRow(src: Source, start: nat, fs: char) returns (parsedCells: nat, next: nat, outDev: Row)
    requires Ok(src) && start <= |Contents(src)|
    modifies Repr(src)
    ensures Ok(src) && Contents(src) == old(Contents(src))
    ensures var r := ParseRow(Contents(src)[start..], fs);
            if r.Malformed? || r.cells == [] then parsedCells == 0 == next
            else parsedCells == |outDev| && outDev == r.cells && next == start + r.used
  {
    ghost var text := Contents(src);
    var idx := start;
    outDev := [];
    var sep := ColSep;
    while sep != RowSep
      invariant Ok(src) && Contents(src) == text && start <= idx <= |text|
      invariant RowReached(text, start, fs, outDev, sep, idx)
      invariant outDev != [] ==> start < idx
      decreases sep != RowSep, |text| - idx
    {
      RowReachedNext(text, start, fs, outDev, idx);
      var b := ReadBody(src, idx, fs);
      if b.Illegal? { return 0, 0, outDev; }
      sep, idx := b.sep, b.used;
      if sep == Eos {
        if idx == start { return 0, 0, outDev; }
        sep := RowSep;
      }
      outDev := outDev + [b.cell];
    }
    return |outDev|, idx, outDev;
  }

  /** parse_line: the cells up to the first row separator, or none of them after a format error. */
  method ReadLine(src: Source, fs: char) returns (row: Row)
    requires Ok(src)
    modifies Repr(src)
    ensures Ok(src) && Contents(src) == old(Contents(src)) && row == ParseLine(Contents(src), fs)
  {
    ghost var text := Contents(src);
    var idx, sep := 0, ColSep;
    row := [];
    assert text[0..] == text;
    while sep == ColSep
      invariant Ok(src) && Contents(src) == text && 0 <= idx <= |text|
      invariant RowReached(text, 0, fs, row, if sep == Eos then RowSep else sep, idx)
      decreases sep == ColSep, |text| - idx
    {
      RowReachedNext(text, 0, fs, row, idx);
      var b := ReadBody(src, idx, fs);
      if b.Illegal? { return []; }
      sep, idx := b.sep, b.used;
      row := row + [b.cell];
    }
  }

  /** Of the row's cells, `done` have been read; behind a column separator there are more. */
  ghost predicate RowReached(text: string, start: nat, fs: char, done: Row, sep: Sep, idx: nat) {
    && start <= idx <= |text|
    && var all := ParseCells(text[start..], fs);
       if sep == RowSep then all == RowResult(done, idx - start)
       else
         var rest := ParseCells(text[idx..], fs);
         all == if rest.Malformed? then Malformed else RowResult(done + rest.cells, idx - start + rest.used)
  }

  lemma RowReachedNext(text: string, start: nat, fs: char, done: Row, idx: nat)
    requires RowReached(text, start, fs, done, ColSep, idx)
    ensures var b := Behind(idx, ParseBody(text[idx..], fs));
            if b.Illegal? then ParseCells(text[start..], fs) == Malformed
            else RowReached(text, start, fs, done + [b.cell], if b.sep == Eos then RowSep else b.sep, b.used)
  {
    var b := ParseBody(text[idx..], fs);
    if b.Body? {
      if b.sep == ColSep {
        assert text[idx..][b.used..] == text[idx + b.used..];
        var rest := ParseCells(text[idx + b.used..], fs);
        if rest.RowResult? { assert done + [b.cell] + rest.cells == done + ([b.cell] + rest.cells); }
      }
    }
  }

  // ---- readers

  /** Rows read so far, and what is left in front of the reader. */
  ghost predicate RowsReached(all: Rows, done: seq<Row>, rest: string, fs: char) {
    var r := Parse(rest, fs);
    all == Rows(done + r.rows, r.ok)
  }

  lemma RowsReachedNext(all: Rows, done: seq<Row>, rest: string, fs: char)
    requires RowsReached(all, done, rest, fs)
    ensures var r := ParseRow(rest, fs);
            if r.Malformed? then all == Rows(done, false)
            else if r.cells == [] then all == Rows(done, true)
            else r.used > 0 && RowsReached(all, done + [r.cells], rest[r.used..], fs)
  {
    var r := ParseRow(rest, fs);
    if r.Malformed? || r.cells == [] {
      assert done + [] == done;
    } else {
      var more := Parse(rest[r.used..], fs).rows;
      assert done + [r.cells] + more == done + ([r.cells] + more);
    }
  }

  predicate MarkedBy(text: string) {
    At(text, 0) == Some('\U{ef}') && At(text, 1) == Some('\U{bb}') && At(text, 2) == Some('\U{bf}')
  }

  lemma StartsWithBom(text: string)
    ensures BOM <= text <==> MarkedBy(text)
    ensures MarkedBy(text) ==> |text| >= 3
  {
  }

  class StringReader {
    const dev: string
    const fs: char
    var idx: nat

    constructor (dev: string, fs: char)
      ensures this.dev == dev && this.fs == fs && idx <= |dev| && dev[idx..] == AfterBom(dev)
    {
      this.dev := dev;
      this.fs := fs;
      idx := if BOM <= dev then 3 else 0;
    }

    /** get_row; ok is false where IllegalFormatError is raised. */
    method GetRow() returns (parsedCells: nat, row: Row, ok: bool)
      requires idx <= |dev|
      modifies this
      ensures var r := ParseRow(old(dev[idx..]), fs);
              if r.Malformed? then !ok
              else ok && parsedCells == |r.cells| && (r.cells != [] ==> row == r.cells && idx == old(idx) + r.used)
    {
      var next: nat;
      parsedCells, next, row := ReadRow(Text(dev), idx, fs);
      if parsedCells == 0 && next == 0 && idx != |dev| {
        return parsedCells, row, false;
      }
      idx := next;
      ok := true;
    }

    /** each, with the rows it yields. */
    method Each() returns (rows: seq<Row>, ok: bool)
      requires idx <= |dev|
      modifies this
      ensures Rows(rows, ok) == Parse(old(dev[idx..]), fs)
    {
      rows := [];
      ghost var all := Parse(dev[idx..], fs);
      while true
        invariant idx <= |dev| && RowsReached(all, rows, dev[idx..], fs)
        decreases |dev| - idx
      {
        ghost var rest := dev[idx..];
        RowsReachedNext(all, rows, rest, fs);
        var parsedCells, row, more := GetRow();
        if !more { return rows, false; }
        if parsedCells == 0 { return rows, true; }
        assert rest[ParseRow(rest, fs).used..] == dev[idx..];
        rows := rows + [row];
      }
    }
  }

  /** Whether the stream's first three characters are the mark. */
  method StartsMarked(dev: StreamBuf) returns (marked: bool)
    requires dev.Valid()
    modifies dev
    ensures dev.Valid() && dev.Contents() == old(dev.Contents())
    ensures marked == MarkedBy(dev.Contents())
  {
    var a := dev.Get(0);
    var b := dev.Get(1);
    var c := dev.Get(2);
    marked := a == Some('\U{ef}') && b == Some('\U{bb}') && c == Some('\U{bf}');
  }

  class IOReader {
    const dev: StreamBuf
    const fs: char
    var idx: nat

    /** The stream's text in front of the reader; the mark is only dropped with the first row. */
    ghost predicate Valid()
      reads this, dev
    {
      dev.Valid() && idx <= |dev.Contents()|
    }

    constructor (input: seq<string>, fs: char)
      requires forall i :: 0 <= i < |input| ==> ChunkOk(input[i])
      ensures Valid() && fresh(dev) && this.fs == fs
      ensures dev.Contents() == Join(input) && idx == if BOM <= Join(input) then 3 else 0
    {
      this.fs := fs;
      dev := new StreamBuf(input);
      idx := 0;
      new;
      StartsWithBom(dev.Contents());
      var marked := StartsMarked(dev);
      if marked {
        idx := 3;
      }
    }

    /** What is in front of the reader. */
    ghost function Left(): string
      reads this, dev
      requires Valid()
    {
      dev.Contents()[idx..]
    }

    /** get_row; ok is false where IllegalFormatError is raised. */
    method GetRow() returns (parsedCells: nat, row: Row, ok: bool)
      requires Valid()
      modifies this, dev
      ensures ok ==> Valid()
      ensures var r := ParseRow(old(Left()), fs);
              if r.Malformed? then !ok
              else if r.cells == [] then ok == (old(idx) == 0) && parsedCells == 0
              else ok && parsedCells == |r.cells| && row == r.cells && idx == 0 && Left() == old(Left())[r.used..]
    {
      var next: nat;
      parsedCells, next, row := ReadRow(Buffer(dev), idx, fs);
      dev.EosIsEmpty();
      if parsedCells == 0 && next == 0 && !dev.IsEos() {
        return parsedCells, row, false;
      }
      Forget(next);
      ok := true;
    }

    /** Drops what has been read. */
    method Forget(n: nat)
      requires dev.Valid() && n <= |dev.Contents()|
      modifies this, dev
      ensures Valid() && idx == 0 && Left() == old(dev.Contents())[n..]
    {
      var dropped := dev.Drop(n);
      idx := n - dropped;
    }

    /** each, with the rows it yields: those of the text behind the mark, except that a stream of
        nothing but the mark is a format error. */
    method Each() returns (rows: seq<Row>, ok: bool)
      requires Valid()
      modifies this, dev
      ensures Rows(rows, ok) == if 0 < old(idx) && old(Left()) == "" then Rows([], false) else Parse(old(Left()), fs)
    {
      rows := [];
      ghost var all := Parse(Left(), fs);
      while true
        invariant Valid() && RowsReached(all, rows, Left(), fs)
        invariant if rows == [] then idx == old(idx) && Left() == old(Left()) else idx == 0
        decreases |Left()|
      {
        ghost var rest := Left();
        RowsReachedNext(all, rows, rest, fs);
        var parsedCells, row, more := GetRow();
        if !more { return rows, false; }
        if parsedCells == 0 { return rows, true; }
        rows := rows + [row];
      }
    }
  }

  /** Reader.parse on a string. */
  method ParseString(text: string, fs: char) returns (rows: seq<Row>, ok: bool)
    ensures Rows(rows, ok) == Parse(AfterBom(text), fs)
  {
    var reader := new StringReader(text, fs);
    rows, ok := reader.Each();
  }

  /** Reader.parse on a stream gives what it gives on the string of all its chunks, however they
      are cut, unless that string is the byte order mark alone. */
  method ParseStream(input: seq<string>, fs: char) returns (rows: seq<Row>, ok: bool)
    requires forall i :: 0 <= i < |input| ==> ChunkOk(input[i])
    ensures Join(input) != BOM ==> Rows(rows, ok) == Parse(AfterBom(Join(input)), fs)
    ensures Join(input) == BOM ==> rows == [] && !ok && Parse(AfterBom(Join(input)), fs) == Rows([], true)
  {
    var reader := new IOReader(input, fs);
    rows, ok := reader.Each();
  }
}
