/**
 The texts a list of rows can be read from, without the automaton: cells plain or in quotes, rows
 ended by a line feed or by a carriage return and a line feed.
 */
module CsvGrammar {
  import opened Common
  import opened CsvFormat
  import opened CsvRoundTrip

  /** Cells with a separator between each two. */
  ghost predicate LineText(g: string, row: Row, fs: char)
    decreases |row|
  {
    if |row| <= 1 then row != [] && CellText(g, row[0], fs)
    else exists i :: FirstCell(g, i, row[0], fs) && LineText(g[i + 1..], row[1..], fs)
  }

  ghost predicate FirstCell(g: string, i: int, cell: Cell, fs: char) {
    0 <= i < |g| && g[i] == fs && CellText(g[..i], cell, fs)
  }

  /** What may be left at the end of a text: a row without a line end, or with a carriage return
      alone behind a last cell that is nil. */
  ghost predicate LastLine(text: string, row: Row, fs: char) {
    LineText(text, row, fs) || (LoneReturn(text, row, fs) && LineText(text[..|text| - 1], row, fs))
  }

  predicate LoneReturn(text: string, row: Row, fs: char) {
    fs != '\r' && text != "" && text[|text| - 1] == '\r' && row != [] && row[|row| - 1].None?
  }

  /** Rows with their line ends; the last one may lack it. */
  ghost predicate TextOf(text: string, rows: seq<Row>, fs: char)
    decreases |rows|
  {
    if rows == [] then text == ""
    else
      || (|rows| == 1 && text != "" && LastLine(text, rows[0], fs))
      || (exists i, j :: FirstLine(text, i, j, rows[0], fs) && TextOf(text[j..], rows[1..], fs))
  }

  ghost predicate FirstLine(text: string, i: int, j: int, row: Row, fs: char) {
    0 <= i < j <= |text| && LineText(text[..i], row, fs) && LineEnd(text[i..j], fs)
  }

  // ---- what the automaton has read

  ghost predicate CellForm(mode: Mode, content: string, p: string, fs: char) {
    match mode
    case Start => p == "" == content
    case Data => p == content && content != "" && Plain(content, fs)
    case Quote => p == Quoted(content)
  }

  /** The state of the automaton behind the characters p of a cell. */
  ghost predicate HasRead(st: Scan, p: string, fs: char) {
    if st.cr then
      && !st.quoted && fs != '\r' && p != "" && p[|p| - 1] == '\r'
      && CellForm(st.mode, st.cell, p[..|p| - 1], fs)
    else if st.quoted then
      st.mode == Data && !st.fschar && !st.rschar && p == "\"" + DoubleQuotes(st.cell + st.pending)
    else CellForm(st.mode, st.cell + st.pending, p, fs)
  }

  /** The characters p of a cell and a line end or separator behind it. */
  ghost predicate CellEnds(p: string, c: char, sep: Sep, cell: Cell, fs: char) {
    match sep
    case ColSep => c == fs && CellText(p, cell, fs)
    case RowSep =>
      c == '\n' && (CellText(p, cell, fs) ||
                    (p != "" && p[|p| - 1] == '\r' && fs != '\r' && CellText(p[..|p| - 1], cell, fs)))
    case Eos => false
  }

  ghost predicate HasStepped(next: Next, p: string, c: char, fs: char) {
    match next
    case Fail => true
    case Done(sep, cell) => CellEnds(p, c, sep, cell, fs)
    case More(st') => HasRead(st', p + [c], fs)
  }

  lemma {:induction false} DoubleAppend(s: string, c: char)
    ensures DoubleQuotes(s + [c]) == DoubleQuotes(s) + if c == '"' then "\"\"" else [c]
  {
    if s != "" {
      DoubleAppend(s[1..], c);
      assert (s + [c])[1..] == s[1..] + [c];
    }
  }

  lemma QuotedStep(st: Scan, p: string, c: char, fs: char)
    requires Usable(fs) && HasRead(st, p, fs) && st.quoted
    ensures HasStepped(Step(st, c, fs), p, c, fs)
  {
    var content := st.cell + st.pending;
    DoubleAppend(content, c);
    if c == '"' {
      assert content + "" == content;
    } else {
      assert st.cell + (st.pending + [c]) == content + [c];
    }
  }

  lemma ReturnStep(st: Scan, p: string, c: char, fs: char)
    requires Usable(fs) && HasRead(st, p, fs) && st.cr
    ensures HasStepped(Step(st, c, fs), p, c, fs)
  {
    CellFormText(st.mode, st.cell, p[..|p| - 1], fs);
  }

  lemma CellFormText(mode: Mode, content: string, p: string, fs: char)
    requires CellForm(mode, content, p, fs)
    ensures CellText(p, if mode.Start? then None else Some(content), fs)
  {
  }

  lemma QuoteStep(st: Scan, p: string, fs: char)
    requires Usable(fs) && HasRead(st, p, fs) && !st.quoted && !st.cr
    ensures HasStepped(Step(st, '"', fs), p, '"', fs)
  {
    var content := st.cell + st.pending;
    DoubleAppend(content, '"');
    assert content + "\"" + "" == content + "\"";
  }

  /** A separator or a line feed. */
  lemma EndStep(st: Scan, p: string, c: char, fs: char)
    requires Usable(fs) && HasRead(st, p, fs) && !st.quoted && !st.cr && (c == fs || c == '\n')
    ensures HasStepped(Step(st, c, fs), p, c, fs)
  {
    CellFormText(st.mode, st.cell + st.pending, p, fs);
  }

  /** A carriage return that is not the separator. */
  lemma ReturnSeen(st: Scan, p: string, fs: char)
    requires Usable(fs) && HasRead(st, p, fs) && !st.quoted && !st.cr && fs != '\r'
    ensures HasStepped(Step(st, '\r', fs), p, '\r', fs)
  {
    assert (p + ['\r'])[..|p|] == p;
  }

  /** Any other character. */
  lemma PlainStep(st: Scan, p: string, c: char, fs: char)
    requires Usable(fs) && HasRead(st, p, fs) && !st.quoted && !st.cr && c != fs && c !in {'"', '\n', '\r'}
    ensures HasStepped(Step(st, c, fs), p, c, fs)
  {
    assert st.cell + (st.pending + [c]) == st.cell + st.pending + [c];
  }

  lemma StepReads(st: Scan, p: string, c: char, fs: char)
    requires Usable(fs) && HasRead(st, p, fs)
    ensures HasStepped(Step(st, c, fs), p, c, fs)
  {
    if st.quoted {
      QuotedStep(st, p, c, fs);
    } else if st.cr {
      ReturnStep(st, p, c, fs);
    } else if c == '"' {
      QuoteStep(st, p, fs);
    } else if c == fs || c == '\n' {
      EndStep(st, p, c, fs);
    } else if c == '\r' {
      ReturnSeen(st, p, fs);
    } else {
      PlainStep(st, p, c, fs);
    }
  }

  /** A cell read from the front of a text, and what ends it. */
  ghost predicate CellRead(text: string, b: Body, fs: char) {
    b.Body? ==>
      if b.sep.Eos? then b.used == |text| && LastCell(text, b.cell, fs)
      else 0 < b.used <= |text| && CellEnds(text[..b.used - 1], text[b.used - 1], b.sep, b.cell, fs)
  }

  predicate LastCell(text: string, cell: Cell, fs: char) {
    CellText(text, cell, fs) || (fs != '\r' && text == "\r" && cell.None?)
  }

  lemma EndReads(p: string, st: Scan, fs: char)
    requires Usable(fs) && HasRead(st, p, fs)
    ensures CellRead(p, Behind(|p|, ScanFrom("", st, fs)), fs)
  {
    if st.cr {
      if st.mode.Start? { assert p == p[..|p| - 1] + ['\r'] == "\r"; }
    } else if !st.quoted {
      CellFormText(st.mode, st.cell + st.pending, p, fs);
    }
  }

  lemma {:induction false} ScanReads(p: string, text: string, st: Scan, fs: char)
    requires Usable(fs) && HasRead(st, p, fs)
    ensures CellRead(p + text, Behind(|p|, ScanFrom(text, st, fs)), fs)
    decreases |text|
  {
    if text == "" {
      assert p + text == p;
      EndReads(p, st, fs);
    } else {
      var c := text[0];
      var next := Step(st, c, fs);
      StepReads(st, p, c, fs);
      if next.More? {
        ScanReads(p + [c], text[1..], next.scan, fs);
        MoreReads(p, text, st, next.scan, fs);
      } else {
        LastStepReads(p, text, st, fs);
      }
    }
  }

  lemma MoreReads(p: string, text: string, st: Scan, st': Scan, fs: char)
    requires text != "" && Step(st, text[0], fs) == More(st')
    requires CellRead(p + [text[0]] + text[1..], Behind(|p| + 1, ScanFrom(text[1..], st', fs)), fs)
    ensures CellRead(p + text, Behind(|p|, ScanFrom(text, st, fs)), fs)
  {
    assert p + text == p + [text[0]] + text[1..];
  }

  lemma LastStepReads(p: string, text: string, st: Scan, fs: char)
    requires text != "" && !Step(st, text[0], fs).More? && HasStepped(Step(st, text[0], fs), p, text[0], fs)
    ensures CellRead(p + text, Behind(|p|, ScanFrom(text, st, fs)), fs)
  {
    assert (p + text)[..|p|] == p && (p + text)[|p|] == text[0];
  }

  lemma BodyReads(text: string, fs: char)
    requires Usable(fs)
    ensures CellRead(text, ParseBody(text, fs), fs)
  {
    ScanReads("", text, Fresh(), fs);
    assert "" + text == text;
  }

  // ---- rows

  /** A row read from the front of a text: its cells end at i, and its line end at used. */
  ghost predicate LineRead(text: string, row: Row, i: int, used: nat, fs: char) {
    (used == |text| && LastLine(text, row, fs)) || FirstLine(text, i, used, row, fs)
  }

  /** A cell in front of the text of a row. */
  lemma CellJoined(text: string, k: nat, row: Row, g: string, fs: char)
    requires |row| > 1 && FirstCell(text, k, row[0], fs) && k < |g| && g <= text
    requires LineText(g[k + 1..], row[1..], fs)
    ensures LineText(g, row, fs)
  {
    assert g[..k] == text[..k];
    assert FirstCell(g, k, row[0], fs);
  }

  lemma FirstLineJoined(text: string, k: nat, row: Row, i: int, used: int, fs: char)
    requires |row| > 1 && FirstCell(text, k, row[0], fs) && FirstLine(text[k + 1..], i, used, row[1..], fs)
    ensures FirstLine(text, k + 1 + i, k + 1 + used, row, fs)
  {
    var rest, g := text[k + 1..], text[..k + 1 + i];
    assert g[k + 1..] == rest[..i];
    CellJoined(text, k, row, g, fs);
    assert text[k + 1 + i..k + 1 + used] == rest[i..used];
  }

  lemma LastLineJoined(text: string, k: nat, row: Row, fs: char)
    requires |row| > 1 && FirstCell(text, k, row[0], fs) && LastLine(text[k + 1..], row[1..], fs)
    ensures LastLine(text, row, fs)
  {
    var rest := text[k + 1..];
    if LineText(rest, row[1..], fs) {
      CellJoined(text, k, row, text, fs);
    } else {
      var g := text[..|text| - 1];
      assert g[k + 1..] == rest[..|rest| - 1];
      CellJoined(text, k, row, g, fs);
    }
  }

  lemma LineJoined(text: string, k: nat, row: Row, i: int, used: nat, fs: char)
    requires |row| > 1 && FirstCell(text, k, row[0], fs) && LineRead(text[k + 1..], row[1..], i, used, fs)
    ensures LineRead(text, row, k + 1 + i, k + 1 + used, fs)
  {
    if FirstLine(text[k + 1..], i, used, row[1..], fs) {
      FirstLineJoined(text, k, row, i, used, fs);
    } else {
      LastLineJoined(text, k, row, fs);
    }
  }

  lemma LastCellIsLine(text: string, cell: Cell, fs: char)
    requires LastCell(text, cell, fs)
    ensures LastLine(text, [cell], fs)
  {
    if !CellText(text, cell, fs) { assert text[..|text| - 1] == ""; }
  }

  lemma CellIsLine(text: string, b: Body, fs: char) returns (i: int)
    requires b.Body? && !b.sep.ColSep? && CellRead(text, b, fs)
    ensures LineRead(text, [b.cell], i, b.used, fs)
  {
    if b.sep.Eos? {
      LastCellIsLine(text, b.cell, fs);
      i := |text|;
    } else {
      var p := text[..b.used - 1];
      i := b.used - 1;
      if !CellText(p, b.cell, fs) {
        i := b.used - 2;
        assert p[..|p| - 1] == text[..i];
      }
    }
  }

  lemma {:induction false} CellsReadLine(text: string, fs: char) returns (i: int)
    requires Usable(fs) && ParseCells(text, fs).RowResult?
    ensures LineRead(text, ParseCells(text, fs).cells, i, ParseCells(text, fs).used, fs)
    decreases |text|
  {
    var b := ParseBody(text, fs);
    BodyReads(text, fs);
    if b.sep.ColSep? {
      var rest := ParseCells(text[b.used..], fs);
      var row := [b.cell] + rest.cells;
      assert row[1..] == rest.cells;
      i := CellsReadLine(text[b.used..], fs);
      LineJoined(text, b.used - 1, row, i, rest.used, fs);
      i := b.used + i;
    } else {
      i := CellIsLine(text, b, fs);
    }
  }

  lemma RowsJoined(text: string, i: int, j: int, rows: seq<Row>, fs: char)
    requires rows != [] && FirstLine(text, i, j, rows[0], fs) && TextOf(text[j..], rows[1..], fs)
    ensures TextOf(text, rows, fs)
  {
  }

  /** A text that is parsed into rows is a text of those rows. */
  lemma {:induction false} ParsedIsText(text: string, rows: seq<Row>, fs: char)
    requires Usable(fs) && Parse(text, fs) == Rows(rows, true)
    ensures TextOf(text, rows, fs)
    decreases |text|
  {
    if text != "" {
      var r := ParseCells(text, fs);
      var i := CellsReadLine(text, fs);
      assert rows[0] == r.cells && rows[1..] == Parse(text[r.used..], fs).rows;
      if FirstLine(text, i, r.used, rows[0], fs) {
        ParsedIsText(text[r.used..], rows[1..], fs);
        RowsJoined(text, i, r.used, rows, fs);
      } else {
        assert text[r.used..] == "";
        assert Parse("", fs) == Rows([], true);
      }
    }
  }

  // ---- and the other way

  /** What may follow the cells of a row. */
  predicate Ending(rest: string, row: Row, fs: char) {
    || rest == "" || "\n" <= rest || (fs != '\r' && "\r\n" <= rest)
    || (rest == "\r" && LoneReturn(rest, row, fs))
  }

  lemma LoneReturnRead(fs: char)
    requires Usable(fs) && fs != '\r'
    ensures ParseBody("\r", fs) == Body(Eos, 1, None)
  {
    var st := Fresh().(pending := "\r", cr := true);
    assert "" + "" == "";
    assert Step(Fresh(), '\r', fs) == More(st);
    assert "\r"[1..] == "";
  }

  lemma LastCellReads(g: string, cell: Cell, rest: string, fs: char)
    requires Usable(fs) && CellText(g, cell, fs) && Ending(rest, [cell], fs)
    ensures ParseCells(g + rest, fs) == RowResult([cell], |g| + Used(rest, fs))
  {
    if rest == "\r" {
      assert rest[0] == '\r' && LoneReturn(rest, [cell], fs);
      LoneReturnRead(fs);
      assert g + rest == "\r";
    } else {
      CellReads(g, cell, rest, fs);
    }
  }

  lemma {:induction false} LineReads(g: string, row: Row, rest: string, fs: char)
    requires Usable(fs) && LineText(g, row, fs) && Ending(rest, row, fs)
    ensures ParseCells(g + rest, fs) == RowResult(row, |g| + Used(rest, fs))
    decreases |row|
  {
    if |row| == 1 {
      LastCellReads(g, row[0], rest, fs);
      assert [row[0]] == row;
    } else {
      var i :| FirstCell(g, i, row[0], fs) && LineText(g[i + 1..], row[1..], fs);
      LineReads(g[i + 1..], row[1..], rest, fs);
      FirstCellReads(g, i, row, rest, |g| - i - 1 + Used(rest, fs), fs);
    }
  }

  lemma FirstCellReads(g: string, i: nat, row: Row, rest: string, n: nat, fs: char)
    requires Usable(fs) && |row| > 1 && FirstCell(g, i, row[0], fs)
    requires ParseCells(g[i + 1..] + rest, fs) == RowResult(row[1..], n)
    ensures ParseCells(g + rest, fs) == RowResult(row, i + 1 + n)
  {
    var others := g[i + 1..] + rest;
    CellsSplit(g, i, rest, fs);
    CellReads(g[..i], row[0], [fs] + others, fs);
    CellThenCells(g + rest, i + 1, others, row, n, fs);
  }

  lemma CellsSplit(g: string, i: nat, rest: string, fs: char)
    requires i < |g| && g[i] == fs
    ensures g + rest == g[..i] + ([fs] + (g[i + 1..] + rest)) && (g + rest)[i + 1..] == g[i + 1..] + rest
  {
  }

  lemma LastLineRead(text: string, row: Row, fs: char)
    requires Usable(fs) && text != "" && LastLine(text, row, fs)
    ensures Parse(text, fs) == Rows([row], true)
  {
    LastCellsRead(text, row, fs);
    assert text[|text|..] == "";
    RowThenRows(text, |text|, row, [], fs);
  }

  lemma LastCellsRead(text: string, row: Row, fs: char)
    requires Usable(fs) && text != "" && LastLine(text, row, fs)
    ensures ParseCells(text, fs) == RowResult(row, |text|)
  {
    if LineText(text, row, fs) {
      LineReads(text, row, "", fs);
      assert text + "" == text;
    } else {
      var g := text[..|text| - 1];
      assert g + "\r" == text;
      LineReads(g, row, "\r", fs);
    }
  }

  lemma LineEndUsed(e: string, rest: string, row: Row, fs: char)
    requires LineEnd(e, fs) && e <= rest
    ensures Ending(rest, row, fs) && Used(rest, fs) == |e|
  {
    assert rest[0] == e[0];
  }

  lemma FirstLineRead(text: string, i: int, j: int, row: Row, fs: char)
    requires Usable(fs) && FirstLine(text, i, j, row, fs)
    ensures ParseCells(text, fs) == RowResult(row, j)
  {
    var rest := text[i..];
    assert text[..i] + rest == text;
    LineEndUsed(text[i..j], rest, row, fs);
    LineReads(text[..i], row, rest, fs);
  }

  lemma FirstThenRows(text: string, i: int, j: int, rows: seq<Row>, fs: char)
    requires Usable(fs) && rows != [] && FirstLine(text, i, j, rows[0], fs)
    requires Parse(text[j..], fs) == Rows(rows[1..], true)
    ensures Parse(text, fs) == Rows(rows, true)
  {
    FirstLineRead(text, i, j, rows[0], fs);
    RowThenRows(text, j, rows[0], rows[1..], fs);
    assert [rows[0]] + rows[1..] == rows;
  }

  lemma {:induction false} TextIsParsed(text: string, rows: seq<Row>, fs: char)
    requires Usable(fs) && TextOf(text, rows, fs)
    ensures Parse(text, fs) == Rows(rows, true)
    decreases |rows|
  {
    if rows != [] {
      if |rows| == 1 && text != "" && LastLine(text, rows[0], fs) {
        LastLineRead(text, rows[0], fs);
        assert [rows[0]] == rows;
      } else {
        var i, j :| FirstLine(text, i, j, rows[0], fs) && TextOf(text[j..], rows[1..], fs);
        TextIsParsed(text[j..], rows[1..], fs);
        FirstThenRows(text, i, j, rows, fs);
      }
    }
  }

  /** The parser accepts exactly the texts that are texts of some rows, and reads those rows. */
  lemma ParsesExactly(text: string, rows: seq<Row>, fs: char)
    requires Usable(fs)
    ensures Parse(text, fs) == Rows(rows, true) <==> TextOf(text, rows, fs)
  {
    if TextOf(text, rows, fs) {
      TextIsParsed(text, rows, fs);
    } else if Parse(text, fs) == Rows(rows, true) {
      ParsedIsText(text, rows, fs);
    }
  }

  /** A format error is raised exactly for the texts of no rows. */
  lemma RejectsExactly(text: string, fs: char)
    requires Usable(fs)
    ensures !Parse(text, fs).ok <==> forall rows: seq<Row> :: !TextOf(text, rows, fs)
  {
    var r := Parse(text, fs);
    forall rows: seq<Row>
      ensures TextOf(text, rows, fs) ==> r == Rows(rows, true)
    {
      ParsesExactly(text, rows, fs);
    }
    if r.ok { ParsesExactly(text, r.rows, fs); }
  }
}
