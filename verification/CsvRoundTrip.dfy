/**
 Parsing what was generated gives the rows back, nil and the empty string kept apart.
 */
module CsvRoundTrip {
  import opened Common
  import opened CsvFormat

  /** A separator the generated text can be told apart from. */
  predicate Usable(fs: char) {
    fs != '"' && fs != '\n'
  }

  predicate Plain(s: string, fs: char) {
    '"' !in s && fs !in s && '\r' !in s && '\n' !in s
  }

  /** Characters without a meaning of their own are collected. */
  lemma {:induction false} ScanPlain(s: string, rest: string, st: Scan, fs: char)
    requires Plain(s, fs) && s != "" && !st.quoted && !st.cr && !st.mode.Quote?
    ensures ScanFrom(s + rest, st, fs)
         == Behind(|s|, ScanFrom(rest, Scan(Data, false, false, false, false, st.cell, st.pending + s), fs))
    decreases |s|
  {
    var c := s[0];
    assert c in s;
    var st' := Scan(Data, false, false, false, false, st.cell, st.pending + [c]);
    assert Step(st, c, fs) == More(st');
    assert (s + rest)[1..] == s[1..] + rest;
    if |s| == 1 {
      assert s[1..] + rest == rest && [c] == s;
    } else {
      assert Plain(s[1..], fs);
      ScanPlain(s[1..], rest, st', fs);
      assert st.pending + [c] + s[1..] == st.pending + s by { assert [c] + s[1..] == s; }
    }
  }

  predicate Inside(st: Scan) {
    st.mode.Data? && st.quoted && !st.cr && !st.fschar && !st.rschar
  }

  /** The state after one character of the string, doubled if it is a quote. */
  function Collect(st: Scan, c: char): Scan {
    if c == '"' then st.(cell := st.cell + st.pending + "\"", pending := "")
    else if c == '\r' then st.(cell := st.cell + st.pending, pending := "\r")
    else st.(pending := st.pending + [c])
  }

  lemma ScanCollects(c: char, tail: string, st: Scan, fs: char)
    requires Usable(fs) && Inside(st)
    ensures var text := (if c == '"' then "\"\"" else [c]) + tail;
            ScanFrom(text, st, fs) == Behind(if c == '"' then 2 else 1, ScanFrom(tail, Collect(st, c), fs))
    ensures Inside(Collect(st, c))
    ensures Collect(st, c).cell + Collect(st, c).pending == st.cell + st.pending + [c]
  {
    if c == '"' {
      var text := "\"\"" + tail;
      assert text[1..] == ['"'] + tail && text[1..][1..] == tail;
      var st1 := st.(cell := st.cell + st.pending, pending := "", quoted := false, mode := Quote);
      assert Step(st, '"', fs) == More(st1);
      assert st.cell + st.pending + "" == st.cell + st.pending;
      assert Step(st1, '"', fs) == More(Collect(st, c));
    } else {
      assert ([c] + tail)[1..] == tail;
      assert Step(st, c, fs) == More(Collect(st, c));
    }
  }

  /** Inside quotes every string is collected, up to the quote that is not doubled. */
  lemma {:induction false} ScanQuoted(s: string, rest: string, st: Scan, fs: char)
    requires Usable(fs) && Inside(st)
    ensures ScanFrom(DoubleQuotes(s) + ("\"" + rest), st, fs)
         == Behind(|DoubleQuotes(s)| + 1,
                   ScanFrom(rest, Scan(Quote, false, false, false, false, st.cell + st.pending + s, ""), fs))
    decreases |s|
  {
    if s == "" {
      assert DoubleQuotes(s) + ("\"" + rest) == "\"" + rest;
      assert ("\"" + rest)[1..] == rest;
      assert st.cell + st.pending + s == st.cell + st.pending;
    } else {
      var c, tail := s[0], DoubleQuotes(s[1..]) + ("\"" + rest);
      assert DoubleQuotes(s) + ("\"" + rest) == (if c == '"' then "\"\"" else [c]) + tail;
      ScanCollects(c, tail, st, fs);
      ScanQuoted(s[1..], rest, Collect(st, c), fs);
      Appended(st.cell + st.pending, s);
    }
  }

  lemma Appended(a: string, s: string)
    requires s != ""
    ensures a + [s[0]] + s[1..] == a + s
  {
    assert [s[0]] + s[1..] == s;
  }

  /** nil is nothing at all; a string stands in quotes, or plainly if nothing in it has a meaning of its own. */
  predicate CellText(g: string, cell: Cell, fs: char) {
    match cell
    case None => g == ""
    case Some(s) => g == Quoted(s) || (g == s && s != "" && Plain(s, fs))
  }

  function Quoted(s: string): string {
    "\"" + DoubleQuotes(s) + "\""
  }

  lemma GeneratedText(cell: Cell, fs: char)
    ensures CellText(GenerateBody(cell, fs), cell, fs)
  {
  }

  /** A row may be ended by a line feed, with a carriage return before it unless that separates columns. */
  predicate LineEnd(e: string, fs: char) {
    e == "\n" || (e == "\r\n" && fs != '\r')
  }

  /** What may follow a cell: nothing, a separator or a line end. */
  predicate Follows(rest: string, fs: char) {
    rest == "" || rest[0] == fs || "\n" <= rest || (fs != '\r' && "\r\n" <= rest)
  }

  function SepOf(rest: string, fs: char): Sep {
    if rest == "" then Eos else if rest[0] == fs then ColSep else RowSep
  }

  function Used(rest: string, fs: char): nat {
    if rest == "" then 0 else if fs != '\r' && "\r\n" <= rest then 2 else 1
  }

  lemma ScanReturn(rest: string, st: Scan, fs: char)
    requires Usable(fs) && fs != '\r' && "\r\n" <= rest && !st.quoted && !st.cr
    ensures ScanFrom(rest, st, fs) == Body(RowSep, 2, if st.mode.Start? then None else Some(st.cell + st.pending))
  {
    var st' := st.(fschar := false, rschar := false, cell := st.cell + st.pending, pending := "\r", cr := true);
    assert rest[0] == '\r' && rest[1..][0] == rest[1] == '\n';
    assert Step(st, '\r', fs) == More(st');
  }

  /** A separator, a line end or the end of the text completes the cell collected so far. */
  lemma ScanFollows(rest: string, st: Scan, fs: char)
    requires Usable(fs) && Follows(rest, fs) && !st.quoted && !st.cr
    ensures ScanFrom(rest, st, fs) ==
      Body(SepOf(rest, fs), Used(rest, fs), if st.mode.Start? then None else Some(st.cell + st.pending))
  {
    if fs != '\r' && "\r\n" <= rest { ScanReturn(rest, st, fs); }
  }

  lemma OpenQuote(inner: string, fs: char)
    ensures ParseBody(['"'] + inner, fs) ==
      Behind(1, ScanFrom(inner, Scan(Data, true, false, '"' == fs, false, "", ""), fs))
  {
    assert (['"'] + inner)[1..] == inner;
    assert "" + "" == "";
  }

  lemma QuotedCell(s: string, rest: string, fs: char)
    requires Usable(fs) && Follows(rest, fs)
    ensures ParseBody(Quoted(s) + rest, fs) == Body(SepOf(rest, fs), |Quoted(s)| + Used(rest, fs), Some(s))
  {
    assert Quoted(s) + rest == ['"'] + (DoubleQuotes(s) + ("\"" + rest));
    OpenQuote(DoubleQuotes(s) + ("\"" + rest), fs);
    ScanQuoted(s, rest, Scan(Data, true, false, false, false, "", ""), fs);
    var st' := Scan(Quote, false, false, false, false, "" + "" + s, "");
    ScanFollows(rest, st', fs);
    assert st'.cell + st'.pending == s;
  }

  lemma PlainCell(s: string, rest: string, fs: char)
    requires Usable(fs) && Follows(rest, fs) && s != "" && Plain(s, fs)
    ensures ParseBody(s + rest, fs) == Body(SepOf(rest, fs), |s| + Used(rest, fs), Some(s))
  {
    ScanPlain(s, rest, Fresh(), fs);
    ScanFollows(rest, Scan(Data, false, false, false, false, "", "" + s), fs);
    assert "" + ("" + s) == s;
  }

  /** A text of a cell is read as that cell, nil as nil and "" as "". */
  lemma CellReads(g: string, cell: Cell, rest: string, fs: char)
    requires Usable(fs) && Follows(rest, fs) && CellText(g, cell, fs)
    ensures ParseBody(g + rest, fs) == Body(SepOf(rest, fs), |g| + Used(rest, fs), cell)
  {
    match cell
    case None =>
      assert g + rest == rest;
      ScanFollows(rest, Fresh(), fs);
    case Some(s) =>
      if g == Quoted(s) {
        QuotedCell(s, rest, fs);
      } else {
        PlainCell(s, rest, fs);
      }
  }

  /** A generated cell is read back as the same cell. */
  lemma CellRoundTrip(cell: Cell, rest: string, fs: char)
    requires Usable(fs) && Follows(rest, fs)
    ensures var g := GenerateBody(cell, fs);
            ParseBody(g + rest, fs) == Body(SepOf(rest, fs), |g| + Used(rest, fs), cell)
  {
    GeneratedText(cell, fs);
    CellReads(GenerateBody(cell, fs), cell, rest, fs);
  }

  lemma Rearrange(a: string, c: char, b: string, rest: string, text: string)
    requires text == a + [c] + b + rest
    ensures text == a + ([c] + (b + rest)) && text[|a| + 1..] == b + rest
  {
  }

  lemma CellThenCells(text: string, used: nat, rest: string, row: Row, n: nat, fs: char)
    requires |row| > 1 && used <= |text| && text[used..] == rest && ParseBody(text, fs) == Body(ColSep, used, row[0])
    requires ParseCells(rest, fs) == RowResult(row[1..], n)
    ensures ParseCells(text, fs) == RowResult(row, used + n)
  {
    assert [row[0]] + row[1..] == row;
  }

  lemma FirstCellRead(cell: Cell, text: string, others: string, fs: char)
    requires Usable(fs) && text == GenerateBody(cell, fs) + ([fs] + others)
    ensures ParseBody(text, fs) == Body(ColSep, |GenerateBody(cell, fs)| + 1, cell)
  {
    CellRoundTrip(cell, [fs] + others, fs);
  }

  /** The cells of a row, generated as text, are read back up to the end of the line or of the text. */
  lemma {:induction false} CellsRead(row: Row, cells: string, text: string, rest: string, fs: char)
    requires Usable(fs) && row != [] && (rest == "" || rest[0] == '\n')
    requires cells == GenerateCells(row, fs) && text == cells + rest
    ensures ParseCells(text, fs) == RowResult(row, |cells| + Used(rest, fs))
    decreases |row|
  {
    var first := GenerateBody(row[0], fs);
    if |row| == 1 {
      CellRoundTrip(row[0], rest, fs);
    } else {
      var others := GenerateCells(row[1..], fs);
      Rearrange(first, fs, others, rest, text);
      FirstCellRead(row[0], text, others + rest, fs);
      CellsRead(row[1..], others, others + rest, rest, fs);
      CellThenCells(text, |first| + 1, others + rest, row, |others| + Used(rest, fs), fs);
    }
  }

  lemma CellsRoundTrip(row: Row, rest: string, fs: char)
    requires Usable(fs) && row != [] && (rest == "" || rest[0] == '\n')
    ensures ParseCells(GenerateCells(row, fs) + rest, fs) == RowResult(row, |GenerateCells(row, fs)| + Used(rest, fs))
  {
    CellsRead(row, GenerateCells(row, fs), GenerateCells(row, fs) + rest, rest, fs);
  }

  lemma RowThenRows(text: string, used: nat, row: Row, rows: seq<Row>, fs: char)
    requires text != "" && used <= |text| && ParseCells(text, fs) == RowResult(row, used)
    requires Parse(text[used..], fs) == Rows(rows, true)
    ensures Parse(text, fs) == Rows([row] + rows, true)
  {
  }

  /** A line generated for a row is parsed into the row; the empty row becomes the row of one nil. */
  lemma LineRoundTrip(row: Row, fs: char)
    requires Usable(fs)
    ensures ParseLine(GenerateLine(row, fs), fs) == NormalRow(row)
  {
    if row != [] {
      CellsRoundTrip(row, "", fs);
      assert GenerateCells(row, fs) + "" == GenerateCells(row, fs);
    }
  }

  /** What parsing makes of a row: an empty row is written like a row of one nil. */
  function NormalRow(row: Row): Row {
    if row == [] then [None] else row
  }

  function Normal(rows: seq<Row>): seq<Row> {
    if rows == [] then [] else [NormalRow(rows[0])] + Normal(rows[1..])
  }

  lemma {:induction false} NormalIsSame(rows: seq<Row>)
    requires forall i :: 0 <= i < |rows| ==> rows[i] != []
    ensures Normal(rows) == rows
  {
    if rows != [] {
      NormalIsSame(rows[1..]);
      assert [rows[0]] + rows[1..] == rows;
    }
  }

  lemma RowText(row: Row, fs: char)
    ensures GenerateRow(row, |row|, fs) == GenerateCells(NormalRow(row), fs) + "\n"
  {
    if row != [] {
      assert row[..|row|] == row;
    }
  }

  /** A generated row in front of more text is read back, and the text is what is left. */
  lemma RowRoundTrip(row: Row, rest: string, fs: char)
    requires Usable(fs)
    ensures var g := GenerateRow(row, |row|, fs);
            |g| > 0 && (g + rest)[|g|..] == rest && ParseCells(g + rest, fs) == RowResult(NormalRow(row), |g|)
  {
    RowText(row, fs);
    var cells := GenerateCells(NormalRow(row), fs);
    assert GenerateRow(row, |row|, fs) + rest == cells + (['\n'] + rest);
    CellsRoundTrip(NormalRow(row), ['\n'] + rest, fs);
  }

  lemma {:induction false} NormalRoundTrip(rows: seq<Row>, fs: char)
    requires Usable(fs)
    ensures Parse(Generate(rows, fs), fs) == Rows(Normal(rows), true)
    decreases |rows|
  {
    if rows != [] {
      var g, rest := GenerateRow(rows[0], |rows[0]|, fs), Generate(rows[1..], fs);
      RowRoundTrip(rows[0], rest, fs);
      NormalRoundTrip(rows[1..], fs);
      RowThenRows(g + rest, |g|, NormalRow(rows[0]), Normal(rows[1..]), fs);
    }
  }

  /** A separator that a reader confuses: the line feed separates columns first, and a quote
      cannot follow data. */
  lemma UnusableSeparator(fs: char)
    requires !Usable(fs)
    ensures Parse(Generate([[Some("a"), Some("b")]], fs), fs) != Rows([[Some("a"), Some("b")]], true)
  {
    var row: Row := [Some("a"), Some("b")];
    var text := ['a', fs, 'b', '\n'];
    RowText(row, fs);
    assert GenerateCells(row[1..], fs) == "b";
    assert GenerateCells(row, fs) == "a" + [fs] + "b";
    assert [row][1..] == [];
    assert Generate([row], fs) == text;
    if fs == '"' {
      QuoteSeparator(text);
    } else {
      LineFeedSeparator(text);
    }
  }

  lemma QuoteSeparator(text: string)
    requires text == ['a', '"', 'b', '\n']
    ensures Parse(text, '"') == Rows([], false)
  {
    var st := Scan(Data, false, false, false, false, "", "a");
    assert "" + ['a'] == "a";
    assert Step(Fresh(), 'a', '"') == More(st);
    assert text[1..][0] == '"';
    assert ScanFrom(text[1..], st, '"') == Illegal;
  }

  /** A data character and the line feed as column separator behind it. */
  lemma LineFeedCell(text: string, c: char)
    requires |text| >= 2 && text[0] == c && text[1] == '\n' && c != '"' && c != '\r' && c != '\n'
    ensures ParseBody(text, '\n') == Body(ColSep, 2, Some([c]))
  {
    var st := Scan(Data, false, false, false, false, "", [c]);
    assert "" + [c] == [c];
    assert Step(Fresh(), c, '\n') == More(st);
    assert text[1..][0] == '\n';
    assert ScanFrom(text[1..], st, '\n') == Body(ColSep, 1, Some([c]));
  }

  lemma LineFeedSeparator(text: string)
    requires text == ['a', '\n', 'b', '\n']
    ensures Parse(text, '\n') == Rows([[Some("a"), Some("b"), None]], true)
  {
    var fs := '\n';
    LineFeedCell(text, 'a');
    var t2 := text[2..];
    assert t2 == ['b', '\n'];
    LineFeedCell(t2, 'b');
    assert t2[2..] == "" && text[4..] == "";
    assert ParseCells("", fs) == RowResult([None], 0);
    assert ParseCells(t2, fs) == RowResult([Some("b")] + [None], 2);
    assert ParseCells(text, fs) == RowResult([Some("a")] + ([Some("b")] + [None]), 4);
    assert [Some("a")] + ([Some("b")] + [None]) == [Some("a"), Some("b"), None];
  }

  ghost predicate Filled(rows: seq<Row>) {
    forall i :: 0 <= i < |rows| ==> rows[i] != []
  }

  lemma UsableSeparator(rows: seq<Row>, fs: char)
    requires Usable(fs) && Filled(rows)
    ensures Parse(Generate(rows, fs), fs) == Rows(rows, true)
  {
    NormalRoundTrip(rows, fs);
    NormalIsSame(rows);
  }

  /** The separators for which every list of non-empty rows survives: all but the quote and the
      line feed. */
  lemma RowsRoundTrip(fs: char)
    ensures Usable(fs) <==>
            forall rows: seq<Row> :: Filled(rows) ==> Parse(Generate(rows, fs), fs) == Rows(rows, true)
  {
    if Usable(fs) {
      forall rows: seq<Row> | Filled(rows)
        ensures Parse(Generate(rows, fs), fs) == Rows(rows, true)
      {
        UsableSeparator(rows, fs);
      }
    } else {
      var rows: seq<Row> := [[Some("a"), Some("b")]];
      assert Filled(rows);
      UnusableSeparator(fs);
    }
  }
}
