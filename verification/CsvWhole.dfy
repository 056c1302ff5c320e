/**
 Writer and reader together: rows written as text and read by the string or the stream reader, both
 of which drop a byte order mark at the front of the text.
 */
module CsvWhole {
  import opened Common
  import opened CsvFormat
  import opened CsvRoundTrip
  import opened CsvGrammar
  import opened CsvStream
  import opened CsvReader
  import opened CsvWriter

  // ---- generated text is at most one character longer than any text of the same rows

  /** How many characters a text has, its carriage returns counted or not. */
  function Weight(s: string, cr: bool): nat {
    if s == "" then 0 else (if s[0] == '\r' && !cr then 0 else 1) + Weight(s[1..], cr)
  }

  lemma {:induction false} WeightAppend(a: string, b: string, cr: bool)
    ensures Weight(a + b, cr) == Weight(a, cr) + Weight(b, cr)
  {
    if a == "" {
      assert a + b == b;
    } else {
      assert (a + b)[1..] == a[1..] + b;
      WeightAppend(a[1..], b, cr);
    }
  }

  lemma {:induction false} WeightIsLength(s: string)
    ensures Weight(s, true) == |s|
  {
    if s != "" { WeightIsLength(s[1..]); }
  }

  lemma {:induction false} DoubleIsLonger(s: string, cr: bool)
    ensures Weight(s, cr) <= Weight(DoubleQuotes(s), cr)
  {
    if s != "" {
      DoubleIsLonger(s[1..], cr);
      WeightAppend(if s[0] == '"' then "\"\"" else [s[0]], DoubleQuotes(s[1..]), cr);
    }
  }

  lemma CellShortest(g: string, cell: Cell, fs: char, cr: bool)
    requires CellText(g, cell, fs)
    ensures Weight(GenerateBody(cell, fs), cr) <= Weight(g, cr)
  {
    if cell.Some? && g != GenerateBody(cell, fs) {
      var s := cell.value;
      DoubleIsLonger(s, cr);
      WeightAppend("\"" + DoubleQuotes(s), "\"", cr);
      WeightAppend("\"", DoubleQuotes(s), cr);
    }
  }

  lemma ThreeWeights(a: string, c: char, b: string, cr: bool)
    ensures Weight(a + [c] + b, cr) == Weight(a, cr) + Weight([c], cr) + Weight(b, cr)
  {
    WeightAppend(a + [c], b, cr);
    WeightAppend(a, [c], cr);
  }

  lemma CellInFront(g: string, i: int, row: Row, fs: char, cr: bool)
    requires |row| > 1 && FirstCell(g, i, row[0], fs)
    requires Weight(GenerateCells(row[1..], fs), cr) <= Weight(g[i + 1..], cr)
    ensures Weight(GenerateCells(row, fs), cr) <= Weight(g, cr)
  {
    CellShortest(g[..i], row[0], fs, cr);
    ThreeWeights(g[..i], fs, g[i + 1..], cr);
    ThreeWeights(GenerateBody(row[0], fs), fs, GenerateCells(row[1..], fs), cr);
    assert g == g[..i] + [fs] + g[i + 1..];
  }

  lemma {:induction false} LineShortest(g: string, row: Row, fs: char, cr: bool)
    requires LineText(g, row, fs)
    ensures Weight(GenerateCells(row, fs), cr) <= Weight(g, cr)
    decreases |row|
  {
    if |row| == 1 {
      CellShortest(g, row[0], fs, cr);
    } else {
      var i :| FirstCell(g, i, row[0], fs) && LineText(g[i + 1..], row[1..], fs);
      LineShortest(g[i + 1..], row[1..], fs, cr);
      CellInFront(g, i, row, fs, cr);
    }
  }

  lemma RowWeight(row: Row, rest: string, fs: char, cr: bool)
    requires row != []
    ensures Weight(GenerateRow(row, |row|, fs) + rest, cr) == Weight(GenerateCells(row, fs), cr) + 1 + Weight(rest, cr)
  {
    RowText(row, fs);
    WeightAppend(GenerateRow(row, |row|, fs), rest, cr);
    WeightAppend(GenerateCells(row, fs), "\n", cr);
  }

  lemma LastShortest(text: string, row: Row, fs: char, cr: bool)
    requires LastLine(text, row, fs)
    ensures Weight(GenerateCells(row, fs), cr) <= Weight(text, cr)
  {
    if LineText(text, row, fs) {
      LineShortest(text, row, fs, cr);
    } else {
      var n := |text| - 1;
      LineShortest(text[..n], row, fs, cr);
      WeightAppend(text[..n], text[n..], cr);
      assert text == text[..n] + text[n..];
    }
  }

  lemma FirstShortest(text: string, i: int, j: int, row: Row, fs: char, cr: bool)
    requires FirstLine(text, i, j, row, fs)
    ensures Weight(GenerateCells(row, fs), cr) + 1 + Weight(text[j..], cr) <= Weight(text, cr)
  {
    var e := text[i..j];
    LineShortest(text[..i], row, fs, cr);
    assert text == text[..i] + (e + text[j..]);
    WeightAppend(text[..i], e + text[j..], cr);
    WeightAppend(e, text[j..], cr);
    assert Weight(e, cr) >= 1 by { assert e[1..] == if |e| == 1 then "" else "\n"; }
  }

  lemma {:induction false} TextShortest(text: string, rows: seq<Row>, fs: char, cr: bool)
    requires TextOf(text, rows, fs)
    ensures Weight(Generate(rows, fs), cr) <= Weight(text, cr) + 1
    decreases |rows|
  {
    if rows != [] {
      var rest := Generate(rows[1..], fs);
      assert rows[0] != [];
      RowWeight(rows[0], rest, fs, cr);
      if |rows| == 1 && LastLine(text, rows[0], fs) {
        LastShortest(text, rows[0], fs, cr);
      } else {
        var i, j :| FirstLine(text, i, j, rows[0], fs) && TextOf(text[j..], rows[1..], fs);
        FirstShortest(text, i, j, rows[0], fs, cr);
        TextShortest(text[j..], rows[1..], fs, cr);
      }
    }
  }

  /** A text that is parsed into some rows is at most one character shorter than the text generated for
      them: it may lack the last row separator, and nothing else. */
  lemma GeneratedIsShortest(text: string, rows: seq<Row>, fs: char)
    requires Usable(fs) && Parse(text, fs) == Rows(rows, true)
    ensures |Generate(rows, fs)| <= |text| + 1
  {
    ParsedIsText(text, rows, fs);
    TextShortest(text, rows, fs, true);
    WeightIsLength(text);
    WeightIsLength(Generate(rows, fs));
  }

  // ---- rows with line ends of either kind

  /** The rows as they are generated, but each with a line end of its own. */
  function Terminated(rows: seq<Row>, ends: seq<string>, fs: char): string
    requires |ends| == |rows|
  {
    if rows == [] then ""
    else GenerateCells(NormalRow(rows[0]), fs) + ends[0] + Terminated(rows[1..], ends[1..], fs)
  }

  ghost predicate LineEnds(ends: seq<string>, fs: char) {
    forall i :: 0 <= i < |ends| ==> LineEnd(ends[i], fs)
  }

  function Repeated(e: string, n: nat): (r: seq<string>)
    ensures |r| == n && forall i :: 0 <= i < n ==> r[i] == e
  {
    seq(n, _ => e)
  }

  lemma {:induction false} GeneratedIsTerminated(rows: seq<Row>, fs: char)
    ensures Generate(rows, fs) == Terminated(rows, Repeated("\n", |rows|), fs)
  {
    if rows != [] {
      RowText(rows[0], fs);
      GeneratedIsTerminated(rows[1..], fs);
      assert Repeated("\n", |rows|)[1..] == Repeated("\n", |rows| - 1);
    }
  }

  lemma {:induction false} CellsAreLine(row: Row, fs: char)
    requires row != []
    ensures LineText(GenerateCells(row, fs), row, fs)
    decreases |row|
  {
    GeneratedText(row[0], fs);
    if |row| > 1 {
      var g, i := GenerateCells(row, fs), |GenerateBody(row[0], fs)|;
      CellsAreLine(row[1..], fs);
      assert g[..i] == GenerateBody(row[0], fs) && g[i + 1..] == GenerateCells(row[1..], fs);
      assert FirstCell(g, i, row[0], fs);
    }
  }

  lemma {:induction false} TerminatedIsText(rows: seq<Row>, ends: seq<string>, fs: char)
    requires |ends| == |rows| && LineEnds(ends, fs)
    ensures TextOf(Terminated(rows, ends, fs), Normal(rows), fs)
    decreases |rows|
  {
    if rows != [] {
      var row, rest := NormalRow(rows[0]), Terminated(rows[1..], ends[1..], fs);
      var g, text := GenerateCells(row, fs), Terminated(rows, ends, fs);
      var j := |g| + |ends[0]|;
      CellsAreLine(row, fs);
      TerminatedIsText(rows[1..], ends[1..], fs);
      assert text[..|g|] == g && text[|g|..j] == ends[0] && text[j..] == rest;
      assert Normal(rows)[1..] == Normal(rows[1..]);
      assert FirstLine(text, |g|, j, row, fs);
      RowsJoined(text, |g|, j, Normal(rows), fs);
    }
  }

  /** Rows ended by line feeds, with or without carriage returns, are read; an empty row as one nil. */
  lemma TerminatedIsParsed(rows: seq<Row>, ends: seq<string>, fs: char)
    requires Usable(fs) && |ends| == |rows| && LineEnds(ends, fs)
    ensures Parse(Terminated(rows, ends, fs), fs) == Rows(Normal(rows), true)
  {
    TerminatedIsText(rows, ends, fs);
    TextIsParsed(Terminated(rows, ends, fs), Normal(rows), fs);
  }

  /** A row of one cell behind which a carriage return separates a second column. */
  lemma ReturnSeparates()
    ensures Parse("a\r\n", '\r') == Rows([[Some("a"), None]], true) != Rows([[Some("a")]], true)
  {
    var text, row := "a\r\n", [Some("a"), None];
    assert text[..1] == "a" && text[..2][..1] == "a" && text[..2][2..] == "";
    assert FirstCell(text[..2], 1, row[0], '\r') && LineText(text[..2][2..], row[1..], '\r');
    assert text[2..3] == "\n" && text[3..] == "";
    assert FirstLine(text, 2, 3, row, '\r') && TextOf(text[3..], [row][1..], '\r');
    TextIsParsed(text, [row], '\r');
  }

  lemma OneReturn()
    ensures Terminated([[Some("a")]], Repeated("\r\n", 1), '\r') == "a\r\n"
  {
    assert GenerateCells([Some("a")], '\r') == "a";
    assert Repeated("\r\n", 1)[1..] == [] && [[Some("a")]][1..] == [];
  }

  /** Text with carriage returns and line feeds is read for every list of non-empty rows, exactly if
      the separator is not itself the carriage return. */
  lemma ReturnsAreRead(fs: char)
    requires Usable(fs)
    ensures fs != '\r' <==>
            forall rows: seq<Row> :: Filled(rows) ==>
              Parse(Terminated(rows, Repeated("\r\n", |rows|), fs), fs) == Rows(rows, true)
  {
    if fs != '\r' {
      forall rows: seq<Row> | Filled(rows)
        ensures Parse(Terminated(rows, Repeated("\r\n", |rows|), fs), fs) == Rows(rows, true)
      {
        TerminatedIsParsed(rows, Repeated("\r\n", |rows|), fs);
        NormalIsSame(rows);
      }
    } else {
      ReturnSeparates();
      OneReturn();
      assert Filled([[Some("a")]]);
    }
  }

  // ---- what is written is read

  lemma {:induction false} TerminatedWeight(rows: seq<Row>, ends: seq<string>, fs: char)
    requires |ends| == |rows| && LineEnds(ends, fs)
    ensures Weight(Terminated(rows, ends, fs), false) == Weight(Generate(rows, fs), false)
    decreases |rows|
  {
    if rows != [] {
      var g, e, rest := GenerateCells(NormalRow(rows[0]), fs), ends[0], Terminated(rows[1..], ends[1..], fs);
      RowText(rows[0], fs);
      WeightAppend(g + e, rest, false);
      WeightAppend(g, e, false);
      WeightAppend(g + "\n", Generate(rows[1..], fs), false);
      WeightAppend(g, "\n", false);
      assert Weight(e, false) == 1 by { assert e[1..] == if |e| == 1 then "" else "\n"; }
      TerminatedWeight(rows[1..], ends[1..], fs);
    }
  }

  lemma MarkWeight(text: string)
    requires BOM <= text
    ensures Weight(text, false) == 3 + Weight(text[3..], false)
  {
    assert BOM[1..][1..] == [BOM[2]] && BOM[1..][1..][1..] == "";
    assert text == BOM + text[3..];
    WeightAppend(BOM, text[3..], false);
  }

  /** What a reader makes of the text of rows with any line ends: they come back exactly if the text
      does not happen to begin with the byte order mark, which the readers drop. */
  lemma TerminatedIsRead(rows: seq<Row>, ends: seq<string>, fs: char)
    requires Usable(fs) && |ends| == |rows| && LineEnds(ends, fs) && Filled(rows)
    ensures var text := Terminated(rows, ends, fs);
            Parse(AfterBom(text), fs) == Rows(rows, true) <==> !(BOM <= text)
  {
    var text := Terminated(rows, ends, fs);
    if !(BOM <= text) {
      TerminatedIsParsed(rows, ends, fs);
      NormalIsSame(rows);
    } else if Parse(text[3..], fs) == Rows(rows, true) {
      MarkWeight(text);
      ParsedIsText(text[3..], rows, fs);
      TextShortest(text[3..], rows, fs, false);
      TerminatedWeight(rows, ends, fs);
      assert false;
    }
  }

  /** The same of what was written. */
  lemma WrittenIsRead(rows: seq<Row>, fs: char)
    requires Usable(fs) && Filled(rows)
    ensures Parse(AfterBom(Generate(rows, fs)), fs) == Rows(rows, true) <==> !(BOM <= Generate(rows, fs))
  {
    GeneratedIsTerminated(rows, fs);
    TerminatedIsRead(rows, Repeated("\n", |rows|), fs);
  }

  /** Such rows exist: one cell that holds the mark. */
  lemma MarkCell()
    ensures BOM <= Generate([[Some(BOM)]], ',')
  {
    RowText([Some(BOM)], ',');
    assert Generate([[Some(BOM)]], ',') == GenerateCells([Some(BOM)], ',') + "\n" + Generate([], ',');
  }

  /** Such text ends with a line feed, so it is never the mark alone. */
  lemma {:induction false} NotMarkAlone(rows: seq<Row>, ends: seq<string>, fs: char)
    requires rows != [] && |ends| == |rows| && LineEnds(ends, fs)
    ensures var text := Terminated(rows, ends, fs); text != "" && text[|text| - 1] == '\n'
    decreases |rows|
  {
    assert ends[0][|ends[0]| - 1] == '\n';
    if |rows| > 1 {
      NotMarkAlone(rows[1..], ends[1..], fs);
    }
  }

  /** Reading rows with any line ends from a string. */
  method ReadTerminatedString(rows: seq<Row>, ends: seq<string>, fs: char) returns (back: seq<Row>, ok: bool)
    requires Usable(fs) && |ends| == |rows| && LineEnds(ends, fs) && Filled(rows)
    ensures Rows(back, ok) == Rows(rows, true) <==> !(BOM <= Terminated(rows, ends, fs))
  {
    back, ok := ParseString(Terminated(rows, ends, fs), fs);
    TerminatedIsRead(rows, ends, fs);
  }

  /** Reading them from a stream, however the stream is cut into chunks. */
  method ReadTerminatedStream(rows: seq<Row>, ends: seq<string>, fs: char, input: seq<string>)
    returns (back: seq<Row>, ok: bool)
    requires Usable(fs) && |ends| == |rows| && LineEnds(ends, fs) && Filled(rows)
    requires Join(input) == Terminated(rows, ends, fs) && forall i :: 0 <= i < |input| ==> ChunkOk(input[i])
    ensures Rows(back, ok) == Rows(rows, true) <==> !(BOM <= Terminated(rows, ends, fs))
  {
    if rows != [] { NotMarkAlone(rows, ends, fs); }
    back, ok := ParseStream(input, fs);
    TerminatedIsRead(rows, ends, fs);
  }

  /** Writing rows and reading the string that comes out. */
  method WriteThenReadString(rows: seq<Row>, fs: char) returns (back: seq<Row>, ok: bool)
    requires Usable(fs) && Filled(rows)
    ensures Rows(back, ok) == Rows(rows, true) <==> !(BOM <= Generate(rows, fs))
  {
    var out := new Device();
    WriteAll(rows, out, fs);
    assert "" + Generate(rows, fs) == Generate(rows, fs);
    back, ok := ParseString(out.text, fs);
    WrittenIsRead(rows, fs);
  }

  /** Reading what was written from a stream. */
  method ReadWrittenStream(rows: seq<Row>, fs: char, input: seq<string>) returns (back: seq<Row>, ok: bool)
    requires Usable(fs) && Filled(rows)
    requires Join(input) == Generate(rows, fs) && forall i :: 0 <= i < |input| ==> ChunkOk(input[i])
    ensures Rows(back, ok) == Rows(rows, true) <==> !(BOM <= Generate(rows, fs))
  {
    GeneratedIsTerminated(rows, fs);
    back, ok := ReadTerminatedStream(rows, Repeated("\n", |rows|), fs, input);
  }
}
