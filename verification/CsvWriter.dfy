/**
 The writer: loops that append to an output device, proved against the generated text.
 */
module CsvWriter {
  import opened Common
  import opened CsvFormat

  /** What the writer appends to. */
  class Device {
    var text: string

    constructor ()
      ensures text == ""
    {
      text := "";
    }
  }

  /** Doubles the quotes from left to right. */
  method Gsub(s: string) returns (r: string)
    ensures r == DoubleQuotes(s)
  {
    r := "";
    for i := 0 to |s|
      invariant r + DoubleQuotes(s[i..]) == DoubleQuotes(s)
    {
      var piece := if s[i] == '"' then "\"\"" else [s[i]];
      DoubleNext(r, s, i, piece);
      r := r + piece;
    }
    assert r + "" == r;
  }

  lemma DoubleNext(r: string, s: string, i: nat, piece: string)
    requires i < |s| && piece == if s[i] == '"' then "\"\"" else [s[i]]
    ensures r + piece + DoubleQuotes(s[i + 1..]) == r + DoubleQuotes(s[i..])
  {
    assert s[i..][1..] == s[i + 1..];
    assert DoubleQuotes(s[i..]) == piece + DoubleQuotes(s[i + 1..]);
    assert r + piece + DoubleQuotes(s[i + 1..]) == r + (piece + DoubleQuotes(s[i + 1..]));
  }

  method GenerateBodyTo(cell: Cell, out: Device, fs: char)
    modifies out
    ensures out.text == old(out.text) + GenerateBody(cell, fs)
  {
    match cell
    case None => assert out.text + "" == out.text;
    case Some(s) =>
      var rowData := Gsub(s);
      if NeedsQuotes(s, fs) {
        out.text := out.text + "\"" + rowData + "\"";
        assert out.text == old(out.text) + ("\"" + rowData + "\"");
      } else {
        Unchanged(s);
        out.text := out.text + rowData;
      }
  }

  /** Without a quote there is nothing to double. */
  lemma {:induction false} Unchanged(s: string)
    requires '"' !in s
    ensures DoubleQuotes(s) == s
  {
    if s != "" {
      Unchanged(s[1..]);
      assert [s[0]] + s[1..] == s;
    }
  }

  /** The text so far is complete up to cell k; more cells follow a separator. */
  ghost predicate Begun(start: string, text: string, row: Row, k: nat, n: nat, fs: char)
    requires 0 < k <= n <= |row|
  {
    start + GenerateCells(row[..n], fs)
      == text + if k == n then "" else [fs] + GenerateCells(row[k..n], fs)
  }

  lemma BegunFirst(start: string, row: Row, n: nat, fs: char)
    requires 0 < n <= |row|
    ensures Begun(start, start + GenerateBody(row[0], fs), row, 1, n, fs)
  {
    assert row[..n][1..] == row[1..n];
    var first := GenerateBody(row[0], fs);
    if n == 1 {
      assert start + first + "" == start + first;
    } else {
      var more := [fs] + GenerateCells(row[1..n], fs);
      assert GenerateCells(row[..n], fs) == first + more;
      assert start + (first + more) == start + first + more;
    }
  }

  lemma BegunNext(start: string, text: string, row: Row, k: nat, n: nat, fs: char)
    requires 0 < k < n <= |row| && Begun(start, text, row, k, n, fs)
    ensures Begun(start, text + [fs] + GenerateBody(row[k], fs), row, k + 1, n, fs)
  {
    assert row[k..n][1..] == row[k + 1..n];
    var cell := GenerateBody(row[k], fs);
    if k + 1 == n {
      assert text + ([fs] + cell) == text + [fs] + cell + "";
    } else {
      var more := [fs] + GenerateCells(row[k + 1..n], fs);
      assert GenerateCells(row[k..n], fs) == cell + more;
      assert text + ([fs] + (cell + more)) == text + [fs] + cell + more;
    }
  }

  /** generate_row */
  method GenerateRowTo(src: Row, cells: nat, out: Device, fs: char) returns (parsedCells: nat)
    modifies out
    ensures out.text == old(out.text) + GenerateRow(src, cells, fs)
    ensures parsedCells == if src == [] then 0 else Written(src, cells)
  {
    if |src| == 0 {
      if cells == 0 { out.text := out.text + "\n"; }
      return 0;
    }
    ghost var start, n := out.text, Written(src, cells);
    GenerateBodyTo(src[0], out, fs);
    BegunFirst(start, src, n, fs);
    parsedCells := 1;
    while parsedCells < cells && parsedCells != |src|
      invariant 0 < parsedCells <= n && Begun(start, out.text, src, parsedCells, n, fs)
      decreases |src| - parsedCells
    {
      BegunNext(start, out.text, src, parsedCells, n, fs);
      out.text := out.text + [fs];
      GenerateBodyTo(src[parsedCells], out, fs);
      parsedCells := parsedCells + 1;
    }
    assert out.text + "" == out.text;
    var sep := if parsedCells == cells then '\n' else fs;
    assert start + GenerateCells(src[..n], fs) + [sep] == start + (GenerateCells(src[..n], fs) + [sep]);
    out.text := out.text + [sep];
  }

  /** generate_line */
  method GenerateLineOf(row: Row, fs: char) returns (s: string)
    ensures s == GenerateLine(row, fs)
  {
    if |row| == 0 { return ""; }
    var out := new Device();
    GenerateBodyTo(row[0], out, fs);
    BegunFirst("", row, |row|, fs);
    assert "" + GenerateBody(row[0], fs) == out.text;
    var idx := 1;
    while idx != |row|
      invariant 0 < idx <= |row| && Begun("", out.text, row, idx, |row|, fs)
      decreases |row| - idx
    {
      BegunNext("", out.text, row, idx, |row|, fs);
      out.text := out.text + [fs];
      GenerateBodyTo(row[idx], out, fs);
      idx := idx + 1;
    }
    assert row[..|row|] == row && out.text + "" == out.text;
    s := out.text;
  }

  lemma GenerateFirst(text: string, rows: seq<Row>, fs: char)
    requires rows != []
    ensures text + Generate(rows, fs) == text + GenerateRow(rows[0], |rows[0]|, fs) + Generate(rows[1..], fs)
  {
    var first, rest := GenerateRow(rows[0], |rows[0]|, fs), Generate(rows[1..], fs);
    assert Generate(rows, fs) == first + rest;
    Regroup(text, first, rest);
  }

  lemma Regroup(a: string, b: string, c: string)
    ensures a + (b + c) == a + b + c
  {
  }

  /** A BasicWriter given the rows one after the other. */
  method WriteAll(rows: seq<Row>, out: Device, fs: char)
    modifies out
    ensures out.text == old(out.text) + Generate(rows, fs)
  {
    ghost var start := out.text;
    for i := 0 to |rows|
      invariant out.text + Generate(rows[i..], fs) == start + Generate(rows, fs)
    {
      GenerateFirst(out.text, rows[i..], fs);
      assert rows[i..][1..] == rows[i + 1..];
      var _ := GenerateRowTo(rows[i], |rows[i]|, out, fs);
    }
    assert out.text + "" == out.text;
  }
}
