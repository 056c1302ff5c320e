/**
 The CSV format with a one-character column separator and the default row separator: what is
 generated for rows, and what the parser's character automaton reads from a text.
 */
module CsvFormat {
  import opened Common

  /** nil or a string. */
  type Cell = Option<string>
  type Row = seq<Cell>

  // ---- generating

  /** Every quote written twice. */
  function DoubleQuotes(s: string): string {
    if s == "" then ""
    else (if s[0] == '"' then "\"\"" else [s[0]]) + DoubleQuotes(s[1..])
  }

  predicate NeedsQuotes(s: string, fs: char) {
    s == "" || '"' in s || fs in s || '\r' in s || '\n' in s
  }

  function GenerateBody(cell: Cell, fs: char): string {
    match cell
    case None => ""
    case Some(s) => if NeedsQuotes(s, fs) then "\"" + DoubleQuotes(s) + "\"" else s
  }

  /** The cells with a separator between each two. */
  function GenerateCells(row: Row, fs: char): string
    requires row != []
  {
    if |row| == 1 then GenerateBody(row[0], fs)
    else GenerateBody(row[0], fs) + [fs] + GenerateCells(row[1..], fs)
  }

  /** generate_line */
  function GenerateLine(row: Row, fs: char): string {
    if row == [] then "" else GenerateCells(row, fs)
  }

  /** How many cells generate_row writes when it is asked for `cells` of a non-empty row. */
  function Written(row: Row, cells: nat): nat {
    if cells == 0 then 1 else Min(cells, |row|)
  }

  /** generate_row: an incomplete row is left open with a column separator. */
  function GenerateRow(row: Row, cells: nat, fs: char): string {
    if row == [] then if cells == 0 then "\n" else ""
    else GenerateCells(row[..Written(row, cells)], fs) + [if Written(row, cells) == cells then '\n' else fs]
  }

  /** A writer given the rows one after the other. */
  function Generate(rows: seq<Row>, fs: char): string {
    if rows == [] then "" else GenerateRow(rows[0], |rows[0]|, fs) + Generate(rows[1..], fs)
  }

  // ---- parsing one cell

  datatype Sep = ColSep | RowSep | Eos

  /** What parse_body returns: the separator met, the number of characters used and the cell. */
  datatype Body = Body(sep: Sep, used: nat, cell: Cell) | Illegal

  datatype Mode = Start | Data | Quote

  /** The variables of parse_body's loop. Characters of the cell that are not yet copied are
      pending; fschar and rschar keep their values while the automaton is inside quotes. */
  datatype Scan = Scan(mode: Mode, quoted: bool, cr: bool, fschar: bool, rschar: bool, cell: string, pending: string)

  datatype Next = More(scan: Scan) | Done(sep: Sep, cell: Cell) | Fail

  function AtQuote(st: Scan): Next {
    if st.cr then Fail
    else
      var s := st.(cell := st.cell + st.pending, pending := "");
      match s.mode
      case Data => if s.quoted then More(s.(quoted := false, mode := Quote)) else Fail
      case Quote => More(s.(cell := s.cell + "\"", quoted := true, mode := Data))
      case Start => More(s.(quoted := true, mode := Data))
  }

  function AtColSep(st: Scan): Next {
    if st.cr then Fail else Done(ColSep, if st.mode.Start? then None else Some(st.cell + st.pending))
  }

  function AtRowSep(st: Scan): Next {
    Done(RowSep, if st.mode.Start? then None else Some(if st.cr then st.cell else st.cell + st.pending))
  }

  function AtReturn(st: Scan): Next {
    if st.cr then Fail
    else
      var s := st.(cell := st.cell + st.pending, pending := "\r");
      if s.quoted then More(s.(mode := Data)) else More(s.(cr := true))
  }

  function AtOther(st: Scan, c: char): Next {
    if st.mode.Quote? || st.cr then Fail else More(st.(mode := Data, pending := st.pending + [c]))
  }

  /** One turn of the loop. */
  function Step(st: Scan, c: char, fs: char): Next {
    var s := if st.quoted then st else st.(fschar := c == fs, rschar := c == '\n');
    if c == '"' then AtQuote(s)
    else if s.fschar then AtColSep(s)
    else if s.rschar then AtRowSep(s)
    else if c == '\r' then AtReturn(s)
    else AtOther(s, c)
  }

  /** Behind the last character. */
  function AtEnd(st: Scan): Next {
    if st.mode.Start? then Done(Eos, None)
    else if st.quoted || st.cr then Fail
    else Done(Eos, Some(st.cell + st.pending))
  }

  function ScanFrom(text: string, st: Scan, fs: char): (r: Body)
    ensures r.Body? ==> r.used <= |text| && (r.sep.Eos? ==> r.used == |text|) && (!r.sep.Eos? ==> r.used > 0)
    decreases |text|
  {
    if text == "" then
      var e := AtEnd(st);
      if e.Done? then Body(Eos, 0, e.cell) else Illegal
    else
      match Step(st, text[0], fs)
      case Fail => Illegal
      case Done(sep, cell) => Body(sep, 1, cell)
      case More(st') =>
        var r := ScanFrom(text[1..], st', fs);
        if r.Illegal? then Illegal else r.(used := r.used + 1)
  }

  /** A result found n characters further on. */
  function Behind(n: nat, b: Body): Body {
    if b.Illegal? then b else b.(used := n + b.used)
  }

  function Fresh(): Scan {
    Scan(Start, false, false, false, false, "", "")
  }

  function ParseBody(text: string, fs: char): Body {
    ScanFrom(text, Fresh(), fs)
  }

  // ---- parsing rows

  datatype RowResult = RowResult(cells: Row, used: nat) | Malformed

  /** The cells of a row up to a row separator or the end of the text. */
  function ParseCells(text: string, fs: char): (r: RowResult)
    ensures r.RowResult? ==> r.cells != [] && r.used <= |text| && (text != "" ==> r.used > 0)
    decreases |text|
  {
    var b := ParseBody(text, fs);
    if b.Illegal? then Malformed
    else if b.sep.ColSep? then
      var rest := ParseCells(text[b.used..], fs);
      if rest.Malformed? then Malformed else RowResult([b.cell] + rest.cells, b.used + rest.used)
    else RowResult([b.cell], b.used)
  }

  /** parse_row: no cells at the end of the text. */
  function ParseRow(text: string, fs: char): RowResult {
    if text == "" then RowResult([], 0) else ParseCells(text, fs)
  }

  /** The rows a text behind any byte order mark holds, and whether it ends without IllegalFormatError. */
  datatype Rows = Rows(rows: seq<Row>, ok: bool)

  function Parse(text: string, fs: char): Rows
    decreases |text|
  {
    if text == "" then Rows([], true)
    else
      var r := ParseCells(text, fs);
      if r.Malformed? then Rows([], false)
      else
        var rest := Parse(text[r.used..], fs);
        Rows([r.cells] + rest.rows, rest.ok)
  }

  /** parse_line: the cells up to the first row separator; no cells for a malformed line. */
  function ParseLine(text: string, fs: char): Row {
    var r := ParseCells(text, fs);
    if r.Malformed? then [] else r.cells
  }

  // ---- the byte order mark

  const BOM: string := ['\U{ef}', '\U{bb}', '\U{bf}']

  function AfterBom(text: string): string {
    if BOM <= text then text[3..] else text
  }
}
