/** The CSV writer and the symbol reader of the web client.

    JavaScript strings are `string`; a table is its header list (the keys of the first row) and its rows.
    The reference reader follows rules 5 to 7 of section 2 of RFC 4180, with LF line breaks. */
module Csv {
  import opened Options

  const COMMA := ','
  const QUOTE := '"'
  const LF := '\n'
  const BOM: string := "\U{FEFF}"

  // ----- the writer

  /** A value after `String(val)`; null, and a key the row lacks, print as nothing. */
  datatype Value = Nullish | Text(s: string)

  type Record = map<string, Value>

  function Cell(row: Record, header: string): string {
    if header in row && row[header].Text? then row[header].s else ""
  }

  /** `str.replace(/"/g, '""')` */
  function Doubled(s: string): string {
    if s == "" then "" else (if s[0] == QUOTE then [QUOTE, QUOTE] else [s[0]]) + Doubled(s[1..])
  }

  function Encode(s: string): string {
    if COMMA in s || QUOTE in s || LF in s then [QUOTE] + Doubled(s) + [QUOTE] else s
  }

  function Join(parts: seq<string>, separator: char): string {
    if parts == [] then "" else if |parts| == 1 then parts[0]
    else parts[0] + [separator] + Join(parts[1..], separator)
  }

  function Encoded(cells: seq<string>): (r: seq<string>)
    ensures |r| == |cells| && forall i :: 0 <= i < |cells| ==> r[i] == Encode(cells[i])
  {
    seq(|cells|, i requires 0 <= i < |cells| => Encode(cells[i]))
  }

  function Line(cells: seq<string>): string {
    Join(Encoded(cells), COMMA)
  }

  function LinesOf(table: seq<seq<string>>): (r: seq<string>)
    ensures |r| == |table| && forall i :: 0 <= i < |table| ==> r[i] == Line(table[i])
  {
    seq(|table|, i requires 0 <= i < |table| => Line(table[i]))
  }

  /** The cells the writer prints, row by row. */
  function Cells(headers: seq<string>, data: seq<Record>): (r: seq<seq<string>>)
    ensures |r| == |data|
    ensures forall i :: 0 <= i < |data| ==> |r[i]| == |headers|
    ensures forall i, j :: 0 <= i < |data| && 0 <= j < |headers| ==> r[i][j] == Cell(data[i], headers[j])
  {
    seq(|data|, i requires 0 <= i < |data| =>
      seq(|headers|, j requires 0 <= j < |headers| => Cell(data[i], headers[j])))
  }

  function Body(table: seq<seq<string>>): string {
    Join(LinesOf(table), LF)
  }

  /** The downloaded text; nothing is downloaded for an empty table. */
  function Document(headers: seq<string>, data: seq<Record>): Option<string> {
    if data == [] then None
    else Some(BOM + Join([Join(headers, COMMA)] + LinesOf(Cells(headers, data)), LF))
  }

  // ----- the reference reader

  datatype Read = Malformed | Field(cell: string, rest: string)

  function Push(c: char, r: Read): Read {
    match r case Malformed => Malformed case Field(cell, rest) => Field([c] + cell, rest)
  }

  /** An unquoted field: no double quote may appear in it (rule 5). */
  function ReadPlain(t: string): (r: Read)
    ensures r.Field? ==> |r.rest| <= |t|
  {
    if t == "" || t[0] == COMMA || t[0] == LF then Field("", t)
    else if t[0] == QUOTE then Malformed
    else Push(t[0], ReadPlain(t[1..]))
  }

  /** Inside double quotes: commas and line breaks are data (rule 6), two quotes are one (rule 7). */
  function ReadQuoted(t: string): (r: Read)
    ensures r.Field? ==> |r.rest| <= |t|
    decreases |t|
  {
    if t == "" then Malformed
    else if t[0] != QUOTE then Push(t[0], ReadQuoted(t[1..]))
    else if |t| > 1 && t[1] == QUOTE then Push(QUOTE, ReadQuoted(t[2..]))
    else Field("", t[1..])
  }

  function ReadField(t: string): (r: Read)
    ensures r.Field? ==> |r.rest| <= |t|
  {
    if t != "" && t[0] == QUOTE then ReadQuoted(t[1..]) else ReadPlain(t)
  }

  /** Whole records: fields separated by commas, records by LF. */
  function ReadTable(t: string): Option<seq<seq<string>>>
    decreases |t|
  {
    match ReadField(t)
    case Malformed => None
    case Field(cell, rest) =>
      if rest == "" then Some([[cell]])
      else
        match ReadTable(rest[1..])
        case None => None
        case Some(more) =>
          if rest[0] == LF then Some([[cell]] + more)
          else if rest[0] == COMMA && more != [] then Some([[cell] + more[0]] + more[1..])
          else None
  }

  // ----- the round trip

  /** Where a field may end. */
  predicate Ends(rest: string) {
    rest == "" || rest[0] == COMMA || rest[0] == LF
  }

  lemma {:induction false} PlainIsRead(s: string, rest: string)
    requires COMMA !in s && QUOTE !in s && LF !in s && Ends(rest)
    ensures ReadPlain(s + rest) == Field(s, rest)
  {
    if s == "" {
      assert s + rest == rest;
    } else {
      PlainIsRead(s[1..], rest);
      assert (s + rest)[1..] == s[1..] + rest;
      assert [s[0]] + s[1..] == s;
    }
  }

  lemma {:induction false} QuotedIsRead(s: string, rest: string)
    requires Ends(rest)
    ensures ReadQuoted(Doubled(s) + [QUOTE] + rest) == Field(s, rest)
  {
    var t := Doubled(s) + [QUOTE] + rest;
    if s == "" {
      assert t == [QUOTE] + rest;
      assert t[1..] == rest;
    } else {
      QuotedIsRead(s[1..], rest);
      var tail := Doubled(s[1..]) + [QUOTE] + rest;
      assert t == (if s[0] == QUOTE then [QUOTE, QUOTE] else [s[0]]) + tail;
      assert (if s[0] == QUOTE then t[2..] else t[1..]) == tail;
      assert [s[0]] + s[1..] == s;
    }
  }

  lemma CellIsRead(s: string, rest: string)
    requires Ends(rest)
    ensures ReadField(Encode(s) + rest) == Field(s, rest)
  {
    hide ReadQuoted, ReadPlain, Doubled;
    if COMMA in s || QUOTE in s || LF in s {
      QuotedIsRead(s, rest);
      var inner := Doubled(s) + [QUOTE] + rest;
      assert Encode(s) + rest == [QUOTE] + inner;
      assert ([QUOTE] + inner)[1..] == inner;
    } else {
      PlainIsRead(s, rest);
      if s + rest != "" { assert (s + rest)[0] == if s == "" then rest[0] else s[0]; }
    }
  }

  lemma FieldThenEnd(t: string, cell: string)
    requires ReadField(t) == Field(cell, "")
    ensures ReadTable(t) == Some([[cell]])
  {
  }

  lemma FieldThenMore(t: string, cell: string, rest: string)
    requires ReadField(t) == Field(cell, rest) && rest != "" && Ends(rest)
    requires ReadTable(rest[1..]).Some? && ReadTable(rest[1..]).value != []
    ensures var more := ReadTable(rest[1..]).value;
            ReadTable(t) == Some(if rest[0] == LF then [[cell]] + more else [[cell] + more[0]] + more[1..])
  {
    hide ReadField;
  }

  /** A line, followed by nothing or by the remaining lines. */
  lemma {:induction false} LineIsRead(cells: seq<string>, rest: string, more: seq<seq<string>>)
    requires cells != [] && (rest == "" || rest[0] == LF)
    requires if rest == "" then more == [] else ReadTable(rest[1..]) == Some(more) && more != []
    ensures ReadTable(Line(cells) + rest) == Some([cells] + more)
    decreases |cells|
  {
    hide ReadTable, ReadField, Encode;
    var first := cells[0];
    if |cells| == 1 {
      assert Line(cells) == Encode(first);
      CellIsRead(first, rest);
      assert [first] == cells;
      if rest == "" {
        FieldThenEnd(Line(cells) + rest, first);
        assert [cells] + more == [[first]];
      } else {
        FieldThenMore(Line(cells) + rest, first, rest);
      }
    } else {
      var others := cells[1..];
      assert Encoded(cells)[1..] == Encoded(others);
      var tail := [COMMA] + Line(others) + rest;
      assert Line(cells) + rest == Encode(first) + tail;
      CellIsRead(first, tail);
      assert tail[1..] == Line(others) + rest;
      LineIsRead(others, rest, more);
      FieldThenMore(Line(cells) + rest, first, tail);
      var read := [others] + more;
      assert read[0] == others && read[1..] == more;
      assert [first] + others == cells;
    }
  }

  /** Data rows are uniquely decodable: whatever the cells hold, the reader gives back exactly the rows
      that were written, as long as there is a column. */
  lemma {:induction false} TableIsRead(table: seq<seq<string>>)
    requires table != [] && forall i :: 0 <= i < |table| ==> table[i] != []
    ensures ReadTable(Body(table)) == Some(table)
  {
    hide ReadTable, Line;
    var first := table[0];
    if |table| == 1 {
      assert Body(table) == Line(first) + "";
      LineIsRead(first, "", []);
      assert [first] + [] == table;
    } else {
      var others := table[1..];
      TableIsRead(others);
      assert LinesOf(table)[1..] == LinesOf(others);
      var rest := [LF] + Body(others);
      assert Body(table) == Line(first) + rest;
      assert rest[1..] == Body(others);
      LineIsRead(first, rest, others);
      assert [first] + others == table;
    }
  }

  /** For the tables the writer is given (at least one row, all of one width) the data rows are recovered
      if and only if there is at least one column. */
  lemma DataRowsDecodeIffColumns(headers: seq<string>, data: seq<Record>)
    requires data != []
    ensures ReadTable(Body(Cells(headers, data))) == Some(Cells(headers, data)) <==> headers != []
  {
    var table := Cells(headers, data);
    if headers != [] {
      TableIsRead(table);
    } else {
      NoColumnsReadAsEmptyCell(table);
    }
  }

  /** And a decoded cell is the value of its row under its header, or empty if that is null or missing. */
  lemma CellsAreValues(headers: seq<string>, data: seq<Record>, i: nat, j: nat)
    requires i < |data| && j < |headers|
    ensures ReadTable(Body(Cells(headers, data))).Some?
    ensures var table, row, header := ReadTable(Body(Cells(headers, data))).value, data[i], headers[j];
            && |table| == |data| && |table[i]| == |headers|
            && (forall s :: header in row && row[header] == Text(s) ==> table[i][j] == s)
            && (header !in row || row[header] == Nullish ==> table[i][j] == "")
  {
    TableIsRead(Cells(headers, data));
  }

  lemma NoColumnsReadAsEmptyCell(table: seq<seq<string>>)
    requires table != [] && table[0] == []
    ensures var r := ReadTable(Body(table)); r.Some? ==> r.value != [] && r.value[0] != []
  {
  }

  /** The document is the mark, the header line and, on the following lines, the decodable data rows. */
  lemma DocumentLayout(headers: seq<string>, data: seq<Record>)
    requires data != []
    ensures Document(headers, data) == Some(BOM + Join(headers, COMMA) + [LF] + Body(Cells(headers, data)))
  {
    var head, lines := Join(headers, COMMA), LinesOf(Cells(headers, data));
    assert ([head] + lines)[1..] == lines;
    assert BOM + (head + [LF] + Join(lines, LF)) == BOM + head + [LF] + Join(lines, LF);
  }

  // ----- the header line

  /** The writer leaves the cell as it is. */
  predicate Unquoted(s: string) {
    COMMA !in s && QUOTE !in s && LF !in s
  }

  lemma {:induction false} DoublingLengthens(s: string)
    ensures |s| <= |Doubled(s)|
  {
    if s != "" { DoublingLengthens(s[1..]); }
  }

  lemma EncodingLengthens(s: string)
    ensures |Encode(s)| >= |s| && (|Encode(s)| == |s| <==> Unquoted(s)) && (Unquoted(s) ==> Encode(s) == s)
    ensures |Encode(s)| <= |Doubled(s)| + 2
  {
    DoublingLengthens(s);
  }

  lemma {:induction false} PlainReadLength(t: string)
    ensures var r := ReadPlain(t); r.Field? ==> Unquoted(r.cell) && |t| == |r.cell| + |r.rest|
  {
    if t != "" && t[0] != COMMA && t[0] != LF && t[0] != QUOTE { PlainReadLength(t[1..]); }
  }

  lemma {:induction false} QuotedReadLength(t: string)
    ensures var r := ReadQuoted(t); r.Field? ==> |t| == |Doubled(r.cell)| + 1 + |r.rest|
    decreases |t|
  {
    if t != "" {
      if t[0] != QUOTE {
        QuotedReadLength(t[1..]);
      } else if |t| > 1 && t[1] == QUOTE {
        QuotedReadLength(t[2..]);
      }
    }
  }

  /** No way of writing a cell that the reader accepts is shorter than the writer's. */
  lemma FieldIsNoShorter(t: string)
    ensures var r := ReadField(t); r.Field? ==> |Encode(r.cell)| + |r.rest| <= |t|
  {
    var r := ReadField(t);
    if r.Field? {
      EncodingLengthens(r.cell);
      if t != "" && t[0] == QUOTE { QuotedReadLength(t[1..]); } else { PlainReadLength(t); }
    }
  }

  lemma BodyOfCell(cell: string)
    ensures Body([[cell]]) == Encode(cell)
  {
    assert LinesOf([[cell]]) == [Line([cell])] && Encoded([cell]) == [Encode(cell)];
  }

  lemma BodyWithRow(row: seq<string>, table: seq<seq<string>>)
    requires table != []
    ensures Body([row] + table) == Line(row) + [LF] + Body(table)
  {
    hide Line;
    assert LinesOf([row] + table)[1..] == LinesOf(table);
  }

  lemma BodyOfRow(cell: string, more: seq<seq<string>>)
    requires more != []
    ensures Body([[cell]] + more) == Encode(cell) + [LF] + Body(more)
  {
    assert Line([cell]) == Encode(cell) by { assert Encoded([cell]) == [Encode(cell)]; }
    BodyWithRow([cell], more);
  }

  lemma BodyOfColumn(cell: string, more: seq<seq<string>>)
    requires more != [] && more[0] != []
    ensures Body([[cell] + more[0]] + more[1..]) == Encode(cell) + [COMMA] + Body(more)
  {
    var row, rest := [cell] + more[0], more[1..];
    var all := [row] + rest;
    assert Encoded(row)[1..] == Encoded(more[0]);
    assert Line(row) == Encode(cell) + [COMMA] + Line(more[0]);
    hide Line, Encode;
    if rest == [] {
      assert all == [row] && more == [more[0]];
    } else {
      assert more == [more[0]] + rest;
      BodyWithRow(row, rest);
      BodyWithRow(more[0], rest);
      hide Body;
      assert Body(all) == Encode(cell) + [COMMA] + (Line(more[0]) + [LF] + Body(rest));
    }
  }

  /** Nor is any text that reads as a table shorter than the writer's text for it. */
  lemma {:induction false} WritingIsShortest(t: string)
    ensures var r := ReadTable(t);
            r.Some? ==> r.value != [] && (forall i :: 0 <= i < |r.value| ==> r.value[i] != [])
                        && |Body(r.value)| <= |t|
    decreases |t|
  {
    var f, r := ReadField(t), ReadTable(t);
    if r.Some? {
      FieldIsNoShorter(t);
      if f.rest == "" {
        BodyOfCell(f.cell);
      } else {
        FieldConsumes(t);
        WritingIsShortest(f.rest[1..]);
        var more := ReadTable(f.rest[1..]).value;
        hide Body, Encode;
        if f.rest[0] == LF { BodyOfRow(f.cell, more); } else { BodyOfColumn(f.cell, more); }
      }
    }
  }

  lemma FieldConsumes(t: string)
    ensures var f := ReadField(t); f.Field? && f.rest != "" ==> |f.rest[1..]| < |t|
  {
  }

  /** Joining cells as they are is shorter than the writer's line, unless none needs quotes. */
  lemma {:induction false} LineLengthens(cells: seq<string>)
    ensures |Join(cells, COMMA)| <= |Line(cells)|
    ensures |Join(cells, COMMA)| == |Line(cells)| <==> forall i :: 0 <= i < |cells| ==> Unquoted(cells[i])
    ensures (forall i :: 0 <= i < |cells| ==> Unquoted(cells[i])) ==> Join(cells, COMMA) == Line(cells)
  {
    if cells != [] {
      EncodingLengthens(cells[0]);
      if |cells| > 1 {
        LineLengthens(cells[1..]);
        assert Encoded(cells)[1..] == Encoded(cells[1..]);
        assert forall i :: 1 <= i < |cells| ==> cells[i] == cells[1..][i - 1];
      }
    }
  }

  /** What follows the mark in a document. */
  function Printed(headers: seq<string>, table: seq<seq<string>>): string {
    Join(headers, COMMA) + [LF] + Body(table)
  }

  /** A whole document, header line included, is read back if and only if there is a column and no header
      needs quotes. */
  lemma DocumentDecodesIffPlainHeaders(headers: seq<string>, data: seq<Record>)
    requires data != []
    ensures Document(headers, data) == Some(BOM + Printed(headers, Cells(headers, data)))
    ensures ReadTable(Printed(headers, Cells(headers, data))) == Some([headers] + Cells(headers, data))
            <==> headers != [] && forall i :: 0 <= i < |headers| ==> Unquoted(headers[i])
  {
    var table := Cells(headers, data);
    var t, all := Printed(headers, table), [headers] + table;
    DocumentLayout(headers, data);
    assert BOM + Join(headers, COMMA) + [LF] + Body(table) == BOM + Printed(headers, table);
    BodyWithRow(headers, table);
    LineLengthens(headers);
    assert all[0] == headers;
    hide Line, Body, Unquoted, ReadTable;
    WritingIsShortest(t);
    if headers != [] && forall i :: 0 <= i < |headers| ==> Unquoted(headers[i]) {
      TableIsRead(all);
    }
  }

  /** A header that fails: a column named `a,b` is read back as two columns. */
  lemma HeaderWithCommaIsSplit(row: Record)
    requires Cell(row, "a,b") == "1"
    ensures Document(["a,b"], [row]) == Some(BOM + "a,b\n1")
    ensures ReadTable("a,b\n1") == Some([["a", "b"], ["1"]])
  {
    var table := Cells(["a,b"], [row]);
    assert table[0] == ["1"] by { assert |table[0]| == 1 && table[0][0] == "1"; }
    DocumentDecodesIffPlainHeaders(["a,b"], [row]);
    hide Body, Document, ReadTable, Cells;
    assert table == [["1"]];
    PrintedLines("a,b");
    assert "a,b" + "\n1" == "a,b\n1";
    TwoHeadersRead();
  }

  lemma PrintedLines(head: string)
    ensures Printed([head], [["1"]]) == head + "\n1"
  {
    BodyOfCell("1");
    assert Encode("1") == "1";
    hide Body;
    assert head + [LF] + "1" == head + "\n1";
  }

  lemma TwoHeadersRead()
    ensures ReadTable("a,b\n1") == Some([["a", "b"], ["1"]])
  {
    var headers, table := ["a", "b"], [["1"]];
    LineLengthens(headers);
    assert headers[1..] == ["b"];
    assert Line(headers) == "a,b";
    BodyWithRow(headers, table);
    BodyOfCell("1");
    assert Encode("1") == "1";
    hide Line, Body, ReadTable;
    var all := [headers] + table;
    assert Body(all) == "a,b" + [LF] + "1" == "a,b\n1";
    TableIsRead(all);
    assert all == [["a", "b"], ["1"]];
  }

  // ----- the symbol reader

  /** What JavaScript's `trim` removes. */
  predicate IsSpace(c: char) {
    || c in "\t\n\U{0B}\U{0C}\r \U{A0}\U{1680}\U{2000}\U{2001}\U{2002}\U{2003}\U{2004}\U{2005}\U{2006}\U{2007}"
    || c in "\U{2008}\U{2009}\U{200A}\U{2028}\U{2029}\U{202F}\U{205F}\U{3000}\U{FEFF}"
  }

  function TrimStart(t: string): string {
    if t != "" && IsSpace(t[0]) then TrimStart(t[1..]) else t
  }

  function TrimEnd(t: string): string {
    if t != "" && IsSpace(t[|t| - 1]) then TrimEnd(t[..|t| - 1]) else t
  }

  function Trim(t: string): string {
    TrimEnd(TrimStart(t))
  }

  /** `t.split("\n")` */
  function Lines(t: string): (r: seq<string>)
    ensures r != []
  {
    if t == "" then [""] else Prepend(t[0], Lines(t[1..]))
  }

  function Prepend(c: char, lines: seq<string>): (r: seq<string>)
    requires lines != []
    ensures r != []
  {
    if c == LF then [""] + lines else [[c] + lines[0]] + lines[1..]
  }

  /** `line.split(",")[0]` */
  function Before(line: string): string {
    if line == "" || line[0] == COMMA then "" else [line[0]] + Before(line[1..])
  }

  function WithoutQuotes(s: string): string {
    if s == "" then "" else (if s[0] == QUOTE then "" else [s[0]]) + WithoutQuotes(s[1..])
  }

  function SymbolOf(line: string): seq<string> {
    if Before(line) == "" then [] else [WithoutQuotes(Trim(Before(line)))]
  }

  function SymbolsOf(lines: seq<string>): seq<string> {
    if lines == [] then [] else SymbolsOf(lines[..|lines| - 1]) + SymbolOf(lines[|lines| - 1])
  }

  // ----- what its parts do

  predicate AllSpace(t: string) {
    forall i :: 0 <= i < |t| ==> IsSpace(t[i])
  }

  lemma {:induction false} TrimStartCuts(t: string) returns (cut: string)
    ensures t == cut + TrimStart(t) && AllSpace(cut)
    ensures TrimStart(t) == "" || !IsSpace(TrimStart(t)[0])
  {
    hide IsSpace;
    if t != "" && IsSpace(t[0]) {
      cut := TrimStartCuts(t[1..]);
      assert t == [t[0]] + t[1..];
      cut := [t[0]] + cut;
    } else {
      cut := "";
    }
  }

  lemma {:induction false} TrimEndCuts(t: string) returns (cut: string)
    ensures t == TrimEnd(t) + cut && AllSpace(cut)
    ensures TrimEnd(t) == "" || !IsSpace(TrimEnd(t)[|TrimEnd(t)| - 1])
  {
    hide IsSpace;
    if t != "" && IsSpace(t[|t| - 1]) {
      cut := TrimEndCuts(t[..|t| - 1]);
      assert t == t[..|t| - 1] + [t[|t| - 1]];
      cut := cut + [t[|t| - 1]];
    } else {
      cut := "";
    }
  }

  /** Trimming cuts white space off both ends and leaves none there. */
  lemma TrimMeans(t: string) returns (head: string, tail: string)
    ensures t == head + Trim(t) + tail && AllSpace(head) && AllSpace(tail)
    ensures Trim(t) == "" || (!IsSpace(Trim(t)[0]) && !IsSpace(Trim(t)[|Trim(t)| - 1]))
  {
    hide IsSpace;
    head := TrimStartCuts(t);
    tail := TrimEndCuts(TrimStart(t));
    if Trim(t) != "" { assert TrimStart(t)[0] == Trim(t)[0]; }
  }

  lemma TrimsToNothingIff(t: string)
    ensures Trim(t) == "" <==> AllSpace(t)
  {
    hide IsSpace;
    var head, tail := TrimMeans(t);
    if Trim(t) != "" { assert t[|head|] == Trim(t)[0]; }
  }

  /** The text before the first comma. */
  lemma {:induction false} BeforeMeans(line: string)
    ensures var s := Before(line); s <= line && COMMA !in s && (s == line || line[|s|] == COMMA)
  {
    if line != "" && line[0] != COMMA {
      var rest := Before(line[1..]);
      BeforeMeans(line[1..]);
      assert Before(line) == [line[0]] + rest;
      assert line == [line[0]] + line[1..];
      hide Before;
    }
  }

  /** Joining the lines with line breaks gives the text back, and no line has one. */
  lemma {:induction false} LinesMean(t: string)
    ensures Join(Lines(t), LF) == t && forall i :: 0 <= i < |Lines(t)| ==> LF !in Lines(t)[i]
  {
    if t != "" {
      LinesMean(t[1..]);
      var rest := Lines(t[1..]);
      if t[0] == LF {
        assert ([""] + rest)[1..] == rest;
        assert "" + [LF] + t[1..] == t;
      } else {
        JoinPush(t[0], rest);
        assert t == [t[0]] + t[1..];
      }
    }
  }

  lemma JoinPush(c: char, lines: seq<string>)
    requires lines != []
    ensures Join([[c] + lines[0]] + lines[1..], LF) == [c] + Join(lines, LF)
  {
    var more := [[c] + lines[0]] + lines[1..];
    assert more[1..] == lines[1..];
    if |lines| > 1 {
      assert [c] + lines[0] + [LF] + Join(lines[1..], LF) == [c] + (lines[0] + [LF] + Join(lines[1..], LF));
    }
  }

  /** Removing quotes works piece by piece, drops a quote and keeps every other character. */
  lemma {:induction false} WithoutQuotesMeans(x: string, y: string)
    ensures WithoutQuotes(x + y) == WithoutQuotes(x) + WithoutQuotes(y)
    ensures |x| == 1 ==> WithoutQuotes(x) == if x[0] == '"' then "" else x
  {
    hide WithoutQuotes;
    if x == "" {
      assert x + y == y;
      WithoutQuotesOf(' ', "");
    } else {
      var c, rest := x[0], x[1..];
      WithoutQuotesMeans(rest, y);
      assert x + y == [c] + (rest + y) && x == [c] + rest;
      WithoutQuotesOf(c, rest + y);
      WithoutQuotesOf(c, rest);
      if |x| == 1 { assert rest == ""; }
    }
  }

  lemma WithoutQuotesOf(c: char, s: string)
    ensures WithoutQuotes([c] + s) == (if c == '"' then "" else [c]) + WithoutQuotes(s)
    ensures WithoutQuotes("") == ""
  {
    assert ([c] + s)[1..] == s;
  }

  /** So a quoted symbol is read without its quotes. */
  lemma QuotedSymbolIsUnquoted(s: string)
    requires QUOTE !in s && COMMA !in s && s != ""
    ensures SymbolOf([QUOTE] + s + [QUOTE]) == [s]
  {
    var open, line := [QUOTE] + s, [QUOTE] + s + [QUOTE];
    BeforeMeans(line);
    assert Before(line) == line;
    QuotesAreKept(line);
    WithoutQuotesMeans(open, [QUOTE]);
    WithoutQuotesMeans([QUOTE], s);
    WithoutQuotesMeans([QUOTE], "");
    NoQuotesUnchanged(s);
    hide Before, Trim, WithoutQuotes;
    assert WithoutQuotes(line) == WithoutQuotes(open) + WithoutQuotes([QUOTE]) == s;
  }

  lemma QuotesAreKept(line: string)
    requires line != "" && line[0] == QUOTE && line[|line| - 1] == QUOTE
    ensures Trim(line) == line
  {
    assert !IsSpace(QUOTE);
  }

  /** `parseCSV`: the loop that pushes the first column of every line but the header. */
  method ParseCSV(text: string) returns (symbols: seq<string>)
    ensures symbols == SymbolsOf(Lines(Trim(text))[1..])
  {
    var lines := Lines(Trim(text))[1..];
    symbols := [];
    for i := 0 to |lines|
      invariant symbols == SymbolsOf(lines[..i])
    {
      assert lines[..i + 1][..i] == lines[..i];
      var col := Before(lines[i]);
      if col != "" { symbols := symbols + [WithoutQuotes(Trim(col))]; }
    }
    assert lines[..|lines|] == lines;
  }

  // ----- what the symbol reader recovers from an exported document

  /** A symbol the reader can recover: no comma, quote or line break, no outer spaces. */
  predicate Plain(s: string) {
    COMMA !in s && QUOTE !in s && LF !in s && Trim(s) == s
  }

  lemma {:induction false} NoQuotesUnchanged(s: string)
    ensures QUOTE !in WithoutQuotes(s)
    ensures QUOTE !in s ==> WithoutQuotes(s) == s
  {
    if s != "" { NoQuotesUnchanged(s[1..]); }
  }

  lemma {:induction false} BeforeStopsAtComma(s: string, rest: string)
    requires COMMA !in s && (rest == "" || rest[0] == COMMA)
    ensures Before(s + rest) == s
  {
    if s == "" {
      assert s + rest == rest;
    } else {
      BeforeStopsAtComma(s[1..], rest);
      assert (s + rest)[1..] == s[1..] + rest;
    }
  }

  lemma {:induction false} DoubledKeepsOtherCharacters(s: string, c: char)
    requires c != QUOTE
    ensures c in Doubled(s) <==> c in s
  {
    if s != "" { DoubledKeepsOtherCharacters(s[1..], c); }
  }

  /** For a symbol without comma or line break, exporting and importing the cell gives it back if and only
      if it has no quote and no outer spaces. */
  lemma SymbolRecoveredIff(s: string)
    requires COMMA !in s && LF !in s
    ensures WithoutQuotes(Trim(Before(Encode(s)))) == s <==> QUOTE !in s && Trim(s) == s
  {
    NoQuotesUnchanged(Trim(Before(Encode(s))));
    if QUOTE !in s {
      BeforeStopsAtComma(s, "");
      assert s + "" == s;
      TrimKeepsCharacters(s, QUOTE);
      NoQuotesUnchanged(Trim(s));
    }
  }

  lemma {:induction false} TrimStartKeepsCharacters(t: string, c: char)
    ensures c in TrimStart(t) ==> c in t
  {
    if t != "" && IsSpace(t[0]) { TrimStartKeepsCharacters(t[1..], c); }
  }

  lemma {:induction false} TrimEndKeepsCharacters(t: string, c: char)
    ensures c in TrimEnd(t) ==> c in t
  {
    if t != "" && IsSpace(t[|t| - 1]) { TrimEndKeepsCharacters(t[..|t| - 1], c); }
  }

  lemma TrimKeepsCharacters(t: string, c: char)
    ensures c in Trim(t) ==> c in t
  {
    TrimStartKeepsCharacters(t, c);
    TrimEndKeepsCharacters(TrimStart(t), c);
  }

  /** Text without a line break is one line; a line break ends the first line. */
  lemma {:induction false} FirstLine(line: string, rest: string)
    requires LF !in line
    ensures Lines(line) == [line]
    ensures Lines(line + [LF] + rest) == [line] + Lines(rest)
  {
    var t := line + [LF] + rest;
    if line == "" {
      assert t == [LF] + rest && t[1..] == rest;
    } else {
      FirstLine(line[1..], rest);
      assert t[1..] == line[1..] + [LF] + rest;
      assert [line[0]] + line[1..] == line;
    }
  }

  lemma {:induction false} LinesOfJoin(lines: seq<string>)
    requires lines != [] && forall i :: 0 <= i < |lines| ==> LF !in lines[i]
    ensures Lines(Join(lines, LF)) == lines
  {
    if |lines| == 1 {
      FirstLine(lines[0], "");
    } else {
      LinesOfJoin(lines[1..]);
      FirstLine(lines[0], Join(lines[1..], LF));
      assert [lines[0]] + lines[1..] == lines;
    }
  }

  ghost function Append(lines: seq<string>, c: char): seq<string>
    requires lines != []
  {
    var n := |lines| - 1;
    if c == LF then lines + [""] else lines[..n] + [lines[n] + [c]]
  }

  lemma PrependAppend(c: char, lines: seq<string>, d: char)
    requires lines != []
    ensures Prepend(c, Append(lines, d)) == Append(Prepend(c, lines), d)
  {
    if c != LF && d != LF && |lines| == 1 {
      assert [c] + (lines[0] + [d]) == [c] + lines[0] + [d];
    }
  }

  /** Appending a character extends the last line, or starts a new one. */
  lemma {:induction false} LinesAppend(t: string, c: char)
    ensures Lines(t + [c]) == Append(Lines(t), c)
  {
    if t == "" {
      assert t + [c] == [c] && [c][1..] == "" && [c] + "" == [c] == "" + [c];
      assert Lines("") == [""];
      assert Append([""], c) == Prepend(c, [""]);
    } else {
      LinesAppend(t[1..], c);
      assert (t + [c])[1..] == t[1..] + [c] && (t + [c])[0] == t[0];
      PrependAppend(t[0], Lines(t[1..]), c);
    }
  }

  /** A line is empty or starts with something trimming leaves alone. */
  predicate Tidy(line: string) {
    line == "" || !IsSpace(line[0])
  }

  lemma {:induction false} BeforeOfLine(line: string)
    ensures COMMA !in line ==> Before(line) == line
    ensures forall c: char :: COMMA in line ==> Before(line + [c]) == Before(line)
    ensures COMMA !in Before(line)
  {
    if line != "" {
      BeforeOfLine(line[1..]);
      forall c: char ensures (line + [c])[1..] == line[1..] + [c] && (line + [c])[0] == line[0] {
      }
    }
  }

  lemma TrailingSpaceIsIrrelevant(line: string, c: char)
    requires IsSpace(c) && Tidy(line + [c])
    ensures Tidy(line) && SymbolOf(line + [c]) == SymbolOf(line)
  {
    assert line != "" by { assert ("" + [c])[0] == c; }
    var long := line + [c];
    assert long[0] == line[0];
    BeforeOfLine(line);
    BeforeOfLine(long);
    assert COMMA != c;
    if COMMA !in line {
      assert COMMA !in long;
      assert Before(long) == long && Before(line) == line;
      assert TrimStart(long) == long && TrimStart(line) == line;
      assert long[|long| - 1] == c && long[..|long| - 1] == line;
      assert TrimEnd(long) == TrimEnd(line);
    }
  }

  /** A trailing space character adds no symbol below the header. */
  lemma SymbolsAppend(ls: seq<string>, c: char)
    requires ls != [] && IsSpace(c)
    requires var long := Append(ls, c); forall i :: 1 <= i < |long| ==> Tidy(long[i])
    ensures forall i :: 1 <= i < |ls| ==> Tidy(ls[i])
    ensures SymbolsOf(Append(ls, c)[1..]) == SymbolsOf(ls[1..])
  {
    hide SymbolOf, IsSpace;
    var long := Append(ls, c);
    var n := |ls| - 1;
    if c == LF {
      assert long[1..] == ls[1..] + [""];
      assert (ls[1..] + [""])[..n] == ls[1..];
      assert forall i :: 1 <= i < |ls| ==> ls[i] == long[i];
      EmptyLineHasNoSymbol();
    } else if n > 0 {
      assert long[n] == ls[n] + [c];
      TrailingSpaceIsIrrelevant(ls[n], c);
      assert long[1..][..n - 1] == ls[1..][..n - 1];
      assert forall i :: 1 <= i < n ==> ls[i] == long[i];
    }
  }

  /** Trimming the end of the text does not change the symbols found below the header. */
  lemma {:induction false} TrimEndKeepsSymbols(t: string)
    requires var ls := Lines(t); forall i :: 1 <= i < |ls| ==> Tidy(ls[i])
    ensures SymbolsOf(Lines(TrimEnd(t))[1..]) == SymbolsOf(Lines(t)[1..])
  {
    if t != "" && IsSpace(t[|t| - 1]) {
      hide IsSpace, SymbolsOf, Tidy, Append, Lines;
      var u, c := t[..|t| - 1], t[|t| - 1];
      assert t == u + [c];
      LinesAppend(u, c);
      SymbolsAppend(Lines(u), c);
      TrimEndKeepsSymbols(u);
    }
  }

  lemma EmptyLineHasNoSymbol()
    ensures SymbolOf("") == []
  {
  }

  /** Some character of the header line is not a space. */
  predicate NonBlank(h: string) {
    exists i :: 0 <= i < |h| && !IsSpace(h[i])
  }

  lemma {:induction false} TrimStartStopsInHeader(h: string, rest: string)
    requires NonBlank(h)
    ensures TrimStart(h + rest) == TrimStart(h) + rest
  {
    assert (h + rest)[0] == h[0];
    if IsSpace(h[0]) {
      assert (h + rest)[1..] == h[1..] + rest;
      var i :| 0 <= i < |h| && !IsSpace(h[i]);
      assert h[1..][i - 1] == h[i];
      TrimStartStopsInHeader(h[1..], rest);
    }
  }

  lemma {:induction false} TrimsShorten(t: string)
    ensures |TrimStart(t)| <= |t| && |TrimEnd(t)| <= |t|
  {
    if t != "" {
      TrimsShorten(t[1..]);
      TrimsShorten(t[..|t| - 1]);
    }
  }

  lemma TrimmedIsTidy(s: string)
    requires Trim(s) == s
    ensures Tidy(s)
  {
    if s != "" {
      TrimsShorten(s[1..]);
      TrimsShorten(TrimStart(s));
    }
  }

  /** A printed line whose first cell is a plain symbol is tidy, is one line, and yields that symbol. */
  lemma LineOfSymbol(cells: seq<string>)
    requires cells != [] && Plain(cells[0])
    ensures Tidy(Line(cells))
    ensures SymbolOf(Line(cells)) == if cells[0] == "" then [] else [cells[0]]
  {
    var s := cells[0];
    var rest := if |cells| == 1 then "" else [COMMA] + Join(Encoded(cells)[1..], COMMA);
    assert Line(cells) == s + rest;
    BeforeStopsAtComma(s, rest);
    NoQuotesUnchanged(s);
    TrimmedIsTidy(s);
    CommaIsNotSpace();
    hide IsSpace, TrimStart, TrimEnd, WithoutQuotes;
    if s == "" { assert Line(cells) == rest; } else { assert Line(cells)[0] == s[0]; }
  }

  lemma CommaIsNotSpace()
    ensures !IsSpace(COMMA)
  {
  }

  lemma {:induction false} JoinKeepsCharacters(parts: seq<string>, separator: char, c: char)
    requires c != separator && forall i :: 0 <= i < |parts| ==> c !in parts[i]
    ensures c !in Join(parts, separator)
  {
    if |parts| > 1 { JoinKeepsCharacters(parts[1..], separator, c); }
  }

  lemma LineHasNoBreak(cells: seq<string>)
    requires forall j :: 0 <= j < |cells| ==> LF !in cells[j]
    ensures LF !in Line(cells)
  {
    forall j | 0 <= j < |cells| ensures LF !in Encoded(cells)[j] {
      DoubledKeepsOtherCharacters(cells[j], LF);
    }
    JoinKeepsCharacters(Encoded(cells), COMMA, LF);
  }

  /** The symbols a table lists: the non-empty cells of its first column, in order. */
  function FirstColumn(table: seq<seq<string>>): seq<string>
    requires forall i :: 0 <= i < |table| ==> table[i] != []
  {
    if table == [] then []
    else
      var s := table[|table| - 1][0];
      FirstColumn(table[..|table| - 1]) + if s == "" then [] else [s]
  }

  lemma {:induction false} SymbolsOfLines(table: seq<seq<string>>)
    requires forall i :: 0 <= i < |table| ==> table[i] != [] && Plain(table[i][0])
    ensures SymbolsOf(LinesOf(table)) == FirstColumn(table)
  {
    if table != [] {
      var n := |table| - 1;
      SymbolsOfLines(table[..n]);
      hide SymbolOf, Line;
      assert LinesOf(table)[..n] == LinesOf(table[..n]);
      LineOfSymbol(table[n]);
    }
  }

  /** Importing an exported document gives back the first column, in order, when its symbols are plain,
      no cell has a line break, and the header is a non-blank single line. */
  lemma ImportRecoversFirstColumn(headers: seq<string>, data: seq<Record>)
    requires data != [] && headers != []
    requires NonBlank(Join(headers, COMMA)) && LF !in Join(headers, COMMA)
    requires forall i, j :: 0 <= i < |data| && 0 <= j < |headers| ==> LF !in Cell(data[i], headers[j])
    requires forall i :: 0 <= i < |data| ==> Plain(Cell(data[i], headers[0]))
    ensures SymbolsOf(Lines(Trim(Document(headers, data).value))[1..]) == FirstColumn(Cells(headers, data))
  {
    var table, head := Cells(headers, data), Join(headers, COMMA);
    var lines := LinesOf(table);
    DocumentLayout(headers, data);
    forall i | 0 <= i < |table| ensures LF !in lines[i] && Tidy(lines[i]) {
      LineHasNoBreak(table[i]);
      LineOfSymbol(table[i]);
    }
    SymbolsOfLines(table);
    LinesOfJoin(lines);
    hide Line, Tidy, Plain, Document, SymbolsOf;
    TrimmedDocument(head, Body(table));
  }

  lemma TrimmedDocument(head: string, body: string)
    requires NonBlank(head) && LF !in head
    requires forall i :: 0 <= i < |Lines(body)| ==> Tidy(Lines(body)[i])
    ensures SymbolsOf(Lines(Trim(BOM + head + [LF] + body))[1..]) == SymbolsOf(Lines(body))
  {
    var h := BOM + head;
    assert NonBlank(h) by {
      var i :| 0 <= i < |head| && !IsSpace(head[i]);
      assert h[i + 1] == head[i];
    }
    assert BOM + head + [LF] + body == h + ([LF] + body);
    TrimStartStopsInHeader(h, [LF] + body);
    var first := TrimStart(h);
    TrimStartKeepsCharacters(h, LF);
    assert first + ([LF] + body) == first + [LF] + body;
    FirstLine(first, body);
    hide Tidy, SymbolsOf;
    TrimEndKeepsSymbols(first + [LF] + body);
  }
}
