/** The CSV printer and one-pass parser of scripts/rule-gate.utils.ts (section 2 of RFC 4180). */
module Csv {
  import opened Strings
  import Lists

  type Row = seq<string>

  const QUOTE := '\"'
  const COMMA := ','
  const CR := '\r'
  const LF := '\n'

  // ---- Printing --------------------------------------------------------------------------

  predicate Special(c: char) {
    c == QUOTE || c == COMMA || c == CR || c == LF
  }

  predicate NeedsQuotes(value: string) {
    exists i :: 0 <= i < |value| && Special(value[i])
  }

  function Escaped(value: string): string {
    if value == "" then "" else (if value[0] == QUOTE then [QUOTE, QUOTE] else [value[0]]) + Escaped(value[1..])
  }

  function Field(value: string): string {
    if NeedsQuotes(value) then [QUOTE] + Escaped(value) + [QUOTE] else value
  }

  function Fields(row: Row): seq<string> {
    if row == [] then [] else [Field(row[0])] + Fields(row[1..])
  }

  function Line(row: Row): string {
    Join(Fields(row), [COMMA])
  }

  function Lines(rows: seq<Row>): seq<string> {
    if rows == [] then [] else [Line(rows[0])] + Lines(rows[1..])
  }

  function ToCsv(rows: seq<Row>): string {
    Join(Lines(rows), [CR, LF]) + [CR, LF]
  }

  // ---- Parsing ---------------------------------------------------------------------------

  predicate HasContent(row: Row) {
    exists i :: 0 <= i < |row| && !Blank(row[i])
  }

  /** The rows still to come, from the parser's state and the text left. */
  function Rows(text: string, quoted: bool, field: string, row: Row): seq<Row>
    decreases |text|
  {
    if text == "" then if field != "" || row != [] then [row + [field]] else []
    else if quoted then
      if text[0] == QUOTE && |text| > 1 && text[1] == QUOTE then Rows(text[2..], true, field + [QUOTE], row)
      else if text[0] == QUOTE then Rows(text[1..], false, field, row)
      else Rows(text[1..], true, field + [text[0]], row)
    else if text[0] == QUOTE then Rows(text[1..], true, field, row)
    else if text[0] == COMMA then Rows(text[1..], false, "", row + [field])
    else if text[0] == LF || text[0] == CR then
      var rest := if text[0] == CR && |text| > 1 && text[1] == LF then text[2..] else text[1..];
      [row + [field]] + Rows(rest, false, "", [])
    else Rows(text[1..], false, field + [text[0]], row)
  }

  function Parsed(text: string): seq<Row> {
    Lists.Filter(HasContent, Rows(text, false, "", []))
  }

  /** The parser: one pass over the characters. */
  method ParseCsv(text: string) returns (table: seq<Row>)
    ensures table == Parsed(text)
  {
    var rows: seq<Row> := [];
    var row: Row := [];
    var field := "";
    var quoted := false;
    var at := 0;
    while at < |text|
      invariant 0 <= at <= |text|
      invariant rows + Rows(text[at..], quoted, field, row) == Rows(text, false, "", [])
    {
      var c := text[at];
      ghost var rest := text[at..];
      assert rest[0] == c && rest[1..] == text[at + 1..];
      assert |rest| > 1 ==> rest[1] == text[at + 1] && rest[2..] == text[at + 2..];
      if quoted {
        if c == QUOTE && at + 1 < |text| && text[at + 1] == QUOTE {
          field := field + [QUOTE];
          at := at + 1;
        } else if c == QUOTE {
          quoted := false;
        } else {
          field := field + [c];
        }
      } else if c == QUOTE {
        quoted := true;
      } else if c == COMMA {
        row := row + [field];
        field := "";
      } else if c == LF || c == CR {
        ghost var before := rows;
        if c == CR && at + 1 < |text| && text[at + 1] == LF {
          at := at + 1;
        }
        row := row + [field];
        rows := rows + [row];
        assert rows + Rows(text[at + 1..], false, "", []) == before + ([row] + Rows(text[at + 1..], false, "", []));
        row := [];
        field := "";
      } else {
        field := field + [c];
      }
      at := at + 1;
    }
    if field != "" || row != [] {
      row := row + [field];
      rows := rows + [row];
    } else {
      assert rows + [] == rows;
    }
    table := Lists.Filter(HasContent, rows);
  }

  // ---- Round trip --------------------------------------------------------------------------

  /** Inside quotes an escaped value reads back as itself. */
  lemma {:induction false} EscapedReadsBack(value: string, rest: string, field: string, row: Row)
    requires rest == "" || rest[0] != QUOTE
    ensures Rows(Escaped(value) + [QUOTE] + rest, true, field, row) == Rows(rest, false, field + value, row)
    decreases |value|
  {
    var text := Escaped(value) + [QUOTE] + rest;
    if value == "" {
      assert text == [QUOTE] + rest;
      assert text[1..] == rest;
      assert field + value == field;
    } else {
      var tail := Escaped(value[1..]) + [QUOTE] + rest;
      EscapedReadsBack(value[1..], rest, field + [value[0]], row);
      assert (field + [value[0]]) + value[1..] == field + value;
      if value[0] == QUOTE {
        assert text == [QUOTE, QUOTE] + tail;
        assert text[2..] == tail;
      } else {
        assert text == [value[0]] + tail;
        assert text[1..] == tail;
      }
    }
  }

  lemma {:induction false} PlainReadsBack(value: string, rest: string, field: string, row: Row)
    requires forall i :: 0 <= i < |value| ==> !Special(value[i])
    ensures Rows(value + rest, false, field, row) == Rows(rest, false, field + value, row)
    decreases |value|
  {
    if value == "" {
      assert value + rest == rest && field + value == field;
    } else {
      assert (value + rest)[1..] == value[1..] + rest;
      PlainReadsBack(value[1..], rest, field + [value[0]], row);
      assert (field + [value[0]]) + value[1..] == field + value;
    }
  }

  /** A printed field, up to what ends it, reads back as its value. */
  lemma FieldReadsBack(value: string, rest: string, row: Row)
    requires rest == "" || rest[0] != QUOTE
    ensures Rows(Field(value) + rest, false, "", row) == Rows(rest, false, value, row)
  {
    assert "" + value == value;
    if NeedsQuotes(value) {
      var body := Escaped(value) + [QUOTE] + rest;
      assert Field(value) + rest == [QUOTE] + body;
      assert (Field(value) + rest)[1..] == body;
      EscapedReadsBack(value, rest, "", row);
    } else {
      PlainReadsBack(value, rest, "", row);
    }
  }

  /** A field prints as itself exactly when it holds no quote, comma or line break;
      else it stands in quotes, as long as its characters and its quotes once more. */
  lemma FieldIs(value: string)
    ensures Field(value) == value <==>
            '\"' !in value && ',' !in value && '\r' !in value && '\n' !in value
    ensures Field(value) != value ==>
              && Field(value) == "\"" + Escaped(value) + "\""
              && |Field(value)| == |value| + |Lists.Filter((c: char) => c == '\"', value)| + 2
  {
    EscapedLength(value);
    assert forall i :: 0 <= i < |value| ==> value[i] in value;
  }

  lemma {:induction false} EscapedLength(value: string)
    ensures |Escaped(value)| == |value| + |Lists.Filter((c: char) => c == '\"', value)|
  {
    if value != "" {
      EscapedLength(value[1..]);
    }
  }

  /** Quotes may open and close in the middle of a field: what stands in them is
      taken as it is, and what stands around them with it. */
  lemma QuotesReadAnywhere(a: string, b: string, c: string, rest: string, row: Row)
    requires forall i :: 0 <= i < |a| ==> !Special(a[i])
    requires forall i :: 0 <= i < |c| ==> !Special(c[i])
    requires c + rest == "" || (c + rest)[0] != QUOTE
    ensures Rows(a + ([QUOTE] + (Escaped(b) + [QUOTE] + (c + rest))), false, "", row)
         == Rows(rest, false, a + b + c, row)
  {
    var inner := Escaped(b) + [QUOTE] + (c + rest);
    PlainReadsBack(a, [QUOTE] + inner, "", row);
    assert "" + a == a;
    assert ([QUOTE] + inner)[1..] == inner;
    EscapedReadsBack(b, c + rest, a, row);
    PlainReadsBack(c, rest, a + b, row);
  }

  /** A quote that is never closed runs to the end of the text. */
  lemma {:induction false} OpenQuoteRunsOut(value: string, field: string, row: Row)
    requires QUOTE !in value && (value != "" || field != "" || row != [])
    ensures Rows(value, true, field, row) == [row + [field + value]]
    decreases |value|
  {
    if value == "" {
      assert field + value == field;
    } else {
      OpenQuoteRunsOut(value[1..], field + [value[0]], row);
      assert (field + [value[0]]) + value[1..] == field + value;
    }
  }

  /** What a printed line reads back as: an empty row prints like one empty cell. */
  function Cells(row: Row): Row {
    if row == [] then [""] else row
  }

  /** The line breaks the parser takes: the printer's, and either of its halves. */
  predicate IsBreak(brk: string) {
    brk == [CR, LF] || brk == [CR] || brk == [LF]
  }

  /** What may follow a break: a lone CR before an LF would be half of one. */
  predicate Follows(brk: string, rest: string) {
    brk == [CR] && rest != "" ==> rest[0] != LF
  }

  lemma {:induction false} LineReadsBack(row: Row, done: Row, brk: string, rest: string)
    requires row != [] && IsBreak(brk) && Follows(brk, rest)
    ensures Rows(Line(row) + brk + rest, false, "", done) == [done + row] + Rows(rest, false, "", [])
    decreases |row|
  {
    hide Rows, Field;
    if |row| == 1 {
      assert Fields(row) == [Field(row[0])];
      Regroup(Field(row[0]), brk, rest);
      FieldReadsBack(row[0], brk + rest, done);
      BreakReadsBack(row[0], done, brk, rest);
      assert done + [row[0]] == done + row;
    } else {
      var tail := Line(row[1..]) + brk + rest;
      LineUnfolds(row, brk + rest);
      Regroup(Line(row), brk, rest);
      Regroup(Line(row[1..]), brk, rest);
      FieldReadsBack(row[0], [COMMA] + tail, done);
      CommaReadsBack(row[0], done, tail);
      LineReadsBack(row[1..], done + [row[0]], brk, rest);
      assert (done + [row[0]]) + row[1..] == done + row;
    }
  }

  /** A line at the end of the text, without a break: an empty one is none. */
  lemma {:induction false} LastLineReadsBack(row: Row, done: Row)
    requires row != []
    ensures Rows(Line(row), false, "", done) == if done + row == [""] then [] else [done + row]
    decreases |row|
  {
    hide Rows, Field;
    if |row| == 1 {
      assert Fields(row) == [Field(row[0])];
      assert Line(row) == Field(row[0]) + "";
      FieldReadsBack(row[0], "", done);
      EndReadsBack(row[0], done);
      assert done + [row[0]] == done + row;
    } else {
      LineUnfolds(row, "");
      assert Line(row) + "" == Line(row) && Line(row[1..]) + "" == Line(row[1..]);
      FieldReadsBack(row[0], [COMMA] + Line(row[1..]), done);
      CommaReadsBack(row[0], done, Line(row[1..]));
      LastLineReadsBack(row[1..], done + [row[0]]);
      assert (done + [row[0]]) + row[1..] == done + row;
    }
  }

  lemma EndReadsBack(field: string, done: Row)
    ensures Rows("", false, field, done) == if done + [field] == [""] then [] else [done + [field]]
  {
    if done == [] {
      assert done + [field] == [field];
    }
  }

  lemma Regroup(a: string, b: string, c: string)
    ensures a + b + c == a + (b + c)
  {
  }

  lemma LineUnfolds(row: Row, rest: string)
    requires |row| > 1
    ensures Line(row) + rest == Field(row[0]) + ([COMMA] + (Line(row[1..]) + rest))
  {
    hide Field;
    FieldsLength(row);
    assert Fields(row)[1..] == Fields(row[1..]);
    assert Line(row) == Field(row[0]) + [COMMA] + Line(row[1..]);
    var a, b := Field(row[0]), Line(row[1..]);
    assert (a + [COMMA] + b) + rest == a + ([COMMA] + (b + rest));
  }

  lemma CommaReadsBack(field: string, done: Row, rest: string)
    ensures Rows([COMMA] + rest, false, field, done) == Rows(rest, false, "", done + [field])
  {
    assert ([COMMA] + rest)[1..] == rest;
  }

  lemma BreakReadsBack(field: string, done: Row, brk: string, rest: string)
    requires IsBreak(brk) && Follows(brk, rest)
    ensures Rows(brk + rest, false, field, done) == [done + [field]] + Rows(rest, false, "", [])
  {
    var text := brk + rest;
    if brk == [CR, LF] {
      assert text[2..] == rest;
    } else {
      assert text[1..] == rest;
      assert |text| > 1 ==> text[1] == rest[0];
    }
  }

  lemma {:induction false} FieldsLength(row: Row)
    ensures |Fields(row)| == |row|
  {
    if row != [] {
      FieldsLength(row[1..]);
    }
  }

  lemma AnyLineReadsBack(row: Row, brk: string, rest: string)
    requires IsBreak(brk) && Follows(brk, rest)
    ensures Rows(Line(row) + brk + rest, false, "", []) == [Cells(row)] + Rows(rest, false, "", [])
  {
    hide Rows, Field;
    if row == [] {
      assert Line(row) + brk + rest == brk + rest;
      BreakReadsBack("", [], brk, rest);
      assert [] + [""] == Cells(row);
    } else {
      LineReadsBack(row, [], brk, rest);
      assert [] + row == row;
    }
  }

  function AllCells(rows: seq<Row>): seq<Row> {
    if rows == [] then [] else [Cells(rows[0])] + AllCells(rows[1..])
  }

  /** A table written with any break, and with or without one at its end. */
  function Written(rows: seq<Row>, brk: string, closed: bool): string {
    Join(Lines(rows), brk) + if closed then brk else ""
  }

  lemma FieldStart(value: string)
    ensures Field(value) != "" ==> Field(value)[0] != LF
  {
  }

  lemma LineStart(row: Row)
    ensures Line(row) != "" ==> Line(row)[0] != LF
  {
    hide Field;
    if row != [] {
      FieldStart(row[0]);
      if |row| > 1 {
        LineUnfolds(row, "");
        assert Line(row) + "" == Line(row);
      } else {
        assert Fields(row) == [Field(row[0])];
      }
    }
  }

  lemma WrittenUnfolds(rows: seq<Row>, brk: string, closed: bool)
    requires |rows| > 1
    ensures Written(rows, brk, closed) == Line(rows[0]) + brk + Written(rows[1..], brk, closed)
  {
    hide Line;
    assert Lines(rows)[1..] == Lines(rows[1..]);
    LinesLength(rows);
  }

  lemma {:induction false} WrittenFollows(rows: seq<Row>, brk: string, closed: bool)
    requires rows != [] && IsBreak(brk)
    ensures Follows(brk, Written(rows, brk, closed))
  {
    hide Line;
    LineStart(rows[0]);
    if |rows| > 1 {
      WrittenUnfolds(rows, brk, closed);
    } else {
      assert Lines(rows) == [Line(rows[0])];
    }
  }

  /** Only an empty last row without a break behind it is not seen. */
  lemma {:induction false} TableReadsBack(rows: seq<Row>, brk: string, closed: bool)
    requires rows != [] && IsBreak(brk)
    ensures var seen := Rows(Written(rows, brk, closed), false, "", []);
            seen == AllCells(rows) || (!closed && seen + [[""]] == AllCells(rows))
    decreases |rows|
  {
    hide Rows, Line;
    var last := rows[0];
    if |rows| == 1 {
      assert Lines(rows) == [Line(last)];
      assert Join(Lines(rows), brk) == Line(last);
      assert rows[1..] == [];
      assert AllCells(rows) == [Cells(last)] + [];
      NoText();
      if closed {
        assert Written(rows, brk, true) == Line(last) + brk + "";
        AnyLineReadsBack(last, brk, "");
      } else {
        assert Written(rows, brk, false) == Line(last);
        LastRowReadsBack(last);
      }
    } else {
      WrittenUnfolds(rows, brk, closed);
      WrittenFollows(rows[1..], brk, closed);
      AnyLineReadsBack(last, brk, Written(rows[1..], brk, closed));
      TableReadsBack(rows[1..], brk, closed);
      var seen := Rows(Written(rows[1..], brk, closed), false, "", []);
      assert ([Cells(last)] + seen) + [[""]] == [Cells(last)] + (seen + [[""]]);
    }
  }

  lemma LastRowReadsBack(row: Row)
    ensures Rows(Line(row), false, "", []) == if Cells(row) == [""] then [] else [Cells(row)]
  {
    hide Rows, Field;
    if row == [] {
      assert Line(row) == "";
      NoText();
    } else {
      LastLineReadsBack(row, []);
      assert [] + row == row;
    }
  }

  lemma NoText()
    ensures Rows("", false, "", []) == []
  {
  }

  lemma {:induction false} LinesLength(rows: seq<Row>)
    ensures |Lines(rows)| == |rows|
  {
    if rows != [] {
      LinesLength(rows[1..]);
    }
  }

  lemma {:induction false} BlankRowsDrop(rows: seq<Row>)
    ensures Lists.Filter(HasContent, AllCells(rows)) == Lists.Filter(HasContent, rows)
  {
    if rows != [] {
      BlankRowsDrop(rows[1..]);
      assert AllCells(rows)[1..] == AllCells(rows[1..]);
      if rows[0] == [] {
        assert Cells(rows[0]) == [""] && Blank("");
      }
    }
  }

  /** Parsing a table as the printer writes it, or with either half of its line break,
      with or without a last one, gives back every row that has a non-blank cell. */
  lemma AnyBreakReadsBack(rows: seq<Row>, brk: string, closed: bool)
    requires IsBreak(brk)
    ensures Parsed(Written(rows, brk, closed)) == Lists.Filter(HasContent, rows)
  {
    hide Rows, HasContent;
    OnlyBlank();
    if rows == [] {
      NoText();
      AnyLineReadsBack([], brk, "");
      assert Written(rows, brk, closed) == if closed then Line([]) + brk + "" else "";
      assert [[""]] + [] == [[""]];
    } else {
      TableReadsBack(rows, brk, closed);
      BlankRowsDrop(rows);
      var seen := Rows(Written(rows, brk, closed), false, "", []);
      Lists.FilterConcat(HasContent, seen, [[""]]);
      assert Lists.Filter(HasContent, seen) + [] == Lists.Filter(HasContent, seen);
    }
  }

  /** Parsing what was printed gives back every row that has a non-blank cell,
      whatever quotes, commas and line breaks its cells hold. */
  lemma RoundTrip(rows: seq<Row>)
    ensures Parsed(ToCsv(rows)) == Lists.Filter(HasContent, rows)
  {
    AnyBreakReadsBack(rows, [CR, LF], true);
  }

  lemma OnlyBlank()
    ensures Lists.Filter(HasContent, [[""]]) == []
  {
    assert Blank("");
    assert !HasContent([""]);
    assert [[""]][1..] == [];
  }

  /** A parsed table is a fixed point: printing and parsing it again changes nothing. */
  lemma ParsedIsStable(text: string)
    ensures Parsed(ToCsv(Parsed(text))) == Parsed(text)
  {
    hide Rows, ToCsv, HasContent;
    RoundTrip(Parsed(text));
    Lists.FilterMembers(HasContent, Rows(text, false, "", []));
    Lists.FilterAll(HasContent, Parsed(text));
  }

  /** Some cell of the row holds something but white space. */
  ghost predicate Shows(row: Row) {
    exists j, k :: 0 <= j < |row| && 0 <= k < |row[j]| && !IsSpace(row[j][k])
  }

  lemma ContentShows(row: Row)
    ensures HasContent(row) <==> Shows(row)
  {
    if HasContent(row) {
      var j :| 0 <= j < |row| && !Blank(row[j]);
      var k :| 0 <= k < |row[j]| && !IsSpace(row[j][k]);
    }
    if Shows(row) {
      var j, k :| 0 <= j < |row| && 0 <= k < |row[j]| && !IsSpace(row[j][k]);
      assert !Blank(row[j]);
    }
  }

  /** The round trip is exact just for tables without all-blank rows. */
  lemma ExactRoundTrip(rows: seq<Row>)
    ensures Parsed(ToCsv(rows)) == rows <==> forall i :: 0 <= i < |rows| ==> Shows(rows[i])
  {
    forall i | 0 <= i < |rows| ensures HasContent(rows[i]) <==> Shows(rows[i]) {
      ContentShows(rows[i]);
    }
    hide Shows;
    hide Rows, ToCsv, HasContent;
    RoundTrip(rows);
    Lists.FilterMembers(HasContent, rows);
    if Lists.Filter(HasContent, rows) == rows {
      assert forall i :: 0 <= i < |rows| ==> rows[i] in Lists.Filter(HasContent, rows);
    } else if forall i :: 0 <= i < |rows| ==> HasContent(rows[i]) {
      Lists.FilterAll(HasContent, rows);
    }
  }
}
