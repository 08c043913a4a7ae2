/** The CSV scanner, against the text RFC 4180 (section 2) prints. */
module Csv {
  const BOM: char := '\U{FEFF}'

  datatype Scan = Scan(rows: seq<seq<string>>, row: seq<string>, cell: string, inQuotes: bool)

  const START := Scan([], [], "", false)

  function Flush(st: Scan): seq<seq<string>> {
    if |st.cell| > 0 || |st.row| > 0 then st.rows + [st.row + [st.cell]] else st.rows
  }

  /** What the scanner makes of the rest of the text from a given state. */
  function Rows(s: string, st: Scan): seq<seq<string>>
    decreases |s|
  {
    if s == "" then Flush(st)
    else
      var c := s[0];
      if st.inQuotes then
        if c == '"' then
          if |s| > 1 && s[1] == '"' then Rows(s[2..], st.(cell := st.cell + ['"']))
          else Rows(s[1..], st.(inQuotes := false))
        else Rows(s[1..], st.(cell := st.cell + [c]))
      else if c == '"' then Rows(s[1..], st.(inQuotes := true))
      else if c == ',' then Rows(s[1..], st.(row := st.row + [st.cell], cell := ""))
      else if c == '\r' then Rows(s[1..], st)
      else if c == '\n' then Rows(s[1..], Scan(st.rows + [st.row + [st.cell]], [], "", false))
      else Rows(s[1..], st.(cell := st.cell + [c]))
  }

  function WithoutBom(text: string): string {
    if text != "" && text[0] == BOM then text[1..] else text
  }

  method ParseCsv(input: string) returns (rows: seq<seq<string>>)
    ensures rows == Rows(WithoutBom(input), START)
  {
    var text := input;
    rows := [];
    var row: seq<string> := [];
    var cell := "";
    var inQuotes := false;
    var i := 0;
    if |text| > 0 && text[0] == BOM {
      text := text[1..];
    }
    assert text[0..] == text;
    while i < |text|
      invariant 0 <= i <= |text| && text == WithoutBom(input)
      invariant Rows(text[i..], Scan(rows, row, cell, inQuotes)) == Rows(text, START)
    {
      var c := text[i];
      assert text[i..][1..] == text[i + 1..];
      if inQuotes {
        if c == '"' {
          if i + 1 < |text| && text[i + 1] == '"' {
            assert text[i..][2..] == text[i + 2..];
            cell := cell + ['"'];
            i := i + 2;
            continue;
          }
          inQuotes := false;
          i := i + 1;
          continue;
        }
        cell := cell + [c];
        i := i + 1;
        continue;
      }
      if c == '"' {
        inQuotes := true;
        i := i + 1;
        continue;
      }
      if c == ',' {
        row := row + [cell];
        cell := "";
        i := i + 1;
        continue;
      }
      if c == '\r' {
        i := i + 1;
        continue;
      }
      if c == '\n' {
        row := row + [cell];
        rows := rows + [row];
        row := [];
        cell := "";
        i := i + 1;
        continue;
      }
      cell := cell + [c];
      i := i + 1;
    }
    if |cell| > 0 || |row| > 0 {
      row := row + [cell];
      rows := rows + [row];
    }
  }

  // ---- Printing ----

  /** A cell and whether the printer puts it in quotes. */
  datatype Cell = Cell(text: string, quoted: bool)

  predicate NeedsQuotes(text: string) {
    '"' in text || ',' in text || '\r' in text || '\n' in text
  }

  /** Rows as RFC 4180 allows them: cells that need quotes have them, the others may. */
  predicate Printable(rows: seq<seq<Cell>>) {
    forall r :: 0 <= r < |rows| ==> rows[r] != [] && PrintableRow(rows[r])
  }

  predicate PrintableRow(cells: seq<Cell>) {
    forall i :: 0 <= i < |cells| ==> (NeedsQuotes(cells[i].text) ==> cells[i].quoted)
  }

  function Escaped(text: string): string {
    if text == "" then "" else (if text[0] == '"' then "\"\"" else [text[0]]) + Escaped(text[1..])
  }

  function CellText(c: Cell): string {
    if c.quoted then "\"" + Escaped(c.text) + "\"" else c.text
  }

  function RowText(cells: seq<Cell>): string
    requires cells != []
  {
    CellText(cells[0]) + (if |cells| == 1 then "" else "," + RowText(cells[1..]))
  }

  predicate LineEnd(eol: string) { eol == "\n" || eol == "\r\n" }

  function Print(rows: seq<seq<Cell>>, eol: string): string
    requires Printable(rows)
  {
    if rows == [] then "" else RowText(rows[0]) + eol + Print(rows[1..], eol)
  }

  function Texts(cells: seq<Cell>): seq<string> {
    if cells == [] then [] else [cells[0].text] + Texts(cells[1..])
  }

  function Values(rows: seq<seq<Cell>>): seq<seq<string>> {
    if rows == [] then [] else [Texts(rows[0])] + Values(rows[1..])
  }

  // ---- The scanner undoes the printer ----

  lemma {:induction false} PlainCell(text: string, rest: string, st: Scan)
    requires !st.inQuotes && !NeedsQuotes(text)
    ensures Rows(text + rest, st) == Rows(rest, st.(cell := st.cell + text))
    decreases |text|
  {
    if text == "" {
      assert text + rest == rest && st.cell + text == st.cell;
    } else {
      assert text[0] in text;
      assert forall c :: c in text[1..] ==> c in text;
      assert (text + rest)[1..] == text[1..] + rest;
      assert st.cell + [text[0]] + text[1..] == st.cell + text;
      PlainCell(text[1..], rest, st.(cell := st.cell + [text[0]]));
    }
  }

  /** `rest` does not begin with a quote, so a closing quote is seen as one. */
  lemma {:induction false} QuotedBody(text: string, rest: string, st: Scan)
    requires st.inQuotes && (rest == "" || rest[0] != '"')
    ensures Rows(Escaped(text) + "\"" + rest, st) == Rows(rest, st.(cell := st.cell + text, inQuotes := false))
    decreases |text|
  {
    var s := Escaped(text) + "\"" + rest;
    if text == "" {
      assert s == "\"" + rest && s[1..] == rest && st.cell + text == st.cell;
    } else {
      var tail := Escaped(text[1..]) + "\"" + rest;
      assert st.cell + [text[0]] + text[1..] == st.cell + text;
      QuotedBody(text[1..], rest, st.(cell := st.cell + [text[0]]));
      if text[0] == '"' {
        assert s == "\"\"" + tail && s[2..] == tail;
      } else {
        assert s == [text[0]] + tail && s[1..] == tail;
      }
    }
  }

  lemma {:induction false} OneCell(c: Cell, rest: string, st: Scan)
    requires !st.inQuotes && st.cell == "" && (NeedsQuotes(c.text) ==> c.quoted)
    requires rest == "" || rest[0] != '"'
    ensures Rows(CellText(c) + rest, st) == Rows(rest, st.(cell := c.text))
  {
    assert "" + c.text == c.text;
    if c.quoted {
      var body := Escaped(c.text) + "\"" + rest;
      assert CellText(c) + rest == "\"" + body;
      assert ("\"" + body)[1..] == body;
      QuotedBody(c.text, rest, st.(inQuotes := true));
    } else {
      PlainCell(c.text, rest, st);
    }
  }

  lemma {:induction false} LineEndScan(eol: string, rest: string, st: Scan)
    requires LineEnd(eol) && !st.inQuotes
    ensures Rows(eol + rest, st) == Rows(rest, Scan(st.rows + [st.row + [st.cell]], [], "", false))
  {
    if eol == "\r\n" {
      assert (eol + rest)[1..] == "\n" + rest;
      assert ("\n" + rest)[1..] == rest;
    } else {
      assert (eol + rest)[1..] == rest;
    }
  }

  lemma {:induction false} LastCell(c: Cell, eol: string, rest: string, st: Scan)
    requires (NeedsQuotes(c.text) ==> c.quoted) && LineEnd(eol) && !st.inQuotes && st.cell == ""
    ensures Rows(CellText(c) + eol + rest, st) == Rows(rest, Scan(st.rows + [st.row + [c.text]], [], "", false))
  {
    assert CellText(c) + eol + rest == CellText(c) + (eol + rest);
    OneCell(c, eol + rest, st);
    LineEndScan(eol, rest, st.(cell := c.text));
  }

  lemma {:induction false} CellThenComma(c: Cell, more: string, st: Scan)
    requires (NeedsQuotes(c.text) ==> c.quoted) && !st.inQuotes && st.cell == ""
    ensures Rows(CellText(c) + ("," + more), st) == Rows(more, st.(row := st.row + [c.text]))
  {
    OneCell(c, "," + more, st);
    assert ("," + more)[1..] == more;
  }

  lemma {:induction false} RowTextMore(cells: seq<Cell>, eol: string, rest: string)
    requires |cells| > 1
    ensures RowText(cells) + eol + rest == CellText(cells[0]) + ("," + (RowText(cells[1..]) + eol + rest))
  {
  }

  lemma {:induction false} TextsMore(cells: seq<Cell>, row: seq<string>)
    requires cells != []
    ensures row + [cells[0].text] + Texts(cells[1..]) == row + Texts(cells)
  {
  }

  lemma {:induction false} OneRow(cells: seq<Cell>, eol: string, rest: string, st: Scan)
    requires cells != [] && PrintableRow(cells) && LineEnd(eol) && !st.inQuotes && st.cell == ""
    ensures Rows(RowText(cells) + eol + rest, st) == Rows(rest, Scan(st.rows + [st.row + Texts(cells)], [], "", false))
    decreases |cells|
  {
    var c := cells[0];
    if |cells| == 1 {
      LastCell(c, eol, rest, st);
      assert CellText(c) + "" == CellText(c);
      assert Texts(cells) == [c.text];
    } else {
      var more, next := RowText(cells[1..]) + eol + rest, st.(row := st.row + [c.text]);
      RowTextMore(cells, eol, rest);
      CellThenComma(c, more, st);
      OneRow(cells[1..], eol, rest, next);
      TextsMore(cells, st.row);
    }
  }

  lemma {:induction false} AllRows(rows: seq<seq<Cell>>, eol: string, done: seq<seq<string>>)
    requires Printable(rows) && LineEnd(eol)
    ensures Rows(Print(rows, eol), Scan(done, [], "", false)) == done + Values(rows)
    decreases |rows|
  {
    if rows == [] {
      assert done + Values(rows) == done;
    } else {
      FirstRow(rows, eol, done);
      AllRows(rows[1..], eol, done + [Texts(rows[0])]);
      ValuesMore(rows, done);
    }
  }

  lemma ValuesMore(rows: seq<seq<Cell>>, done: seq<seq<string>>)
    requires rows != []
    ensures done + [Texts(rows[0])] + Values(rows[1..]) == done + Values(rows)
  {
  }

  lemma FirstRow(rows: seq<seq<Cell>>, eol: string, done: seq<seq<string>>)
    requires rows != [] && Printable(rows) && LineEnd(eol)
    ensures Rows(Print(rows, eol), Scan(done, [], "", false))
         == Rows(Print(rows[1..], eol), Scan(done + [Texts(rows[0])], [], "", false))
  {
    OneRow(rows[0], eol, Print(rows[1..], eol), Scan(done, [], "", false));
    assert [] + Texts(rows[0]) == Texts(rows[0]);
  }

  predicate BomFirst(rows: seq<seq<Cell>>)
    requires Printable(rows)
  {
    rows != [] && !rows[0][0].quoted && rows[0][0].text != "" && rows[0][0].text[0] == BOM
  }

  lemma {:induction false} FirstCharacter(rows: seq<seq<Cell>>, eol: string)
    requires Printable(rows) && LineEnd(eol)
    ensures (Print(rows, eol) != "" && Print(rows, eol)[0] == BOM) <==> BomFirst(rows)
  {
    if rows != [] {
      var c := rows[0][0];
      var text := Print(rows, eol);
      assert text != "";
      if CellText(c) != "" {
        assert RowText(rows[0])[0] == CellText(c)[0];
        assert text[0] == CellText(c)[0];
      } else if |rows[0]| > 1 {
        assert text[0] == ',';
      } else {
        assert RowText(rows[0]) == "";
        assert text[0] == eol[0];
      }
    }
  }

  /** The first cell without its byte order mark, which is all the scanner loses. */
  function BomDropped(rows: seq<seq<Cell>>): (r: seq<seq<Cell>>)
    requires Printable(rows) && BomFirst(rows)
    ensures Printable(r)
  {
    var first := rows[0][0];
    assert forall c :: c in first.text[1..] ==> c in first.text;
    [[first.(text := first.text[1..])] + rows[0][1..]] + rows[1..]
  }

  lemma {:induction false} PrintBomDropped(rows: seq<seq<Cell>>, eol: string)
    requires Printable(rows) && BomFirst(rows)
    ensures Print(BomDropped(rows), eol) == Print(rows, eol)[1..]
  {
    var first := rows[0][0];
    var shorter := [first.(text := first.text[1..])] + rows[0][1..];
    assert shorter[1..] == rows[0][1..];
    assert RowText(shorter) == RowText(rows[0])[1..];
    assert BomDropped(rows)[1..] == rows[1..];
    var a := RowText(rows[0]);
    assert (a + eol + Print(rows[1..], eol))[1..] == a[1..] + eol + Print(rows[1..], eol);
  }

  /** Reading back a printed table gives the table, unless its first character is a bare byte order mark:
      the parser takes it for an encoding mark, and RFC 4180 does not ask for it to be quoted. */
  lemma {:induction false} ParseUndoesPrint(rows: seq<seq<Cell>>, eol: string)
    requires Printable(rows) && LineEnd(eol)
    ensures Rows(WithoutBom(Print(rows, eol)), START) == Values(rows) <==> !BomFirst(rows)
    ensures BomFirst(rows) ==> Rows(WithoutBom(Print(rows, eol)), START) == Values(BomDropped(rows))
  {
    FirstCharacter(rows, eol);
    if BomFirst(rows) {
      PrintBomDropped(rows, eol);
      AllRows(BomDropped(rows), eol, []);
      assert Values(BomDropped(rows))[0][0] == rows[0][0].text[1..];
      assert Values(rows)[0][0] == rows[0][0].text;
      assert |Values(BomDropped(rows))[0][0]| < |Values(rows)[0][0]|;
    } else {
      AllRows(rows, eol, []);
    }
  }

  // ---- Without the last line end ----

  /** The printed table with the line end after its last row left off. */
  function OpenPrint(rows: seq<seq<Cell>>, eol: string): string
    requires Printable(rows)
  {
    if rows == [] then "" else if |rows| == 1 then RowText(rows[0])
    else RowText(rows[0]) + eol + OpenPrint(rows[1..], eol)
  }

  /** The last row is one empty cell: without its line end nothing of it may be in the text. */
  predicate EndsEmpty(rows: seq<seq<Cell>>) {
    rows != [] && |rows[|rows| - 1]| == 1 && rows[|rows| - 1][0].text == ""
  }

  lemma {:induction false} OpenRow(cells: seq<Cell>, st: Scan)
    requires cells != [] && PrintableRow(cells) && !st.inQuotes && st.cell == ""
    ensures Rows(RowText(cells), st)
         == if st.row == [] && |cells| == 1 && cells[0].text == "" then st.rows
            else st.rows + [st.row + Texts(cells)]
    decreases |cells|
  {
    var c := cells[0];
    if |cells| == 1 {
      OneCell(c, "", st);
      assert CellText(c) + "" == CellText(c) == RowText(cells);
      assert Texts(cells) == [c.text];
    } else {
      assert RowText(cells) == CellText(c) + ("," + RowText(cells[1..]));
      CellThenComma(c, RowText(cells[1..]), st);
      OpenRow(cells[1..], st.(row := st.row + [c.text]));
      TextsMore(cells, st.row);
    }
  }

  lemma {:induction false} OpenRows(rows: seq<seq<Cell>>, eol: string, done: seq<seq<string>>)
    requires rows != [] && Printable(rows) && LineEnd(eol)
    ensures Rows(OpenPrint(rows, eol), Scan(done, [], "", false))
         == done + Values(if EndsEmpty(rows) then rows[..|rows| - 1] else rows)
    decreases |rows|
  {
    if |rows| == 1 {
      OpenRow(rows[0], Scan(done, [], "", false));
      assert Values(rows) == [Texts(rows[0])];
      assert [] + Texts(rows[0]) == Texts(rows[0]) && done + Values([]) == done;
    } else {
      var kept := if EndsEmpty(rows) then rows[..|rows| - 1] else rows;
      var more := rows[1..];
      assert (if EndsEmpty(more) then more[..|more| - 1] else more) == kept[1..];
      OneRow(rows[0], eol, OpenPrint(more, eol), Scan(done, [], "", false));
      assert [] + Texts(rows[0]) == Texts(rows[0]);
      OpenRows(more, eol, done + [Texts(rows[0])]);
      ValuesMore(kept, done);
    }
  }

  lemma {:induction false} OpenIsPrintBut(rows: seq<seq<Cell>>, eol: string)
    requires rows != [] && Printable(rows)
    ensures Print(rows, eol) == OpenPrint(rows, eol) + eol
    decreases |rows|
  {
    if |rows| > 1 {
      OpenIsPrintBut(rows[1..], eol);
    } else {
      assert Print(rows[1..], eol) == "";
    }
  }

  lemma {:induction false} ValuesSize(rows: seq<seq<Cell>>)
    ensures |Values(rows)| == |rows|
  {
    if rows != [] {
      ValuesSize(rows[1..]);
    }
  }

  /** A last row without a line end is read like the others, but for one that is a single empty cell: it is lost. */
  lemma {:induction false} ParseUndoesOpenPrint(rows: seq<seq<Cell>>, eol: string)
    requires rows != [] && Printable(rows) && LineEnd(eol) && !BomFirst(rows)
    ensures Print(rows, eol) == OpenPrint(rows, eol) + eol
    ensures Rows(WithoutBom(OpenPrint(rows, eol)), START) == Values(rows) <==> !EndsEmpty(rows)
    ensures EndsEmpty(rows) ==>
      Rows(WithoutBom(OpenPrint(rows, eol)), START) == Values(rows[..|rows| - 1])
  {
    var text := OpenPrint(rows, eol);
    OpenIsPrintBut(rows, eol);
    FirstCharacter(rows, eol);
    assert text != "" ==> Print(rows, eol)[0] == text[0];
    OpenRows(rows, eol, []);
    ValuesSize(rows);
    ValuesSize(rows[..|rows| - 1]);
  }

  /** A text that ends inside quotes is read as if the closing quote were there. */
  lemma {:induction false} UnclosedQuote(text: string, st: Scan)
    requires st.inQuotes
    ensures Rows(Escaped(text), st) == Rows(Escaped(text) + "\"", st)
    ensures Rows(Escaped(text), st)
         == if st.cell + text == "" && st.row == [] then st.rows else st.rows + [st.row + [st.cell + text]]
    decreases |text|
  {
    QuotedBody(text, "", st);
    assert Escaped(text) + "\"" + "" == Escaped(text) + "\"";
    assert Rows("", st.(cell := st.cell + text, inQuotes := false))
        == Flush(st.(cell := st.cell + text, inQuotes := false));
    if text == "" {
      assert st.cell + text == st.cell;
    } else {
      var tail := Escaped(text[1..]);
      assert st.cell + [text[0]] + text[1..] == st.cell + text;
      UnclosedQuote(text[1..], st.(cell := st.cell + [text[0]]));
      if text[0] == '"' {
        assert Escaped(text) == "\"\"" + tail && Escaped(text)[2..] == tail;
      } else {
        assert Escaped(text) == [text[0]] + tail && Escaped(text)[1..] == tail;
      }
    }
  }

  lemma BomIsLost()
    ensures var rows := [[Cell([BOM, 'a'], false)]];
      Printable(rows) && Rows(WithoutBom(Print(rows, "\n")), START) != Values(rows)
  {
    var rows := [[Cell([BOM, 'a'], false)]];
    assert !NeedsQuotes([BOM, 'a']);
    ParseUndoesPrint(rows, "\n");
  }
}
