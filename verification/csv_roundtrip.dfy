/** What survives an export followed by an import. The export does no
    quoting, so the round trip holds only for shifts whose date and
    restaurant hold neither a comma nor a line feed and whose notes hold no
    comma; what comes back is then each shift with its text fields
    trimmed, line feeds in its notes turned into spaces, zero hours
    dropped and a fresh id. */
module CsvRoundTrip {
  import opened Optional
  import opened Text
  import opened Numbers
  import opened Entries
  import opened Csv

  /** A shift the unquoted format can carry. */
  predicate CsvSafe(e: TipEntry) {
    && e.date != [] && IsTrimmed(e.date)
    && ',' !in e.date && '\n' !in e.date
    && (e.restaurant.Some? ==> ',' !in e.restaurant.value && '\n' !in e.restaurant.value)
    && (e.notes.Some? ==> ',' !in e.notes.value)
  }

  /** The shift an import gives back for `e`, under the id `id`. */
  function Reimported(e: TipEntry, id: string): TipEntry {
    var restaurant := Trim(e.restaurant.GetOr(""));
    TipEntry(
      id, e.date, e.made, e.tipOut,
      if e.hours == Some(0) then None else e.hours,
      if restaurant == "" then None else Some(restaurant),
      Some(Trim(ReplaceNewlines(e.notes.GetOr("")))))
  }

  /** The columns an exported header leads to. */
  const Standard := Columns(0, 1, 2, 3, 4, 5)

  const StandardKeys: seq<string> := ["date", "made", "tipout", "hours", "restaurant", "notes"]

  lemma NoUpper(s: string)
    requires forall i :: 0 <= i < |s| ==> !('A' <= s[i] <= 'Z')
    ensures Lowercase(s) == s
  {
  }

  lemma HeaderKey(i: nat)
    requires i < |HeaderNames|
    ensures Lowercase(Trim(HeaderNames[i])) == StandardKeys[i]
  {
    assert IsTrimmed(HeaderNames[i]);
    if i == 2 {
      assert Lowercase("tipOut") == "tipout";
    } else {
      NoUpper(HeaderNames[i]);
    }
  }

  lemma HeaderKeysStandard()
    ensures HeaderKeys(HeaderLine) == StandardKeys
  {
    forall i | 0 <= i < |HeaderNames|
      ensures ',' !in HeaderNames[i]
    {
    }
    SplitJoin(HeaderNames, ',');
    forall i | 0 <= i < |HeaderNames|
      ensures HeaderKeys(HeaderLine)[i] == StandardKeys[i]
    {
      HeaderKey(i);
    }
  }

  /** The six column names differ from each other. */
  lemma StandardKeysDistinct()
    ensures forall i, j :: 0 <= i < j < |StandardKeys| ==> StandardKeys[i] != StandardKeys[j]
  {
    forall i, j | 0 <= i < j < |StandardKeys|
      ensures StandardKeys[i] != StandardKeys[j]
    {
      assert StandardKeys[i][0] != StandardKeys[j][0];
    }
  }

  /** The export's own header is read back with every column found at the
      position the export wrote it. */
  lemma StandardHeader()
    ensures LocateColumns(HeaderKeys(HeaderLine)) == Standard
  {
    HeaderKeysStandard();
    StandardKeysDistinct();
    var keys := StandardKeys;
    IndexOfDistinct(keys, 0);
    IndexOfDistinct(keys, 1);
    IndexOfDistinct(keys, 2);
    IndexOfDistinct(keys, 3);
    IndexOfDistinct(keys, 4);
    IndexOfDistinct(keys, 5);
  }

  /** The header is one line that starts with a letter. */
  lemma HeaderAlone()
    ensures '\n' !in HeaderLine && HeaderLine[0] == 'd'
  {
    forall i | 0 <= i < |HeaderNames|
      ensures '\n' !in HeaderNames[i]
    {
    }
    JoinAvoids(HeaderNames, ',', '\n');
    JoinHead(HeaderNames, ',');
  }

  /** The header has no white space or carriage return around it. */
  lemma HeaderBare()
    ensures IsTrimmed(HeaderLine) && DropCR(HeaderLine) == HeaderLine
  {
    JoinHead(HeaderNames, ',');
    JoinTail(HeaderNames, ',');
    assert HeaderLine[|HeaderLine| - 1] == 's';
  }

  /** Everything of a row before its notes cell. */
  function Front(e: TipEntry): string {
    Join(RowCells(e)[..5], ',')
  }

  function NotesCell(e: TipEntry): string {
    ReplaceNewlines(e.notes.GetOr(""))
  }

  lemma RowShape(e: TipEntry)
    ensures Row(e) == Front(e) + [','] + NotesCell(e)
  {
    var cells := RowCells(e);
    assert cells == cells[..5] + [cells[5]];
    JoinSnoc(cells[..5], cells[5], ',');
  }

  /** No cell of a safe shift's row holds a comma or a line feed. */
  lemma CellsClean(e: TipEntry)
    requires CsvSafe(e)
    ensures forall i :: 0 <= i < 6 ==> ',' !in RowCells(e)[i] && '\n' !in RowCells(e)[i]
  {
    var cells := RowCells(e);
    var n := e.notes.GetOr("");
    assert ',' !in n;
    assert forall j :: 0 <= j < |cells[5]| ==> cells[5][j] != ',';
    assert ',' !in cells[1] && '\n' !in cells[1] by {
      ShowClean(e.made);
    }
    assert ',' !in cells[2] && '\n' !in cells[2] by {
      ShowClean(e.tipOut);
    }
    assert ',' !in cells[3] && '\n' !in cells[3] by {
      if e.hours.Some? {
        ShowClean(e.hours.value);
      }
    }
  }

  lemma ShowClean(n: int)
    ensures ',' !in Show(n) && '\n' !in Show(n)
  {
    var s := Show(n);
    assert forall j :: 0 <= j < |s| ==> s[j] != ',' && s[j] != '\n';
  }

  lemma RowNoNewline(e: TipEntry)
    requires CsvSafe(e)
    ensures '\n' !in Row(e)
  {
    CellsClean(e);
    JoinAvoids(RowCells(e), ',', '\n');
  }

  /** A safe shift's row is one line that splits at its commas back into
      exactly the six cells it was written from. */
  lemma RowSplits(e: TipEntry)
    requires CsvSafe(e)
    ensures Split(Row(e), ',') == RowCells(e)
    ensures '\n' !in Row(e)
  {
    CellsClean(e);
    SplitJoin(RowCells(e), ',');
    RowNoNewline(e);
  }

  /** The export of safe shifts splits at its line feeds into the header
      and then each shift's row, in order. */
  lemma ExportSplits(es: seq<TipEntry>)
    requires forall i :: 0 <= i < |es| ==> CsvSafe(es[i])
    ensures Split(ToCsv(es), '\n') == [HeaderLine] + Rows(es)
  {
    var parts := [HeaderLine] + Rows(es);
    HeaderAlone();
    forall i | 0 <= i < |parts|
      ensures '\n' !in parts[i]
    {
      if i > 0 {
        RowNoNewline(es[i - 1]);
      }
    }
    SplitJoin(parts, '\n');
  }

  /** `line` is the row of `e` with some white space cut from its end, but
      none of its commas: what the line split and the trim of the whole
      text leave of an exported row. */
  predicate RowCutTo(e: TipEntry, line: string) {
    && |Front(e)| < |line| <= |Row(e)|
    && line == Row(e)[..|line|]
    && AllSpace(Row(e)[|line|..])
  }

  /** Cutting white space from the end of a row changes only its notes
      cell, and that only by white space at its end. */
  lemma CutCells(e: TipEntry, line: string)
    requires CsvSafe(e) && RowCutTo(e, line)
    ensures var v := line[|Front(e)| + 1..];
            && Split(line, ',') == RowCells(e)[..5] + [v]
            && Trim(v) == Trim(NotesCell(e))
  {
    var cells := RowCells(e);
    var front := Front(e);
    RowShape(e);
    CellsClean(e);
    var v := line[|front| + 1..];
    var rest := Row(e)[|line|..];
    assert line == front + [','] + v;
    assert cells[5] == v + rest;
    TrimSpaceSuffix(v, rest);
    assert forall j :: 0 <= j < |v| ==> v[j] == cells[5][j];
    var got := cells[..5] + [v];
    assert got[..5] == cells[..5];
    JoinSnoc(cells[..5], v, ',');
    SplitJoin(got, ',');
  }

  /** The cells of a safe shift's row, its notes cell possibly cut, decode
      to the reimported shift. */
  lemma CellsDecode(e: TipEntry, cells: seq<string>)
    requires CsvSafe(e) && |cells| == 6
    requires cells[0] == e.date && cells[1] == Show(e.made) && cells[2] == Show(e.tipOut)
    requires cells[3] == HoursCell(e.hours) && cells[4] == e.restaurant.GetOr("")
    requires Trim(cells[5]) == Trim(NotesCell(e))
    ensures DecodeCells(cells, Standard, "") == Some(Reimported(e, ""))
  {
    CellsRead(e, cells);
  }

  lemma FrontCells(e: TipEntry, cells: seq<string>)
    requires |cells| == 6
    requires cells[..5] == RowCells(e)[..5]
    ensures cells[0] == e.date && cells[1] == Show(e.made) && cells[2] == Show(e.tipOut)
    ensures cells[3] == HoursCell(e.hours) && cells[4] == e.restaurant.GetOr("")
  {
    var row := RowCells(e);
    assert cells[0] == row[0] && cells[1] == row[1] && cells[2] == row[2];
    assert cells[3] == row[3] && cells[4] == row[4];
  }

  /** What each cell of a safe shift's row reads back as. */
  lemma CellsRead(e: TipEntry, cells: seq<string>)
    requires CsvSafe(e) && |cells| == 6
    requires cells[0] == e.date && cells[1] == Show(e.made) && cells[2] == Show(e.tipOut)
    requires cells[3] == HoursCell(e.hours) && cells[4] == e.restaurant.GetOr("")
    ensures TextAt(cells, 0) == e.date
    ensures AmountAt(cells, 1) == e.made && AmountAt(cells, 2) == e.tipOut
    ensures AmountAt(cells, 3) == if e.hours.Some? then e.hours.value else 0
    ensures TextAt(cells, 4) == Trim(e.restaurant.GetOr(""))
  {
    AmountRead(cells, 1, e.made);
    AmountRead(cells, 2, e.tipOut);
    HoursRead(cells, e.hours);
  }

  lemma AmountRead(cells: seq<string>, i: nat, n: int)
    requires i < |cells| && cells[i] == Show(n)
    ensures AmountAt(cells, i) == n
  {
    ShowParse(n);
  }

  lemma HoursRead(cells: seq<string>, h: Option<int>)
    requires |cells| > 3 && cells[3] == HoursCell(h)
    ensures AmountAt(cells, 3) == if h.Some? then h.value else 0
  {
    if h.Some? {
      AmountRead(cells, 3, h.value);
    } else {
      assert ParseNumber("") == Some(0);
    }
  }

  /** Reading a row of a safe shift, or the row with white space cut from its
      end, gives back the reimported shift. */
  lemma RowDecodes(e: TipEntry, line: string)
    requires CsvSafe(e) && RowCutTo(e, line)
    ensures DecodeCells(Split(line, ','), Standard, "") == Some(Reimported(e, ""))
  {
    CutCells(e, line);
    FrontCells(e, Split(line, ','));
    CellsDecode(e, Split(line, ','));
  }

  /** The lines of an export, before the import trims the text. */
  function ExportParts(es: seq<TipEntry>): seq<string> {
    [HeaderLine] + Rows(es)
  }

  /** What trimming the whole text leaves of the last row. */
  function CutLast(e: TipEntry): string {
    Front(e) + [','] + TrimEnd(NotesCell(e))
  }

  lemma CutLastIsCut(e: TipEntry)
    requires CsvSafe(e)
    ensures RowCutTo(e, CutLast(e)) && '\n' !in CutLast(e)
  {
    RowShape(e);
    var c5 := NotesCell(e);
    var cut := CutLast(e);
    assert Row(e)[|cut|..] == c5[|TrimEnd(c5)|..];
    assert forall j :: 0 <= j < |cut| ==> cut[j] == Row(e)[j];
    RowNoNewline(e);
  }

  /** A row that loses a carriage return at its end still has all its
      commas. */
  lemma DropCRIsCut(e: TipEntry)
    ensures RowCutTo(e, DropCR(Row(e)))
  {
    var r := Row(e);
    RowShape(e);
    if |r| > 0 && r[|r| - 1] == '\r' {
      assert r[|r| - 1..] == ['\r'];
    }
  }

  /** Trimming the text of a non-empty export cuts into the last row's notes
      cell only. */
  lemma TrimExport(es: seq<TipEntry>)
    requires |es| > 0
    ensures Trim(ToCsv(es)) == Join(ExportParts(es)[..|es|] + [CutLast(es[|es| - 1])], '\n')
  {
    var last := es[|es| - 1];
    ExportShape(es);
    ExportStartsVisible(es);
    TrimJoinedLines(ExportParts(es)[..|es|], Front(last), ',', NotesCell(last));
  }

  lemma ExportShape(es: seq<TipEntry>)
    requires |es| > 0
    ensures ToCsv(es) == Join(ExportParts(es)[..|es|] + [Front(es[|es| - 1]) + [','] + NotesCell(es[|es| - 1])], '\n')
  {
    LastRow(es);
    RowShape(es[|es| - 1]);
  }

  lemma LastRow(es: seq<TipEntry>)
    requires |es| > 0
    ensures ToCsv(es) == Join(ExportParts(es)[..|es|] + [Row(es[|es| - 1])], '\n')
  {
    var ps, n := ExportParts(es), |es|;
    JoinLastPiece(ps, '\n');
    assert ps[n] == Row(es[n - 1]);
    assert ps[..n] + [ps[n]] == ps[..n] + [Row(es[n - 1])];
    ExportJoin(es);
  }

  lemma ExportJoin(es: seq<TipEntry>)
    ensures ToCsv(es) == Join(ExportParts(es), '\n')
  {
  }

  /** A join is the join of its pieces but the last, then the last one. */
  lemma JoinLastPiece(ps: seq<string>, sep: char)
    requires |ps| > 0
    ensures Join(ps, sep) == Join(ps[..|ps| - 1] + [ps[|ps| - 1]], sep)
  {
    Seqs.SplitLast(ps);
  }

  lemma ExportStartsVisible(es: seq<TipEntry>)
    requires |es| > 0
    ensures var ps := ExportParts(es)[..|es|]; |ps| >= 1 && |ps[0]| > 0 && !IsSpace(ps[0][0])
  {
    HeaderAlone();
    assert ExportParts(es)[..|es|][0] == HeaderLine;
  }

  /** The lines of a non-empty export once the text is trimmed. */
  function CutParts(es: seq<TipEntry>): seq<string>
    requires |es| > 0
  {
    ExportParts(es)[..|es|] + [CutLast(es[|es| - 1])]
  }

  lemma CutPartsShape(es: seq<TipEntry>)
    requires |es| > 0
    ensures |CutParts(es)| == |es| + 1 && CutParts(es)[0] == HeaderLine
    ensures forall i :: 0 <= i < |es| - 1 ==> CutParts(es)[i + 1] == Row(es[i])
    ensures CutParts(es)[|es|] == CutLast(es[|es| - 1])
  {
  }

  lemma CutPartsClean(es: seq<TipEntry>)
    requires |es| > 0
    requires forall i :: 0 <= i < |es| ==> CsvSafe(es[i])
    ensures forall i :: 0 <= i < |CutParts(es)| ==> '\n' !in CutParts(es)[i]
  {
    var parts := CutParts(es);
    CutPartsShape(es);
    forall i | 0 <= i < |parts|
      ensures '\n' !in parts[i]
    {
      if i == 0 {
        HeaderAlone();
      } else if i < |es| {
        RowNoNewline(es[i - 1]);
      } else {
        CutLastIsCut(es[|es| - 1]);
      }
    }
  }

  /** The lines an import reads from an export of safe shifts: the header,
      then one line per shift, cut only within its notes. */
  lemma ExportLines(es: seq<TipEntry>)
    requires forall i :: 0 <= i < |es| ==> CsvSafe(es[i])
    ensures var lines := Lines(Trim(ToCsv(es)));
            && |lines| == |es| + 1 && lines[0] == HeaderLine
            && forall i :: 0 <= i < |es| ==> RowCutTo(es[i], lines[i + 1])
    ensures forall i :: 0 <= i < |es| - 1 ==> Lines(Trim(ToCsv(es)))[i + 1] == DropCR(Row(es[i]))
    ensures |es| > 0 ==> Lines(Trim(ToCsv(es)))[|es|] == CutLast(es[|es| - 1])
  {
    if |es| == 0 {
      EmptyExportLines(es);
    } else {
      TrimExport(es);
      CutPartsClean(es);
      NonEmptyExportLines(es, Lines(Trim(ToCsv(es))));
    }
  }

  lemma EmptyExportLines(es: seq<TipEntry>)
    requires |es| == 0
    ensures Lines(Trim(ToCsv(es))) == [HeaderLine]
  {
    HeaderAlone();
    HeaderBare();
    assert ToCsv(es) == HeaderLine;
    LinesWhole(HeaderLine);
  }

  lemma NonEmptyExportLines(es: seq<TipEntry>, lines: seq<string>)
    requires |es| > 0
    requires forall i :: 0 <= i < |es| ==> CsvSafe(es[i])
    requires forall i :: 0 <= i < |CutParts(es)| ==> '\n' !in CutParts(es)[i]
    requires lines == Lines(Join(CutParts(es), '\n'))
    ensures |lines| == |es| + 1 && lines[0] == HeaderLine
    ensures forall i :: 0 <= i < |es| ==> RowCutTo(es[i], lines[i + 1])
    ensures forall i :: 0 <= i < |es| - 1 ==> lines[i + 1] == DropCR(Row(es[i]))
    ensures lines[|es|] == CutLast(es[|es| - 1])
  {
    var n := |es|;
    CutPartsShape(es);
    LinesOfJoin(CutParts(es));
    HeaderBare();
    CutLastIsCut(es[n - 1]);
    forall i | 0 <= i < n - 1
      ensures RowCutTo(es[i], lines[i + 1])
    {
      DropCRIsCut(es[i]);
    }
  }

  lemma RowsDecode(es: seq<TipEntry>, lines: seq<string>, want: seq<TipEntry>)
    requires forall i :: 0 <= i < |es| ==> CsvSafe(es[i])
    requires |lines| == |es| + 1 && |want| == |es|
    requires forall i :: 0 <= i < |es| ==> RowCutTo(es[i], lines[i + 1])
    requires forall k :: 0 <= k < |es| ==> want[k] == Reimported(es[k], "")
    ensures forall i :: 0 <= i < |es| ==> DecodeCells(CellRows(lines[1..])[i], Standard, "") == Some(want[i])
  {
    forall i | 0 <= i < |es|
      ensures DecodeCells(CellRows(lines[1..])[i], Standard, "") == Some(want[i])
    {
      assert lines[1..][i] == lines[i + 1];
      RowDecodes(es[i], lines[i + 1]);
    }
  }

  /** Every data line of an export of safe shifts is kept and decodes to
      its shift. */
  lemma DecodeExport(es: seq<TipEntry>, lines: seq<string>, want: seq<TipEntry>)
    requires forall i :: 0 <= i < |es| ==> CsvSafe(es[i])
    requires |lines| == |es| + 1 && |want| == |es|
    requires forall i :: 0 <= i < |es| ==> RowCutTo(es[i], lines[i + 1])
    requires forall k :: 0 <= k < |es| ==> want[k] == Reimported(es[k], "")
    ensures DecodeRows(CellRows(lines[1..]), Standard) == want
  {
    RowsDecode(es, lines, want);
    DecodeRowsAllDated(CellRows(lines[1..]), Standard, want);
  }

  /** The import of an export of safe shifts finds the standard columns
      and keeps every data line. */
  lemma ExportDecodes(es: seq<TipEntry>, want: seq<TipEntry>)
    requires forall i :: 0 <= i < |es| ==> CsvSafe(es[i])
    requires |want| == |es| && forall k :: 0 <= k < |es| ==> want[k] == Reimported(es[k], "")
    ensures var lines := Lines(Trim(ToCsv(es)));
            && LocateColumns(HeaderKeys(lines[0])) == Standard
            && DecodeRows(CellRows(lines[1..]), Standard) == want
  {
    var lines := Lines(Trim(ToCsv(es)));
    ExportLines(es);
    StandardHeader();
    DecodeExport(es, lines, want);
  }

  /** `FromCsv` once its header and its data lines are known. */
  lemma ImportOf(csv: string, ids: nat -> string, want: seq<TipEntry>)
    requires var lines := Lines(Trim(csv));
             && LocateColumns(HeaderKeys(lines[0])) == Standard
             && DecodeRows(CellRows(lines[1..]), Standard) == want
    ensures FromCsv(csv, ids) == NumberShifts(want, ids)
  {
  }

  lemma Renumbered(es: seq<TipEntry>, want: seq<TipEntry>, ids: nat -> string)
    requires |want| == |es| && forall k :: 0 <= k < |es| ==> want[k] == Reimported(es[k], "")
    ensures |NumberShifts(want, ids)| == |es|
    ensures forall k :: 0 <= k < |es| ==> NumberShifts(want, ids)[k] == Reimported(es[k], ids(k))
  {
  }

  /** Importing an export of safe shifts gives back every shift, in order,
      as `Reimported` describes, the k-th under the id `ids(k)`. */
  lemma RoundTrip(es: seq<TipEntry>, ids: nat -> string)
    requires forall i :: 0 <= i < |es| ==> CsvSafe(es[i])
    ensures |FromCsv(ToCsv(es), ids)| == |es|
    ensures forall k :: 0 <= k < |es| ==> FromCsv(ToCsv(es), ids)[k] == Reimported(es[k], ids(k))
  {
    var want := seq(|es|, k requires 0 <= k < |es| => Reimported(es[k], ""));
    ExportDecodes(es, want);
    ImportOf(ToCsv(es), ids, want);
    Renumbered(es, want, ids);
  }
}
