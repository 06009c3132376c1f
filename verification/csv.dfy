/** The CSV export and import of shifts (`toCSV`, `fromCSV`). Export writes
    a fixed header and one comma-joined row per shift, with no quoting.
    Import finds its columns by header name, skips rows without a date and
    defaults every other field it cannot read. */
module Csv {
  import opened Optional
  import opened Text
  import opened Numbers
  import opened Entries
  import Seqs

  const HeaderNames: seq<string> := ["date", "made", "tipOut", "hours", "restaurant", "notes"]

  /** The header line: the six names joined by commas. */
  const HeaderLine: string := Join(HeaderNames, ',')

  // ---------------------------------------------------------------- export

  /** An absent `hours` is written as the empty cell (`e.hours ?? ""`). */
  function HoursCell(h: Option<int>): string {
    match h
    case Some(v) => Show(v)
    case None => ""
  }

  /** The six cells of one row, in header order; line feeds inside the
      notes become spaces, nothing else is escaped. */
  function RowCells(e: TipEntry): seq<string> {
    [e.date, Show(e.made), Show(e.tipOut), HoursCell(e.hours),
     e.restaurant.GetOr(""), ReplaceNewlines(e.notes.GetOr(""))]
  }

  function Row(e: TipEntry): string {
    Join(RowCells(e), ',')
  }

  function Rows(es: seq<TipEntry>): (rows: seq<string>)
    ensures |rows| == |es|
  {
    seq(|es|, i requires 0 <= i < |es| => Row(es[i]))
  }

  /** `toCSV`: the header line, then one line per shift, joined by `\n`. */
  function ToCsv(es: seq<TipEntry>): (r: string)
    ensures |HeaderLine| <= |r| && r[..|HeaderLine|] == HeaderLine
    ensures |es| == 0 ==> r == HeaderLine
    ensures |es| > 0 ==> |HeaderLine| < |r| && r[|HeaderLine|] == '\n'
  {
    Join([HeaderLine] + Rows(es), '\n')
  }

  // ---------------------------------------------------------------- import

  /** Where each field's column is, `-1` for a column the header lacks. */
  datatype Columns = Columns(date: int, made: int, tipOut: int, hours: int, restaurant: int, notes: int)

  /** `xs.indexOf(x)`: the first position holding `x`, or `-1`. */
  function IndexOf(xs: seq<string>, x: string): (r: int)
    ensures -1 <= r < |xs|
    ensures r == -1 <==> x !in xs
    ensures r >= 0 ==> xs[r] == x && x !in xs[..r]
    decreases |xs|
  {
    if |xs| == 0 then -1
    else if xs[0] == x then 0
    else
      var k := IndexOf(xs[1..], x);
      assert xs == [xs[0]] + xs[1..];
      if k == -1 then -1
      else
        assert xs[..k + 1] == [xs[0]] + xs[1..][..k];
        k + 1
  }

  /** In a list without repeats, every element is found where it stands. */
  lemma IndexOfDistinct(keys: seq<string>, k: nat)
    requires forall i, j :: 0 <= i < j < |keys| ==> keys[i] != keys[j]
    requires k < |keys|
    ensures IndexOf(keys, keys[k]) == k
  {
    var r := IndexOf(keys, keys[k]);
    assert keys[k] in keys;
    assert keys[r] == keys[k];
  }

  /** The header cells as `fromCSV` compares them: trimmed and lower-cased. */
  function HeaderKeys(line: string): (keys: seq<string>)
    ensures |keys| == |Split(line, ',')|
    ensures forall i :: 0 <= i < |keys| ==> |keys[i]| == |Trim(Split(line, ',')[i])|
    ensures forall i, j :: 0 <= i < |keys| && 0 <= j < |keys[i]| ==> !('A' <= keys[i][j] <= 'Z')
    ensures forall i :: 0 <= i < |keys| ==> keys[i] == Lowercase(Trim(Split(line, ',')[i]))
  {
    var cells := Split(line, ',');
    seq(|cells|, i requires 0 <= i < |cells| => Lowercase(Trim(cells[i])))
  }

  /** No upper-case ASCII letter: true of the six field names. */
  predicate NoCapitals(s: string) {
    forall i :: 0 <= i < |s| ==> !('A' <= s[i] <= 'Z')
  }

  /** `t` spells `name` with any of its letters written in upper case. */
  predicate CaseVariant(t: string, name: string) {
    && |t| == |name|
    && forall i :: 0 <= i < |t| ==>
         t[i] == name[i] || ('A' <= t[i] <= 'Z' && t[i] as int + 32 == name[i] as int)
  }

  /** Lower-casing gives a lower-case name exactly for the spellings of
      that name up to case. */
  lemma LowercaseMatches(t: string, name: string)
    requires NoCapitals(name)
    ensures Lowercase(t) == name <==> CaseVariant(t, name)
  {
    var r := Lowercase(t);
    if CaseVariant(t, name) {
      forall i | 0 <= i < |t|
        ensures r[i] == name[i]
      {
        if 'A' <= t[i] <= 'Z' {
          assert r[i] as int == name[i] as int;
        }
      }
    }
  }

  /** A header cell yields a lower-case field name as its key exactly when
      the cell, trimmed, spells that name up to case. */
  lemma HeaderCellMatches(line: string, i: nat, name: string)
    requires i < |Split(line, ',')| && NoCapitals(name)
    ensures HeaderKeys(line)[i] == name <==> CaseVariant(Trim(Split(line, ',')[i]), name)
  {
    LowercaseMatches(Trim(Split(line, ',')[i]), name);
  }

  /** Where `fromCSV` finds a field in a header line: the first cell that,
      trimmed, spells the field's name up to case, or `-1` when none does. */
  lemma FoundUpToCase(line: string, name: string, c: int)
    requires NoCapitals(name) && FoundAt(HeaderKeys(line), name, c)
    ensures var cells := Split(line, ',');
            && (c == -1 <==> forall j :: 0 <= j < |cells| ==> !CaseVariant(Trim(cells[j]), name))
            && (c >= 0 ==> c < |cells| && CaseVariant(Trim(cells[c]), name))
            && forall j :: 0 <= j < |cells| && j < c ==> !CaseVariant(Trim(cells[j]), name)
  {
    var cells, keys := Split(line, ','), HeaderKeys(line);
    var hit := seq(|cells|, j requires 0 <= j < |cells| => CaseVariant(Trim(cells[j]), name));
    forall j | 0 <= j < |keys|
      ensures keys[j] == name <==> hit[j]
    {
      HeaderCellMatches(line, j, name);
    }
    FoundWhere(keys, name, c, hit);
  }

  /** A worked example of `FoundUpToCase`, kept as documentation: a header
      cell typed in capitals, with spaces around it, still finds its
      column, so the header ` DATE ` puts the date at column 0. */
  lemma CapitalHeaderFound()
    ensures LocateColumns(HeaderKeys(" DATE ")).date == 0
  {
    CapitalCell(" DATE ");
    DateOnlyHeader(" DATE ");
  }

  /** A header of one cell that spells `date` up to case puts the date at
      column 0. */
  lemma DateOnlyHeader(line: string)
    requires Split(line, ',') == [line] && CaseVariant(Trim(line), "date")
    ensures LocateColumns(HeaderKeys(line)).date == 0
  {
    OneCellKeys(line);
    LowercaseMatches(Trim(line), "date");
    OnlyKey(HeaderKeys(line), "date", LocateColumns(HeaderKeys(line)).date);
  }

  lemma OneCellKeys(line: string)
    requires Split(line, ',') == [line]
    ensures HeaderKeys(line) == [Lowercase(Trim(line))]
  {
    var keys := HeaderKeys(line);
    assert |keys| == 1;
    assert keys[0] == Lowercase(Trim(Split(line, ',')[0]));
  }

  lemma OnlyKey(keys: seq<string>, name: string, c: int)
    requires keys == [name] && FoundAt(keys, name, c)
    ensures c == 0
  {
  }

  lemma CapitalCell(line: string)
    requires line == " DATE "
    ensures Split(line, ',') == [line]
    ensures CaseVariant(Trim(line), "date")
  {
    assert ',' !in line;
    SplitWhole(line, ',');
    TrimPadded(" ", "DATE", " ");
    assert " " + "DATE" + " " == line;
  }

  /** `indexOf` read through a test that agrees with key equality. */
  lemma FoundWhere(keys: seq<string>, name: string, c: int, hit: seq<bool>)
    requires |hit| == |keys| && FoundAt(keys, name, c)
    requires forall j :: 0 <= j < |keys| ==> (keys[j] == name <==> hit[j])
    ensures c == -1 <==> forall j :: 0 <= j < |hit| ==> !hit[j]
    ensures c >= 0 ==> c < |hit| && hit[c]
    ensures forall j :: 0 <= j < |hit| && j < c ==> !hit[j]
  {
    if c >= 0 {
      forall j | 0 <= j < c
        ensures keys[j] != name
      {
        assert keys[j] == keys[..c][j];
      }
    }
  }

  /** `i` is where `keys.indexOf(name)` finds `name`: its first position,
      or `-1` when no header cell carries it. */
  predicate FoundAt(keys: seq<string>, name: string, i: int) {
    if i < 0 then i == -1 && name !in keys
    else i < |keys| && keys[i] == name && name !in keys[..i]
  }

  /** Every field's column is the first header cell carrying its
      (lower-case) name, wherever that cell stands. */
  function LocateColumns(keys: seq<string>): (cols: Columns)
    ensures FoundAt(keys, "date", cols.date)
    ensures FoundAt(keys, "made", cols.made)
    ensures FoundAt(keys, "tipout", cols.tipOut)
    ensures FoundAt(keys, "hours", cols.hours)
    ensures FoundAt(keys, "restaurant", cols.restaurant)
    ensures FoundAt(keys, "notes", cols.notes)
  {
    Columns(IndexOf(keys, "date"), IndexOf(keys, "made"), IndexOf(keys, "tipout"),
            IndexOf(keys, "hours"), IndexOf(keys, "restaurant"), IndexOf(keys, "notes"))
  }

  /** Whether the row has a cell at position `i`: `cells[i]` is
      `undefined` outside the row, and at `-1` for a missing column. */
  predicate HasCell(cells: seq<string>, i: int) {
    0 <= i < |cells|
  }

  /** An amount cell read as a number: a missing cell and a cell that is
      not a numeral both read as 0. */
  function AmountAt(cells: seq<string>, i: int): (v: int)
    ensures !HasCell(cells, i) ==> v == 0
    ensures HasCell(cells, i) && ParseNumber(cells[i]).None? ==> v == 0
    ensures HasCell(cells, i) && ParseNumber(cells[i]).Some? ==> v == ParseNumber(cells[i]).value
  {
    if HasCell(cells, i) then NumberOrZero(cells[i]) else 0
  }

  /** A text cell read trimmed, with a missing cell read as empty. */
  function TextAt(cells: seq<string>, i: int): (t: string)
    ensures IsTrimmed(t)
    ensures HasCell(cells, i) ==> t == Trim(cells[i])
    ensures !HasCell(cells, i) ==> t == ""
  {
    if HasCell(cells, i) then Trim(cells[i]) else ""
  }

  /** Whether the cells of a data line name a date in the date column. */
  predicate HasDate(cells: seq<string>, cols: Columns) {
    TextAt(cells, cols.date) != ""
  }

  /** One data line of `fromCSV`, already cut at its commas: `None` when it
      is skipped. */
  function DecodeCells(cells: seq<string>, cols: Columns, id: string): (r: Option<TipEntry>)
    ensures r.Some? <==> HasDate(cells, cols)
    ensures r.Some? ==>
      var e := r.value;
      && e.id == id
      && e.date == TextAt(cells, cols.date) && e.date != ""
      && e.made == AmountAt(cells, cols.made)
      && e.tipOut == AmountAt(cells, cols.tipOut)
      && (e.hours.None? <==> AmountAt(cells, cols.hours) == 0)
      && (e.hours.Some? ==> e.hours.value == AmountAt(cells, cols.hours))
      && (e.restaurant.None? <==> TextAt(cells, cols.restaurant) == "")
      && (e.restaurant.Some? ==> e.restaurant.value == TextAt(cells, cols.restaurant))
      && e.notes == Some(TextAt(cells, cols.notes))
  {
    var date := TextAt(cells, cols.date);
    if date == "" then None
    else
      var hours := AmountAt(cells, cols.hours);
      var restaurant := TextAt(cells, cols.restaurant);
      Some(TipEntry(
        id, date,
        AmountAt(cells, cols.made),
        AmountAt(cells, cols.tipOut),
        if hours == 0 then None else Some(hours),
        if restaurant == "" then None else Some(restaurant),
        Some(TextAt(cells, cols.notes))))
  }

  /** What every shift `fromCSV` produces looks like: a date that is
      neither blank nor padded, no zero hours, no empty restaurant, and
      notes that are present. */
  predicate Normalized(e: TipEntry) {
    && e.date != "" && IsTrimmed(e.date)
    && e.hours != Some(0) && e.restaurant != Some("") && e.notes.Some?
  }

  /** Every line cut at its commas. */
  function CellRows(lines: seq<string>): (rows: seq<seq<string>>)
    ensures |rows| == |lines|
    ensures forall i :: 0 <= i < |lines| ==> rows[i] == Split(lines[i], ',')
  {
    seq(|lines|, i requires 0 <= i < |lines| => Split(lines[i], ','))
  }

  /** What each data row decodes to, `None` for a skipped row. */
  function Decoded(rows: seq<seq<string>>, cols: Columns): (ds: seq<Option<TipEntry>>)
    ensures |ds| == |rows|
    ensures forall i :: 0 <= i < |rows| ==> ds[i] == DecodeCells(rows[i], cols, "")
  {
    seq(|rows|, i requires 0 <= i < |rows| => DecodeCells(rows[i], cols, ""))
  }

  /** How many of the rows have a date. */
  function CountDated(rows: seq<seq<string>>, cols: Columns): (n: nat)
    ensures n <= |rows|
    decreases |rows|
  {
    if |rows| == 0 then 0 else (if HasDate(rows[0], cols) then 1 else 0) + CountDated(rows[1..], cols)
  }

  lemma {:induction false} CountDecoded(rows: seq<seq<string>>, cols: Columns)
    ensures CountSome(Decoded(rows, cols)) == CountDated(rows, cols)
    decreases |rows|
  {
    if |rows| > 0 {
      assert Decoded(rows, cols)[1..] == Decoded(rows[1..], cols);
      CountDecoded(rows[1..], cols);
    }
  }

  /** The shifts the rows decode to are the dated rows' shifts, one for
      one and in row order: the dated row `i` gives the shift at the
      position counting the dated rows before it. */
  lemma DecodedValues(rows: seq<seq<string>>, cols: Columns)
    ensures |Values(Decoded(rows, cols))| == CountDated(rows, cols)
    ensures forall i :: 0 <= i < |rows| && HasDate(rows[i], cols) ==>
              && CountDated(rows[..i], cols) < |Values(Decoded(rows, cols))|
              && Values(Decoded(rows, cols))[CountDated(rows[..i], cols)] == DecodeCells(rows[i], cols, "").value
  {
    var ds := Decoded(rows, cols);
    ValuesCount(ds);
    CountDecoded(rows, cols);
    forall i | 0 <= i < |rows| && HasDate(rows[i], cols)
      ensures CountDated(rows[..i], cols) < |Values(ds)|
      ensures Values(ds)[CountDated(rows[..i], cols)] == DecodeCells(rows[i], cols, "").value
    {
      ValuesAt(ds, i);
      assert ds[..i] == Decoded(rows[..i], cols);
      CountDecoded(rows[..i], cols);
    }
  }

  /** The data rows of `fromCSV`, each shift still without its id: every
      row with a date gives its shift, in row order, and the rows without
      one leave no trace. */
  function DecodeRows(rows: seq<seq<string>>, cols: Columns): (out: seq<TipEntry>)
    ensures |out| == CountDated(rows, cols) && |out| <= |rows|
    ensures forall i :: 0 <= i < |rows| && HasDate(rows[i], cols) ==>
              && CountDated(rows[..i], cols) < |out|
              && out[CountDated(rows[..i], cols)] == DecodeCells(rows[i], cols, "").value
    ensures forall k :: 0 <= k < |out| ==> Normalized(out[k])
    ensures cols.date < 0 ==> out == []
  {
    var ds := Decoded(rows, cols);
    DecodedValues(rows, cols);
    ValuesSatisfy(ds, Normalized);
    assert cols.date < 0 ==> Values(ds) == [] by {
      if cols.date < 0 {
        ValuesNonePresent(ds);
      }
    }
    Values(ds)
  }

  /** When every data row has a date, none is skipped: the result is the
      decoded rows, one for one. */
  lemma DecodeRowsAllDated(rows: seq<seq<string>>, cols: Columns, want: seq<TipEntry>)
    requires |rows| == |want|
    requires forall i :: 0 <= i < |rows| ==> DecodeCells(rows[i], cols, "") == Some(want[i])
    ensures DecodeRows(rows, cols) == want
  {
    ValuesAllPresent(Decoded(rows, cols), want);
  }

  /** The k-th shift of `shifts` gets the id `ids(k)`; nothing else changes. */
  function NumberShifts(shifts: seq<TipEntry>, ids: nat -> string): (out: seq<TipEntry>)
    ensures |out| == |shifts|
    ensures forall k :: 0 <= k < |out| ==> out[k] == shifts[k].(id := ids(k))
  {
    seq(|shifts|, k requires 0 <= k < |shifts| => shifts[k].(id := ids(k)))
  }

  /** The columns the header line of an import leads to: the first line
      of the trimmed text. */
  function HeaderColumns(csv: string): Columns {
    LocateColumns(HeaderKeys(Lines(Trim(csv))[0]))
  }

  /** The data lines of an import, every line after the header, cut at
      their commas. */
  function DataRows(csv: string): (rows: seq<seq<string>>)
    ensures |rows| == |Lines(Trim(csv))| - 1
  {
    CellRows(Lines(Trim(csv))[1..])
  }

  /** `fromCSV`: the first line (after trimming the text) is the header;
      every later line with a date becomes a shift, in line order, the
      k-th of them with the id `ids(k)`; lines without a date are
      skipped. */
  function FromCsv(csv: string, ids: nat -> string): (out: seq<TipEntry>)
    ensures var rows, cols := DataRows(csv), HeaderColumns(csv);
            && |out| == CountDated(rows, cols)
            && forall i :: 0 <= i < |rows| && HasDate(rows[i], cols) ==>
                 && CountDated(rows[..i], cols) < |out|
                 && out[CountDated(rows[..i], cols)]
                    == DecodeCells(rows[i], cols, "").value.(id := ids(CountDated(rows[..i], cols)))
    ensures forall k :: 0 <= k < |out| ==> out[k].id == ids(k) && Normalized(out[k])
    ensures (forall a: nat, b: nat :: a != b ==> ids(a) != ids(b))
            ==> forall k, l :: 0 <= k < l < |out| ==> out[k].id != out[l].id
    ensures "date" !in HeaderKeys(Lines(Trim(csv))[0]) ==> out == []
    ensures |out| < |Lines(Trim(csv))|
  {
    NumberShifts(DecodeRows(DataRows(csv), HeaderColumns(csv)), ids)
  }
}
