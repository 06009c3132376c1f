/** What `loadEntries` and `loadExpenses` do to the records once the JSON
    text in local storage has been parsed: the amounts pass through
    `Number(x) || 0`, everything else is kept as parsed. Reading and
    parsing the stored text are outside the model; a parsed record is given
    here with its amount fields still as the JSON values they were. */
module Storage {
  import opened Optional
  import opened Numbers
  import opened Entries

  /** The JSON values an amount field can hold after parsing. */
  datatype JsonValue = Missing | Null | Bool(b: bool) | Num(n: int) | Text(s: string)

  /** `Number(v) || 0`. */
  function Coerce(v: JsonValue): (r: int)
    ensures v.Num? ==> r == v.n
    ensures v.Missing? || v.Null? || v == Bool(false) ==> r == 0
    ensures v == Bool(true) ==> r == 1
    ensures v.Text? ==> r == NumberOrZero(v.s)
  {
    match v
    case Missing => 0
    case Null => 0
    case Bool(b) => if b then 1 else 0
    case Num(n) => n
    case Text(s) => NumberOrZero(s)
  }

  /** An amount written as text reads back as that amount. */
  lemma CoerceShown(n: int)
    ensures Coerce(Text(Show(n))) == n
  {
    ShowParse(n);
  }

  /** A shift as `JSON.parse` gives it back. */
  datatype StoredEntry = StoredEntry(
    id: string,
    date: string,
    made: JsonValue,
    tipOut: JsonValue,
    hours: Option<int>,
    restaurant: Option<string>,
    notes: Option<string>)

  datatype StoredExpense = StoredExpense(id: string, date: string, amount: JsonValue, description: string)

  function LoadEntry(s: StoredEntry): (e: TipEntry)
    ensures e.id == s.id && e.date == s.date && e.hours == s.hours
    ensures e.restaurant == s.restaurant && e.notes == s.notes
    ensures e.made == Coerce(s.made) && e.tipOut == Coerce(s.tipOut)
  {
    TipEntry(s.id, s.date, Coerce(s.made), Coerce(s.tipOut), s.hours, s.restaurant, s.notes)
  }

  /** What `saveEntries` writes for a shift: its amounts as JSON numbers. */
  function SaveEntry(e: TipEntry): StoredEntry {
    StoredEntry(e.id, e.date, Num(e.made), Num(e.tipOut), e.hours, e.restaurant, e.notes)
  }

  function LoadExpense(s: StoredExpense): (x: Expense)
    ensures x.id == s.id && x.date == s.date && x.description == s.description
    ensures x.amount == Coerce(s.amount)
  {
    Expense(s.id, s.date, Coerce(s.amount), s.description)
  }

  function SaveExpense(x: Expense): StoredExpense {
    StoredExpense(x.id, x.date, Num(x.amount), x.description)
  }

  /** The shifts as `loadEntries` returns them: each parsed record loaded
      on its own, in stored order. */
  function LoadEntries(ss: seq<StoredEntry>): (es: seq<TipEntry>)
    ensures |es| == |ss|
    ensures forall i :: 0 <= i < |ss| ==> es[i] == LoadEntry(ss[i])
  {
    seq(|ss|, i requires 0 <= i < |ss| => LoadEntry(ss[i]))
  }

  function SaveEntries(es: seq<TipEntry>): (ss: seq<StoredEntry>)
    ensures |ss| == |es|
    ensures forall i :: 0 <= i < |es| ==> ss[i] == SaveEntry(es[i])
  {
    seq(|es|, i requires 0 <= i < |es| => SaveEntry(es[i]))
  }

  /** The expenses as `loadExpenses` returns them, likewise. */
  function LoadExpenses(ss: seq<StoredExpense>): (xs: seq<Expense>)
    ensures |xs| == |ss|
    ensures forall i :: 0 <= i < |ss| ==> xs[i] == LoadExpense(ss[i])
  {
    seq(|ss|, i requires 0 <= i < |ss| => LoadExpense(ss[i]))
  }

  function SaveExpenses(xs: seq<Expense>): (ss: seq<StoredExpense>)
    ensures |ss| == |xs|
    ensures forall i :: 0 <= i < |xs| ==> ss[i] == SaveExpense(xs[i])
  {
    seq(|xs|, i requires 0 <= i < |xs| => SaveExpense(xs[i]))
  }

  /** Saving the shifts and loading them again gives them back. This holds
      by construction: `SaveEntry` stands in for `JSON.stringify` and writes
      each amount as a JSON number, which `Coerce` keeps as it is; the
      model does not look inside the JSON text. */
  lemma EntriesRoundTrip(es: seq<TipEntry>)
    ensures LoadEntries(SaveEntries(es)) == es
  {
  }

  /** The same for expenses, again by construction of `SaveExpense`. */
  lemma ExpensesRoundTrip(xs: seq<Expense>)
    ensures LoadExpenses(SaveExpenses(xs)) == xs
  {
  }

  /** Once loaded, the shifts are stable: saving and loading them again
      changes nothing, whatever the stored amounts were. Like
      `EntriesRoundTrip`, it rests on the model's `SaveEntry`. */
  lemma LoadStable(ss: seq<StoredEntry>)
    ensures LoadEntries(SaveEntries(LoadEntries(ss))) == LoadEntries(ss)
  {
    EntriesRoundTrip(LoadEntries(ss));
  }
}
