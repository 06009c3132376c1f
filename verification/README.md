# Tip tracker: the data rules, in Dafny

The tip tracker is a single-page, browser-local app. It records work
shifts and expenses. A shift has a date, gross tips (`made`), a tip-out,
optional hours, an optional restaurant and optional notes. Everything it
does outside the UI lives in `app/components/TipTracker.tsx`, and this
project models the side-effect-free rules in that file:

- the CSV export (`toCSV`) and import (`fromCSV`), and what survives an
  export followed by an import;
- the report: the inclusive date-range filter (`withinRange`), the
  summary cards, the report totals and the net per day in date order
  (`perDay`);
- the record-list updates: add at the front, save an edit, delete;
- the restaurant registry (`saveRestaurant`, the start-up registration of
  the loaded shifts' restaurants, `restaurantOptions`);
- the two "Add" forms, the amount coercion applied when records are
  loaded, the column-header sort toggle (`setSort`) and the download file
  name.

Records are immutable datatypes (`Entries.TipEntry`, `Entries.Expense`).
Every operation is a pure function over sequences. State that the app
keeps in local storage is passed in and returned:

- the stored restaurant list is a `seq<string>`;
- the last restaurant used is a field of `Forms.AppState`.

Amounts are whole numbers. `Numbers.Show` and `Numbers.ParseNumber` stand
in for JavaScript's `String(n)` and `Number(text)`. `ParseNumber` accepts
an optional sign and decimal digits, ignores surrounding white space, and
reads blank text as 0; other numerals read as not a number. Ids come from the caller: `fromCSV`'s k-th shift
gets `ids(k)`, and a form takes the new record's id as a parameter.
Dates compare in lexicographic character order (`Lex.Less`).

Modules, in dependency order:

| module | file | what it holds |
|---|---|---|
| `Optional` | optional.dfy | `Option`, and `Values` (the present values of a sequence of options) |
| `Text` | text.dfy | `trim`, single-character `split`, `join`, `split(/\r?\n/)`, `toLowerCase`, `replaceAll("\n", " ")`, `endsWith` |
| `Lex` | lex.dfy | string order, a strict total order |
| `Seqs` | seqs.dfy | filter, sum, de-duplication, subsequence |
| `Sorting` | sorting.dfy | insertion sort on a key, and uniqueness of strictly ascending sequences |
| `Numbers` | numbers.dfy | `Show` and `ParseNumber` |
| `Entries` | entries.dfy | shifts and expenses |
| `Csv` | csv.dfy | `toCSV` and `fromCSV` |
| `CsvRoundTrip` | csv_roundtrip.dfy | import of an export |
| `Report` | report.dfy | range filter, summary, totals, per-day bars |
| `RecordStore` | record_store.dfy | add, save edit, delete |
| `Restaurants` | restaurants.dfy | registry and form options |
| `Storage` | storage.dfy | load-time coercion |
| `TableSort` | table_sort.dfy | `setSort` |
| `Download` | download.dfy | download file name |
| `Forms` | forms.dfy | the "Add Shift" and "Add Expense" buttons |

In two places the code does something other than one might expect, and
the model follows the code:

- **Trimmed text on import.** One might expect an import of an export to
  give back `date`, `made`, `tipOut`, `restaurant` and `notes` exactly.
  The code trims the restaurant and the notes cells on import
  (lines 145-146). The export turns line feeds in the notes into spaces
  (line 121). Neither side quotes commas. `CsvRoundTrip.RoundTrip`
  therefore proves the round trip only for shifts whose text fields are
  free of commas (and, for date and restaurant, of line feeds), and
  whose date is non-empty and already trimmed (`CsvRoundTrip.CsvSafe`). It gives
  back the shift as `CsvRoundTrip.Reimported` describes it: text fields
  trimmed, line feeds in the notes turned into spaces, zero hours
  dropped, and a fresh id.
- **Delete and edit act on every matching record.** One might expect a
  delete to remove only the first record with the id. The code filters out every
  record with that id (lines 447 and 625). Saving an edit replaces every
  record with the id (lines 412 and 590).

## Model

| member | source | states |
|---|---|---|
| Csv.IndexOf | app/components/TipTracker.tsx:129-136 | `indexOf`: -1 exactly when the name is absent; otherwise the position holds the name and no earlier position does |
| Csv.IndexOfDistinct | app/components/TipTracker.tsx:129-136 | in a header without repeated names, each name is found at its own position |
| Csv.LocateColumns | app/components/TipTracker.tsx:128-136 | each field's column is the first header cell whose trimmed, lower-cased text is the field's name, wherever it stands, or -1 when no cell carries it |
| Csv.HeaderKeys | app/components/TipTracker.tsx:128 | one key per comma-separated header cell, each the cell trimmed and then lower-cased, so as long as the trimmed cell and without upper-case ASCII letters |
| CsvRoundTrip.HeaderKeysStandard | app/components/TipTracker.tsx:120-128 | the export's own header reads back as the six lower-case field names, in order |
| Csv.LowercaseMatches | app/components/TipTracker.tsx:128 | lower-casing a text gives a lower-case name exactly when the text spells that name with any of its letters in upper case |
| Csv.HeaderCellMatches | app/components/TipTracker.tsx:128 | a header cell's key is a given lower-case field name exactly when the trimmed cell spells the name up to case |
| Csv.FoundUpToCase | app/components/TipTracker.tsx:128-136 | a field's column is the first header cell that, trimmed, spells the field's name up to case, and -1 exactly when no cell does |
| Csv.CapitalHeaderFound | app/components/TipTracker.tsx:128-130 | the header ` DATE ` puts the date at column 0 |
| Text.TrimPadded | app/components/TipTracker.tsx:128 | trimming a trimmed, non-empty text padded with white space on both sides gives back the text |
| Csv.AmountAt | app/components/TipTracker.tsx:142-144 | a missing cell or a cell that is not a numeral reads as 0; otherwise the numeral's value |
| Csv.TextAt | app/components/TipTracker.tsx:140-146 | a text cell present in the row is read as that cell trimmed; a cell the row lacks (or a column the header lacks) is read as empty |
| Csv.DecodeCells | app/components/TipTracker.tsx:139-147 | a data row is skipped exactly when its date cell is missing or blank after trimming; a kept row gives the trimmed date, amounts defaulted to 0, hours absent exactly when they read 0, the restaurant trimmed and absent exactly when empty, and the trimmed notes (possibly empty) |
| Csv.DecodeRows | app/components/TipTracker.tsx:137-149 | one shift per data row with a non-blank date and none for the others: the shift from the i-th dated row sits at the position given by the number of dated rows before it, and is exactly what that row decodes to; every shift is normalized; no `date` column gives no shifts |
| Csv.DecodeRowsAllDated | app/components/TipTracker.tsx:138-148 | when every data row has a date, none is skipped and the shifts come out in row order |
| Csv.NumberShifts | app/components/TipTracker.tsx:147 | the k-th imported shift gets id `ids(k)` and is otherwise unchanged |
| Csv.ToCsv | app/components/TipTracker.tsx:119-124 | the export starts with the header line; no shifts give exactly the header line; otherwise a line feed follows it |
| CsvRoundTrip.RowSplits | app/components/TipTracker.tsx:121-122 | a safe shift's row is a single line that splits at its commas into exactly the six cells written for it |
| CsvRoundTrip.ExportSplits | app/components/TipTracker.tsx:119-124 | the export of safe shifts splits at its line feeds into the header line followed by each shift's row, in order |
| Text.Lines | app/components/TipTracker.tsx:127 | at least one line, none containing a line feed |
| Text.LinesOfJoin | app/components/TipTracker.tsx:127 | lines joined by line feeds split back into the same lines, every one but the last without a trailing carriage return |
| Text.Lowercase | app/components/TipTracker.tsx:128 | same length; each upper-case ASCII letter becomes its lower-case letter (code plus 32), every other character is unchanged |
| Numbers.ParseNumber | app/components/TipTracker.tsx:142-144 | a number exactly for blank text (read as 0) and for decimal digits after an optional sign; the value is the digits' decimal value, negated after a minus sign; a negative result comes only from a leading minus |
| Numbers.PlusSignRead | app/components/TipTracker.tsx:142-144 | the cell ` +5` reads as 5 |
| Csv.FromCsv | app/components/TipTracker.tsx:126-150 | the import holds one shift per dated line after the header, in line order, each the line decoded against the header's columns and given the fresh id of its position; with distinct fresh ids no two share an id; a header without `date` gives nothing; never more shifts than lines after the header |
| CsvRoundTrip.StandardHeader | app/components/TipTracker.tsx:120-136 | the exported header, read back, puts the six fields at columns 0 to 5 |
| CsvRoundTrip.RowDecodes | app/components/TipTracker.tsx:139-147 | a safe shift's row, even with white space cut from its end, decodes to the shift as reimported |
| CsvRoundTrip.ExportLines | app/components/TipTracker.tsx:122-127 | the trimmed export of safe shifts splits into the header line and one line per shift; every line but the last is its shift's row with one trailing carriage return dropped; the last line is the last shift's row with the white space trailing its notes cut; every line keeps all of its row's commas |
| CsvRoundTrip.RoundTrip | app/components/TipTracker.tsx:119-150 | importing an export of shifts that are safe for the unquoted format gives back as many shifts, in the same order, each as `Reimported` says, the k-th with id `ids(k)` |
| Numbers.ShowParse | app/components/TipTracker.tsx:142-144 | a whole amount written as text (`String(n)`) reads back (`Number(...)`, falling back to 0) as the same amount |
| Report.WithinRangeInclusive | app/components/TipTracker.tsx:112-116 | a date is within range exactly when it is at or after an active start and at or before an active end; an absent or empty bound does not constrain |
| Report.BoundsInside | app/components/TipTracker.tsx:112-116 | both bounds of a non-empty range lie within it |
| Report.InRange | app/components/TipTracker.tsx:677 | the report's shifts are exactly the shifts dated within the range, each as many times as in the input, kept in their original order; with no active bound, all shifts |
| Report.NetIsDifference | app/components/TipTracker.tsx:650-652 | summing take-home pay shift by shift equals the gross total less the tip-out total |
| Report.Summarize | app/components/TipTracker.tsx:649-653 | the cards show the gross and tip-out totals, their difference as the net, and an average that times the number of shifts is the net, 0 when there are none |
| Report.ReportTotals | app/components/TipTracker.tsx:678-685 | the report's net, summed shift by shift, is its gross total less its tip-out total, and all three agree with the summary over the same shifts |
| Report.DayTotalSnoc | app/components/TipTracker.tsx:689-693 | one more shift adds its take-home pay to its own date's total and to no other |
| Report.AddToDayKeeps | app/components/TipTracker.tsx:689-694 | one loop step keeps the bars one per date, covering exactly the shifts' dates, each holding its date's total, and adding up to the net total |
| Report.PerDay | app/components/TipTracker.tsx:687-696 | the bars' dates are distinct and strictly ascending and are exactly the shifts' dates; each bar's net is the take-home pay of that date's shifts; the bars add up to the net total |
| Report.RunReport | app/components/TipTracker.tsx:677-696 | the whole report: its shifts are the range filter of the input; its gross, tip-out and net totals are the sums over those shifts, net being gross less tip-out; its bars are strictly ascending by date, cover exactly those shifts' dates, each holds its date's take-home total, and together add up to the net total |
| Sorting.Sort | app/components/TipTracker.tsx:695 | the sorted list is a permutation of its input, and strictly ascending when the keys are distinct |
| Sorting.AscendingUnique | app/components/TipTracker.tsx:173 | two strictly ascending lists with the same members are equal, so a sorted de-duplicated list depends only on the set of its members |
| RecordStore.Add | app/components/TipTracker.tsx:877 | the new record is at index 0 and the others follow, unchanged and in order |
| RecordStore.Remove | app/components/TipTracker.tsx:447 | exactly the records with another id remain, each as many times as before, in their order; an unknown id leaves the list as it was |
| RecordStore.Replace | app/components/TipTracker.tsx:412 | same length and ids; every record with the id becomes the draft, every other stays |
| RecordStore.RemoveAdded | app/components/TipTracker.tsx:447 | deleting a record just added under a fresh id restores the list |
| RecordStore.ReplaceUnknown | app/components/TipTracker.tsx:412 | editing an id no record carries changes nothing |
| RecordStore.ReplaceIdempotent | app/components/TipTracker.tsx:412 | saving the same edit twice is saving it once |
| RecordStore.RemoveReplaced | app/components/TipTracker.tsx:412 | deleting after an edit of the same id is the same as deleting alone |
| RecordStore.SaveEntryEdit | app/components/TipTracker.tsx:412 | each shift with the edited id becomes the draft under that id; the others, and every id, stay |
| RecordStore.DeleteEntry | app/components/TipTracker.tsx:447 | no shift with the id remains; every other shift remains as many times as before, in order; an unknown id changes nothing |
| RecordStore.SaveExpenseEdit | app/components/TipTracker.tsx:590 | as `SaveEntryEdit`, for expenses |
| RecordStore.DeleteExpense | app/components/TipTracker.tsx:625 | no expense with the id remains; every other expense remains as many times as before, in order; an unknown id changes nothing |
| Restaurants.SaveRestaurant | app/components/TipTracker.tsx:48-58 | a blank name changes nothing; a non-blank name whose trimmed form is already stored changes nothing; otherwise the list becomes the old list with the trimmed name appended |
| Restaurants.SaveIdempotent | app/components/TipTracker.tsx:48-58 | saving a name twice is saving it once |
| Restaurants.SaveTrimmed | app/components/TipTracker.tsx:240-244 | saving the trimmed name (as the form does) equals saving the name as typed |
| Restaurants.RegisterLoaded | app/components/TipTracker.tsx:768-776 | after start-up the stored list extends the old one, contains exactly the old names and the trimmed restaurants of the loaded shifts, and stays free of repeats |
| Restaurants.EntryRestaurants | app/components/TipTracker.tsx:169-171 | exactly the shifts' non-blank restaurant names, as written |
| Seqs.Dedup | app/components/TipTracker.tsx:173 | the de-duplicated list has exactly the input's members and no repeats |
| Restaurants.RestaurantOptions | app/components/TipTracker.tsx:168-175 | the options are strictly ascending (so without repeats) and are exactly the shifts' non-blank restaurants and the stored names |
| Restaurants.OptionsOrderFree | app/components/TipTracker.tsx:172-173 | the options depend only on which names are stored, not on their order or repeats |
| Restaurants.RegisteredOffered | app/components/TipTracker.tsx:768-776 | after start-up registration, every loaded shift's restaurant is offered trimmed |
| Storage.Coerce | app/components/TipTracker.tsx:65 | `Number(v)`, falling back to 0, on a parsed JSON value: numbers kept, a numeral text read, missing/null/false give 0, true gives 1 |
| Storage.LoadEntry | app/components/TipTracker.tsx:65 | a loaded shift keeps every field and has its two amounts coerced |
| Storage.LoadExpense | app/components/TipTracker.tsx:80 | a loaded expense keeps every field and has its amount coerced |
| Storage.LoadEntries | app/components/TipTracker.tsx:65 | one shift per stored record, in stored order, each loaded as `LoadEntry` describes |
| Storage.LoadExpenses | app/components/TipTracker.tsx:80 | one expense per stored record, in stored order, each loaded as `LoadExpense` describes |
| Storage.EntriesRoundTrip | app/components/TipTracker.tsx:60-73 | saving the shifts and loading them gives them back |
| Storage.ExpensesRoundTrip | app/components/TipTracker.tsx:75-88 | saving the expenses and loading them gives them back |
| Storage.LoadStable | app/components/TipTracker.tsx:60-73 | once loaded, shifts are unchanged by another save and load |
| TableSort.SetSort | app/components/TipTracker.tsx:293-300 | the clicked column becomes the sort column; clicking the current column reverses the direction; a new column starts descending exactly when it is the date |
| TableSort.ToggleTwice | app/components/TipTracker.tsx:293-296 | two clicks on the sorted column restore the state |
| TableSort.ClickThenToggle | app/components/TipTracker.tsx:293-300 | a second click on a column reverses the direction the first click chose |
| Download.DownloadName | app/components/TipTracker.tsx:795 | a typed name that already ends in `.csv` is used as typed; any other gets `.csv` appended, so the result is the typed name followed by `.csv` |
| Download.DownloadNameIdempotent | app/components/TipTracker.tsx:795 | naming a download twice is naming it once |
| Download.AnnouncedName | app/components/TipTracker.tsx:843 | the dialog announces the typed name followed by `.csv`, or `tips.csv` when the name field is empty |
| Download.EmptyNameMismatch | app/components/TipTracker.tsx:795 | with the name field empty, the file is saved as `.csv` while the dialog announces `tips.csv` |
| Download.IntendedDownloadName | app/components/TipTracker.tsx:795 | with the dialog's fallback applied, the name ends in `.csv` and is never the bare `.csv` unless that was typed |
| Download.IntendedKeepsPromise | app/components/TipTracker.tsx:843 | the corrected name is the announced one whenever the typed name lacks `.csv`, and agrees with the handler on every non-empty name |
| Forms.EntryFromForm | app/components/TipTracker.tsx:247 | the new shift: amounts read with `Number(x)`, falling back to 0, hours absent exactly when they read 0, the restaurant trimmed and absent exactly when blank, notes kept as typed |
| Forms.FormRoundTrip | app/components/TipTracker.tsx:247 | a shift the form can produce (hours not 0, notes present, restaurant absent or trimmed and non-empty), typed into the form from its own fields, comes out as the same shift |
| Forms.SubmitShift | app/components/TipTracker.tsx:238-247 | without a date nothing changes; otherwise the new shift goes to the front, the expenses stay, a non-blank restaurant is registered and remembered as the last one used |
| Forms.SubmitThenDelete | app/components/TipTracker.tsx:877 | a shift added under a fresh id and then deleted leaves the shift list as it was |
| Forms.SubmittedOffered | app/components/TipTracker.tsx:168-175 | after a shift naming a restaurant is added, the form offers that restaurant, trimmed |
| Forms.SubmitNet | app/components/TipTracker.tsx:247 | adding a shift raises the total net by the form's gross less its tip-out |
| Forms.ExpenseFromForm | app/components/TipTracker.tsx:509-510 | an expense is made exactly when the date is set and the description is not blank; it has the amount read with `Number(x)`, falling back to 0 and the description trimmed |
| Forms.ExpenseFormRoundTrip | app/components/TipTracker.tsx:509-510 | an expense the form can produce (date non-empty, description trimmed and non-empty), typed into the form from its own fields, comes out as the same expense |
| Forms.SubmitExpense | app/components/TipTracker.tsx:509-510 | an incomplete form changes nothing; otherwise the new expense goes to the front and nothing else changes |

## Left out

- Local storage and JSON. Reading, parsing and writing local storage (`getRestaurants`, `loadEntries`, `saveEntries`, `loadExpenses`, `saveExpenses`, lines 38-88) are browser I/O and a foreign parser. The model starts from the parsed records (`Storage.StoredEntry`) and from the stored restaurant list as a sequence. Failures that the code swallows are not modelled.
- `uid()` (lines 94-96) draws on `Math.random`. Ids are parameters instead.
- `monthStart` and `monthEnd` (lines 98-110) and the "Last Month" button depend on the clock and the time zone. The report takes its bounds as parameters.
- `formatUSD` (lines 90-92) is locale-dependent display only.
- The Blob and object-URL download (lines 790-800) is browser I/O. Only the file name is modelled.
- The row comparator of the shift table (lines 280-291) compares values of mixed types, `undefined` among them. Only the header toggle `setSort` is modelled.
- The expense list's display order (line 529, newest date first by `localeCompare`) is not modelled. It reorders expenses for display only, its keys repeat, and no stored state depends on it.
- React state, effects, the chart, and the UI components under components/ui are not part of this model. That includes resetting the form fields after a submit, and the inline-edit draft state.
- Numbers.ParseNumber: amounts are whole numbers. JavaScript's `Number()` also reads decimals, exponents, hexadecimal and `Infinity`; the model reads those as not a number, so such an amount reads as 0. Floating-point arithmetic is not modelled, so sums are exact.
- Storage.Coerce: JSON arrays and objects are not among the modelled values. An amount that `JSON.parse` gives back as one of them is outside the model.
- Text.Lowercase changes only the ASCII letters. `toLowerCase` also lower-cases other scripts. The difference matters only for header cells that are not one of the six column names.
- Sorting.Sort: string order is by character code (`Lex.Less`). JavaScript's default `sort()` compares UTF-16 code units, and `perDay` uses `localeCompare`. These agree on fixed-width `YYYY-MM-DD` dates, which the date inputs produce. They can differ on other text: an imported date such as `feb 3` against `Jan 5` sorts the other way under locale collation, as can non-ASCII restaurant names, and characters outside the Basic Multilingual Plane order differently by code point than by UTF-16 unit.
- Seqs.Dedup: does not state that the first occurrences keep their order, since the options are sorted right after de-duplication and `Sorting.AscendingUnique` makes the order irrelevant.
- Report.Summarize: the average is an exact `real` quotient, not a rounded floating-point number.

## Findings

| source | as written | input that shows it | evidently intended | confidence | as-written member | corrected member |
|---|---|---|---|---|---|---|
| app/components/TipTracker.tsx:795 | the download name is the typed name with `.csv` appended unless it already ends so; an empty name gives `.csv`, while the dialog (line 843) announces the typed name, or `tips` when empty, followed by `.csv` | the name field cleared, `fileName == ""` | the file is saved under the announced name, `tips.csv` | not executed | Download.EmptyNameMismatch | Download.IntendedDownloadName |
