/** The two entry forms: "Add Shift" turns the text of its fields into a
    shift, remembers and registers the restaurant, and puts the shift at
    the front of the list; "Add Expense" does the same for an expense. A
    form whose required fields are empty is ignored. The new record's id
    is supplied by the caller. */
module Forms {
  import opened Optional
  import opened Text
  import opened Numbers
  import opened Entries
  import RecordStore
  import Restaurants
  import Report

  /** The tracker's state as the forms change it: both record lists, the
      registered restaurant names and the last restaurant used. */
  datatype AppState = AppState(
    entries: seq<TipEntry>,
    expenses: seq<Expense>,
    restaurants: seq<string>,
    lastRestaurant: string)

  // ---------------------------------------------------------------- shifts

  /** The fields of the shift form, as typed. */
  datatype ShiftForm = ShiftForm(
    date: string,
    made: string,
    tipOut: string,
    hours: string,
    restaurant: string,
    notes: string)

  /** The shift the form describes: amounts read with `Number(x) || 0`,
      zero hours left out, the restaurant trimmed and left out when blank,
      the notes kept as typed. */
  function EntryFromForm(f: ShiftForm, id: string): (e: TipEntry)
    ensures e.id == id && e.date == f.date && e.notes == Some(f.notes)
    ensures e.made == NumberOrZero(f.made) && e.tipOut == NumberOrZero(f.tipOut)
    ensures e.hours.None? <==> NumberOrZero(f.hours) == 0
    ensures e.hours.Some? ==> e.hours.value == NumberOrZero(f.hours)
    ensures e.restaurant.None? <==> Blank(f.restaurant)
    ensures e.restaurant.Some? ==> e.restaurant.value == Trim(f.restaurant) && IsTrimmed(e.restaurant.value)
  {
    var hours := NumberOrZero(f.hours);
    var restaurant := Trim(f.restaurant);
    TipEntry(id, f.date, NumberOrZero(f.made), NumberOrZero(f.tipOut),
             if hours == 0 then None else Some(hours),
             if restaurant == "" then None else Some(restaurant),
             Some(f.notes))
  }

  /** The text a user types for an optional amount: nothing when absent. */
  function AmountText(h: Option<int>): string {
    match h
    case Some(v) => Show(v)
    case None => ""
  }

  /** The form a user fills in to record the shift `e`. */
  function FormOf(e: TipEntry): ShiftForm {
    ShiftForm(e.date, Show(e.made), Show(e.tipOut), AmountText(e.hours),
              e.restaurant.GetOr(""), e.notes.GetOr(""))
  }

  /** Hours typed from a shift read back as its hours. */
  lemma HoursRoundTrip(h: Option<int>)
    requires h != Some(0)
    ensures NumberOrZero(AmountText(h)) == 0 <==> h.None?
    ensures h.Some? ==> NumberOrZero(AmountText(h)) == h.value
  {
    if h.Some? {
      ShowParse(h.value);
    } else {
      assert Trim("") == "";
    }
  }

  /** A restaurant typed from a shift reads back as its restaurant. */
  lemma RestaurantRoundTrip(r: Option<string>)
    requires r.Some? ==> r.value != "" && IsTrimmed(r.value)
    ensures Blank(r.GetOr("")) <==> r.None?
    ensures r.Some? ==> Trim(r.GetOr("")) == r.value
  {
    if r.None? {
      assert Trim("") == "";
    }
  }

  /** Every shift the form can produce is produced from its own fields:
      filling the form in from a shift and submitting gives the shift. */
  lemma FormRoundTrip(e: TipEntry)
    requires e.hours != Some(0) && e.notes.Some?
    requires e.restaurant.Some? ==> e.restaurant.value != "" && IsTrimmed(e.restaurant.value)
    ensures EntryFromForm(FormOf(e), e.id) == e
  {
    var f := FormOf(e);
    var d := EntryFromForm(f, e.id);
    ShowParse(e.made);
    ShowParse(e.tipOut);
    HoursRoundTrip(e.hours);
    RestaurantRoundTrip(e.restaurant);
    assert d.hours == e.hours;
    assert d.restaurant == e.restaurant;
  }

  /** Pressing "Add Shift": nothing happens without a date; otherwise a
      non-blank restaurant becomes the last one used and is registered,
      and the new shift goes to the front of the list. */
  function SubmitShift(st: AppState, f: ShiftForm, id: string): (r: AppState)
    ensures f.date == "" ==> r == st
    ensures f.date != "" ==>
      && r.entries == RecordStore.Add(st.entries, EntryFromForm(f, id))
      && r.expenses == st.expenses
      && r.restaurants == Restaurants.SaveRestaurant(st.restaurants, f.restaurant)
      && (Blank(f.restaurant) ==> r.lastRestaurant == st.lastRestaurant)
      && (!Blank(f.restaurant) ==> r.lastRestaurant == Trim(f.restaurant))
  {
    if f.date == "" then st
    else
      var trimmed := Trim(f.restaurant);
      Restaurants.SaveTrimmed(st.restaurants, f.restaurant);
      var saved :=
        if trimmed != "" then
          st.(lastRestaurant := trimmed, restaurants := Restaurants.SaveRestaurant(st.restaurants, trimmed))
        else st;
      saved.(entries := RecordStore.Add(st.entries, EntryFromForm(f, id)))
  }

  /** A shift added under a fresh id and deleted again leaves the list of
      shifts as it was. */
  lemma SubmitThenDelete(st: AppState, f: ShiftForm, id: string)
    requires f.date != ""
    requires forall i :: 0 <= i < |st.entries| ==> st.entries[i].id != id
    ensures RecordStore.DeleteEntry(SubmitShift(st, f, id).entries, id) == st.entries
  {
    RecordStore.RemoveAdded(st.entries, EntryFromForm(f, id), EntryId);
  }

  /** After a shift naming a restaurant is added, the form offers that
      restaurant, trimmed. */
  lemma SubmittedOffered(st: AppState, f: ShiftForm, id: string)
    requires f.date != "" && !Blank(f.restaurant)
    ensures var r := SubmitShift(st, f, id);
            Trim(f.restaurant) in Restaurants.RestaurantOptions(r.entries, r.restaurants)
  {
  }

  /** Adding a shift raises the total net by what the form's amounts say
      it took home. */
  lemma SubmitNet(st: AppState, f: ShiftForm, id: string)
    requires f.date != ""
    ensures Report.NetSum(SubmitShift(st, f, id).entries)
            == Report.NetSum(st.entries) + NumberOrZero(f.made) - NumberOrZero(f.tipOut)
  {
    var es := SubmitShift(st, f, id).entries;
    assert es[1..] == st.entries;
  }

  // ---------------------------------------------------------------- expenses

  datatype ExpenseForm = ExpenseForm(date: string, amount: string, description: string)

  /** The expense the form describes, or nothing when the date is empty or
      the description blank. */
  function ExpenseFromForm(f: ExpenseForm, id: string): (r: Option<Expense>)
    ensures r.Some? <==> f.date != "" && !Blank(f.description)
    ensures r.Some? ==>
      && r.value.id == id && r.value.date == f.date
      && r.value.amount == NumberOrZero(f.amount)
      && r.value.description == Trim(f.description)
      && r.value.description != "" && IsTrimmed(r.value.description)
  {
    if f.date == "" || Trim(f.description) == "" then None
    else Some(Expense(id, f.date, NumberOrZero(f.amount), Trim(f.description)))
  }

  function ExpenseFormOf(x: Expense): ExpenseForm {
    ExpenseForm(x.date, Show(x.amount), x.description)
  }

  /** Every expense with a date and a trimmed, non-blank description comes
      back from the form filled in from it. */
  lemma ExpenseFormRoundTrip(x: Expense)
    requires x.date != "" && x.description != "" && IsTrimmed(x.description)
    ensures ExpenseFromForm(ExpenseFormOf(x), x.id) == Some(x)
  {
    ShowParse(x.amount);
  }

  /** Pressing "Add Expense". */
  function SubmitExpense(st: AppState, f: ExpenseForm, id: string): (r: AppState)
    ensures ExpenseFromForm(f, id).None? ==> r == st
    ensures ExpenseFromForm(f, id).Some? ==>
      && r.expenses == RecordStore.Add(st.expenses, ExpenseFromForm(f, id).value)
      && r.entries == st.entries && r.restaurants == st.restaurants
      && r.lastRestaurant == st.lastRestaurant
  {
    match ExpenseFromForm(f, id)
    case None => st
    case Some(x) => st.(expenses := RecordStore.Add(st.expenses, x))
  }
}
