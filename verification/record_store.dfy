/** The three ways the tracker changes a list of records, the same for
    shifts and for expenses: a new record goes to the front, saving an
    edit puts the draft in place of every record with the edited id (under
    that id), and deleting drops every record with the id. */
module RecordStore {
  import opened Entries
  import Seqs

  /** `[x, ...xs]`. */
  function Add<T>(xs: seq<T>, x: T): (r: seq<T>)
    ensures |r| == |xs| + 1 && r[0] == x
    ensures forall i :: 0 <= i < |xs| ==> r[i + 1] == xs[i]
  {
    [x] + xs
  }

  /** Whether a record's id differs from `id`. */
  function OtherId<T>(id: string, idOf: T -> string): T -> bool {
    (x: T) => idOf(x) != id
  }

  /** The list without the records whose id is `id`, the rest kept in
      order: the filter behind each delete button. */
  function Remove<T(==,!new)>(xs: seq<T>, id: string, idOf: T -> string): (r: seq<T>)
    ensures forall x :: x in r <==> x in xs && idOf(x) != id
    ensures forall x :: multiset(r)[x] == if idOf(x) != id then multiset(xs)[x] else 0
    ensures Seqs.IsSubsequence(r, xs)
    ensures (forall i :: 0 <= i < |xs| ==> idOf(xs[i]) != id) ==> r == xs
  {
    Seqs.Filter(xs, OtherId(id, idOf))
  }

  /** Every record whose id is `id` swapped for `draft`, every other kept
      in place: the map behind each save-edit button. The caller has
      already given `draft` the id `id`. */
  function Replace<T>(xs: seq<T>, id: string, draft: T, idOf: T -> string): (r: seq<T>)
    requires idOf(draft) == id
    ensures |r| == |xs|
    ensures forall i :: 0 <= i < |xs| ==> idOf(r[i]) == idOf(xs[i])
    ensures forall i :: 0 <= i < |xs| && idOf(xs[i]) != id ==> r[i] == xs[i]
    ensures forall i :: 0 <= i < |xs| && idOf(xs[i]) == id ==> r[i] == draft
  {
    seq(|xs|, i requires 0 <= i < |xs| => if idOf(xs[i]) == id then draft else xs[i])
  }

  /** A record added under a fresh id and deleted again leaves the list as
      it was. */
  lemma RemoveAdded<T(!new)>(xs: seq<T>, x: T, idOf: T -> string)
    requires forall i :: 0 <= i < |xs| ==> idOf(xs[i]) != idOf(x)
    ensures Remove(Add(xs, x), idOf(x), idOf) == xs
  {
    assert Add(xs, x)[1..] == xs;
  }

  /** Editing an id no record has changes nothing. */
  lemma ReplaceUnknown<T>(xs: seq<T>, id: string, draft: T, idOf: T -> string)
    requires idOf(draft) == id
    requires forall i :: 0 <= i < |xs| ==> idOf(xs[i]) != id
    ensures Replace(xs, id, draft, idOf) == xs
  {
  }

  /** Saving the same edit twice is saving it once. */
  lemma ReplaceIdempotent<T>(xs: seq<T>, id: string, draft: T, idOf: T -> string)
    requires idOf(draft) == id
    ensures Replace(Replace(xs, id, draft, idOf), id, draft, idOf) == Replace(xs, id, draft, idOf)
  {
  }

  /** Deleting after an edit of the same id is deleting alone. */
  lemma {:induction false} RemoveReplaced<T(!new)>(xs: seq<T>, id: string, draft: T, idOf: T -> string)
    requires idOf(draft) == id
    ensures Remove(Replace(xs, id, draft, idOf), id, idOf) == Remove(xs, id, idOf)
    decreases |xs|
  {
    if |xs| > 0 {
      var r := Replace(xs, id, draft, idOf);
      assert r[1..] == Replace(xs[1..], id, draft, idOf);
      RemoveReplaced(xs[1..], id, draft, idOf);
    }
  }

  // ---------------------------------------------------------------- shifts

  /** Saving an edited shift: the draft, under the edited id, replaces
      every shift with that id. */
  function SaveEntryEdit(entries: seq<TipEntry>, id: string, draft: TipEntry): (r: seq<TipEntry>)
    ensures |r| == |entries|
    ensures forall i :: 0 <= i < |r| ==> r[i].id == entries[i].id
    ensures forall i :: 0 <= i < |r| ==>
              r[i] == if entries[i].id == id then draft.(id := id) else entries[i]
  {
    Replace(entries, id, draft.(id := id), EntryId)
  }

  /** Deleting a shift: every shift with the id goes, the others stay in
      their order. */
  function DeleteEntry(entries: seq<TipEntry>, id: string): (r: seq<TipEntry>)
    ensures forall i :: 0 <= i < |r| ==> r[i].id != id
    ensures forall e :: e in entries && e.id != id ==> e in r
    ensures forall e :: multiset(r)[e] == if e.id != id then multiset(entries)[e] else 0
    ensures Seqs.IsSubsequence(r, entries)
    ensures (forall i :: 0 <= i < |entries| ==> entries[i].id != id) ==> r == entries
  {
    var r := Remove(entries, id, EntryId);
    assert forall i :: 0 <= i < |r| ==> r[i] in r;
    r
  }

  // ---------------------------------------------------------------- expenses

  /** Saving an edited expense, as for shifts. */
  function SaveExpenseEdit(expenses: seq<Expense>, id: string, draft: Expense): (r: seq<Expense>)
    ensures |r| == |expenses|
    ensures forall i :: 0 <= i < |r| ==> r[i].id == expenses[i].id
    ensures forall i :: 0 <= i < |r| ==>
              r[i] == if expenses[i].id == id then draft.(id := id) else expenses[i]
  {
    Replace(expenses, id, draft.(id := id), ExpenseId)
  }

  /** Deleting an expense, as for shifts. */
  function DeleteExpense(expenses: seq<Expense>, id: string): (r: seq<Expense>)
    ensures forall i :: 0 <= i < |r| ==> r[i].id != id
    ensures forall x :: x in expenses && x.id != id ==> x in r
    ensures forall x :: multiset(r)[x] == if x.id != id then multiset(expenses)[x] else 0
    ensures Seqs.IsSubsequence(r, expenses)
    ensures (forall i :: 0 <= i < |expenses| ==> expenses[i].id != id) ==> r == expenses
  {
    var r := Remove(expenses, id, ExpenseId);
    assert forall i :: 0 <= i < |r| ==> r[i] in r;
    r
  }
}
