/** The tracker's two record types, as the browser keeps them in memory
    and in local storage: a worked shift (`TipEntry`) and an expense. */
module Entries {
  import opened Optional

  /** One shift. `date` is `YYYY-MM-DD`; `made` is the gross tips and
      `tipOut` what was passed on to other staff; `hours`, `restaurant` and
      `notes` may be absent. */
  datatype TipEntry = TipEntry(
    id: string,
    date: string,
    made: int,
    tipOut: int,
    hours: Option<int>,
    restaurant: Option<string>,
    notes: Option<string>)

  datatype Expense = Expense(id: string, date: string, amount: int, description: string)

  /** What the shift took home, never stored. */
  function Net(e: TipEntry): int {
    e.made - e.tipOut
  }

  function Made(e: TipEntry): int {
    e.made
  }

  function TipOut(e: TipEntry): int {
    e.tipOut
  }

  function EntryId(e: TipEntry): string {
    e.id
  }

  function ExpenseId(x: Expense): string {
    x.id
  }
}
