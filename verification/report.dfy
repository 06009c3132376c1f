/** The figures the tracker shows: the four summary cards over all shifts,
    and the report over a date range, with its totals and its net per day
    in date order. Amounts are whole numbers; only the average per shift
    is a fraction. */
module Report {
  import opened Optional
  import opened Entries
  import Lex
  import Seqs
  import Sorting

  // ---------------------------------------------------------------- range

  /** A bound constrains only when it is present and not empty (a blank
      date input yields the empty string). */
  predicate Active(bound: Option<string>) {
    bound.Some? && bound.value != ""
  }

  /** `withinRange`: a date outside the range is one that sorts before an
      active start or after an active end. */
  predicate WithinRange(date: string, start: Option<string>, end: Option<string>) {
    !(Active(start) && Lex.Less(date, start.value)) && !(Active(end) && Lex.Less(end.value, date))
  }

  /** The range is inclusive at both ends, and a missing or blank bound
      lets every date through on its side. */
  lemma WithinRangeInclusive(date: string, start: Option<string>, end: Option<string>)
    ensures WithinRange(date, start, end) <==>
              (!Active(start) || Lex.LessEq(start.value, date))
              && (!Active(end) || Lex.LessEq(date, end.value))
  {
    if Active(start) {
      Lex.NotLess(date, start.value);
    }
    if Active(end) {
      Lex.NotLess(end.value, date);
    }
  }

  /** Both bounds are themselves inside a non-empty range. */
  lemma BoundsInside(start: string, end: string)
    requires Lex.LessEq(start, end)
    ensures WithinRange(start, Some(start), Some(end))
    ensures WithinRange(end, Some(start), Some(end))
  {
    WithinRangeInclusive(start, Some(start), Some(end));
    WithinRangeInclusive(end, Some(start), Some(end));
    Lex.Irreflexive(start);
    Lex.Irreflexive(end);
  }

  /** The shifts the report covers: those dated within the range, in their
      original order. */
  function InRange(es: seq<TipEntry>, start: Option<string>, end: Option<string>): (r: seq<TipEntry>)
    ensures forall e :: e in r <==> e in es && WithinRange(e.date, start, end)
    ensures forall e :: multiset(r)[e] == if WithinRange(e.date, start, end) then multiset(es)[e] else 0
    ensures Seqs.IsSubsequence(r, es)
    ensures !Active(start) && !Active(end) ==> r == es
  {
    Seqs.Filter(es, (e: TipEntry) => WithinRange(e.date, start, end))
  }

  // ---------------------------------------------------------------- sums

  function MadeSum(es: seq<TipEntry>): int {
    Seqs.SumOf(es, Made)
  }

  function TipOutSum(es: seq<TipEntry>): int {
    Seqs.SumOf(es, TipOut)
  }

  /** The sum of every shift's take-home pay. */
  function NetSum(es: seq<TipEntry>): int {
    Seqs.SumOf(es, Net)
  }

  /** Summing the take-home pay shift by shift gives the gross total less
      the tip-out total. */
  lemma {:induction false} NetIsDifference(es: seq<TipEntry>)
    ensures NetSum(es) == MadeSum(es) - TipOutSum(es)
    decreases |es|
  {
    if |es| > 0 {
      NetIsDifference(es[1..]);
    }
  }

  lemma NetSumSnoc(es: seq<TipEntry>, e: TipEntry)
    ensures NetSum(es + [e]) == NetSum(es) + Net(e)
  {
    Seqs.SumOfAppend(es, [e], Net);
  }

  /** The four summary cards. */
  datatype Summary = Summary(made: int, tipOut: int, net: int, average: real)

  /** `SummaryCards`: the totals over all shifts and the net per shift, 0
      when there are no shifts. */
  function Summarize(es: seq<TipEntry>): (s: Summary)
    ensures s.made == MadeSum(es) && s.tipOut == TipOutSum(es)
    ensures s.net == NetSum(es)
    ensures |es| == 0 ==> s.average == 0.0
    ensures |es| > 0 ==> s.average * (|es| as real) == s.net as real
  {
    NetIsDifference(es);
    var made := MadeSum(es);
    var tipOut := TipOutSum(es);
    var net := made - tipOut;
    Summary(made, tipOut, net, if |es| > 0 then net as real / |es| as real else 0.0)
  }

  /** The report's three totals. */
  datatype Totals = Totals(made: int, tipOut: int, net: int)

  /** The report totals; the net is summed shift by shift, yet it is the
      gross total less the tip-out total, as on the summary cards. */
  function ReportTotals(filtered: seq<TipEntry>): (t: Totals)
    ensures t.net == t.made - t.tipOut
    ensures t.made == Summarize(filtered).made && t.tipOut == Summarize(filtered).tipOut
    ensures t.net == Summarize(filtered).net
  {
    NetIsDifference(filtered);
    Totals(MadeSum(filtered), TipOutSum(filtered), NetSum(filtered))
  }

  // ---------------------------------------------------------------- per day

  /** One bar of the per-day chart. */
  datatype DayNet = DayNet(date: string, net: int)

  function DayDate(d: DayNet): string {
    d.date
  }

  function DayNetOf(d: DayNet): int {
    d.net
  }

  /** Whether a shift was worked on `date`. */
  function OnDate(date: string): TipEntry -> bool {
    (e: TipEntry) => e.date == date
  }

  /** The take-home pay of the shifts on `date`. */
  function DayTotal(es: seq<TipEntry>, date: string): int {
    NetSum(Seqs.Filter(es, OnDate(date)))
  }

  /** The dates that occur among the shifts. */
  function EntryDates(es: seq<TipEntry>): set<string> {
    set i | 0 <= i < |es| :: es[i].date
  }

  /** The dates of the chart's bars. */
  function DayDates(ds: seq<DayNet>): set<string> {
    set i | 0 <= i < |ds| :: ds[i].date
  }

  lemma DayTotalSnoc(es: seq<TipEntry>, e: TipEntry, date: string)
    ensures DayTotal(es + [e], date) == DayTotal(es, date) + if e.date == date then Net(e) else 0
  {
    var p := OnDate(date);
    Seqs.FilterAppend(es, [e], p);
    assert Seqs.Filter([e], p) == if e.date == date then [e] else [] by {
      assert [e][1..] == [];
    }
    Seqs.SumOfAppend(Seqs.Filter(es, p), Seqs.Filter([e], p), Net);
  }

  lemma DayTotalAbsent(es: seq<TipEntry>, date: string)
    requires date !in EntryDates(es)
    ensures DayTotal(es, date) == 0
  {
    assert forall i :: 0 <= i < |es| ==> es[i].date in EntryDates(es);
    Seqs.FilterNone(es, OnDate(date));
  }

  /** Where the bar for `date` is, or `-1`: `map.get(key)`. */
  function FindDay(ds: seq<DayNet>, date: string): (k: int)
    ensures -1 <= k < |ds|
    ensures k >= 0 ==> ds[k].date == date
    ensures k < 0 ==> date !in DayDates(ds)
    decreases |ds|
  {
    if |ds| == 0 then -1
    else if ds[|ds| - 1].date == date then |ds| - 1
    else
      var k := FindDay(ds[..|ds| - 1], date);
      assert DayDates(ds) == DayDates(ds[..|ds| - 1]) + {ds[|ds| - 1].date} by {
        assert forall i :: 0 <= i < |ds| - 1 ==> ds[..|ds| - 1][i] == ds[i];
      }
      k
  }

  /** The bars built so far are right for the shifts seen so far: one per
      date seen, each with that date's total, together summing to the
      total take-home pay. */
  predicate BarsFor(ds: seq<DayNet>, seen: seq<TipEntry>) {
    && Sorting.DistinctKeys(ds, DayDate)
    && DayDates(ds) == EntryDates(seen)
    && (forall k :: 0 <= k < |ds| ==> ds[k].net == DayTotal(seen, ds[k].date))
    && Seqs.SumOf(ds, DayNetOf) == NetSum(seen)
  }

  /** One step of the loop in `perDay`: add the shift's take-home pay to
      the bar for its date, opening the bar if the date is new. */
  function AddToDay(ds: seq<DayNet>, e: TipEntry): seq<DayNet> {
    var k := FindDay(ds, e.date);
    if k < 0 then ds + [DayNet(e.date, Net(e))]
    else ds[k := DayNet(e.date, ds[k].net + Net(e))]
  }

  lemma AddToDayKeeps(ds: seq<DayNet>, seen: seq<TipEntry>, e: TipEntry)
    requires BarsFor(ds, seen)
    ensures BarsFor(AddToDay(ds, e), seen + [e])
  {
    if FindDay(ds, e.date) < 0 {
      OpenDay(ds, seen, e);
    } else {
      GrowDay(ds, seen, e);
    }
  }

  /** What one more shift does to the dates seen and to the totals. */
  lemma SeenGrows(seen: seq<TipEntry>, e: TipEntry)
    ensures EntryDates(seen + [e]) == EntryDates(seen) + {e.date}
    ensures NetSum(seen + [e]) == NetSum(seen) + Net(e)
    ensures forall d :: DayTotal(seen + [e], d) == DayTotal(seen, d) + if e.date == d then Net(e) else 0
  {
    var seen' := seen + [e];
    assert forall i :: 0 <= i < |seen| ==> seen'[i] == seen[i];
    assert seen'[|seen|] == e;
    NetSumSnoc(seen, e);
    forall d: string
      ensures DayTotal(seen', d) == DayTotal(seen, d) + if e.date == d then Net(e) else 0
    {
      DayTotalSnoc(seen, e, d);
    }
  }

  /** A shift on a new date opens a bar at the end. */
  lemma OpenDay(ds: seq<DayNet>, seen: seq<TipEntry>, e: TipEntry)
    requires BarsFor(ds, seen) && FindDay(ds, e.date) < 0
    ensures BarsFor(AddToDay(ds, e), seen + [e])
  {
    var bar := DayNet(e.date, Net(e));
    assert AddToDay(ds, e) == ds + [bar];
    SeenGrows(seen, e);
    DayTotalAbsent(seen, e.date);
    OpenedBar(ds, bar);
    OpenedNets(ds, seen, e);
    Seqs.SumOfAppend(ds, [bar], DayNetOf);
  }

  lemma OpenedBar(ds: seq<DayNet>, bar: DayNet)
    requires Sorting.DistinctKeys(ds, DayDate) && bar.date !in DayDates(ds)
    ensures Sorting.DistinctKeys(ds + [bar], DayDate)
    ensures DayDates(ds + [bar]) == DayDates(ds) + {bar.date}
  {
    var ds' := ds + [bar];
    assert forall i :: 0 <= i < |ds| ==> ds'[i] == ds[i];
    assert ds'[|ds|] == bar;
    forall i, j | 0 <= i < j < |ds'|
      ensures DayDate(ds'[i]) != DayDate(ds'[j])
    {
      if j == |ds| {
        assert ds[i].date in DayDates(ds);
      }
    }
  }

  lemma OpenedNets(ds: seq<DayNet>, seen: seq<TipEntry>, e: TipEntry)
    requires forall k :: 0 <= k < |ds| ==> ds[k].net == DayTotal(seen, ds[k].date)
    requires e.date !in DayDates(ds) && DayTotal(seen, e.date) == 0
    requires forall d :: DayTotal(seen + [e], d) == DayTotal(seen, d) + if e.date == d then Net(e) else 0
    ensures var ds' := ds + [DayNet(e.date, Net(e))];
            forall k :: 0 <= k < |ds'| ==> ds'[k].net == DayTotal(seen + [e], ds'[k].date)
  {
    var ds' := ds + [DayNet(e.date, Net(e))];
    forall k | 0 <= k < |ds'|
      ensures ds'[k].net == DayTotal(seen + [e], ds'[k].date)
    {
      if k < |ds| {
        assert ds'[k] == ds[k];
        assert ds[k].date in DayDates(ds);
      }
    }
  }

  /** A shift on a date already seen adds to that date's bar. */
  lemma GrowDay(ds: seq<DayNet>, seen: seq<TipEntry>, e: TipEntry)
    requires BarsFor(ds, seen) && FindDay(ds, e.date) >= 0
    ensures BarsFor(AddToDay(ds, e), seen + [e])
  {
    var k := FindDay(ds, e.date);
    var bar := DayNet(e.date, ds[k].net + Net(e));
    AddToExisting(ds, e, k, bar);
    GrowBar(ds, seen, e, k, bar);
  }

  lemma AddToExisting(ds: seq<DayNet>, e: TipEntry, k: nat, bar: DayNet)
    requires k == FindDay(ds, e.date) && bar == DayNet(e.date, ds[k].net + Net(e))
    ensures AddToDay(ds, e) == ds[k := bar]
  {
  }

  lemma GrowBar(ds: seq<DayNet>, seen: seq<TipEntry>, e: TipEntry, k: nat, bar: DayNet)
    requires BarsFor(ds, seen) && k < |ds| && ds[k].date == e.date
    requires bar == DayNet(e.date, ds[k].net + Net(e))
    ensures BarsFor(ds[k := bar], seen + [e])
  {
    var ds', seen' := ds[k := bar], seen + [e];
    SeenGrows(seen, e);
    GrownBar(ds, k, bar);
    assert DayDates(ds') == EntryDates(seen');
    GrownNets(ds, seen, e, k);
    assert Seqs.SumOf(ds', DayNetOf) == NetSum(seen') by {
      Seqs.SumOfUpdate(ds, k, bar, DayNetOf);
    }
  }

  lemma GrownBar(ds: seq<DayNet>, k: nat, bar: DayNet)
    requires k < |ds| && ds[k].date == bar.date
    requires Sorting.DistinctKeys(ds, DayDate)
    ensures Sorting.DistinctKeys(ds[k := bar], DayDate)
    ensures DayDates(ds[k := bar]) == DayDates(ds)
    ensures bar.date in DayDates(ds)
  {
    var ds' := ds[k := bar];
    assert forall i :: 0 <= i < |ds| ==> ds'[i].date == ds[i].date;
    forall d | d in DayDates(ds)
      ensures d in DayDates(ds')
    {
      var i :| 0 <= i < |ds| && ds[i].date == d;
      assert ds'[i].date == d;
    }
  }

  lemma GrownNets(ds: seq<DayNet>, seen: seq<TipEntry>, e: TipEntry, k: nat)
    requires k < |ds| && ds[k].date == e.date
    requires Sorting.DistinctKeys(ds, DayDate)
    requires forall i :: 0 <= i < |ds| ==> ds[i].net == DayTotal(seen, ds[i].date)
    requires forall d :: DayTotal(seen + [e], d) == DayTotal(seen, d) + if e.date == d then Net(e) else 0
    ensures var ds' := ds[k := DayNet(e.date, ds[k].net + Net(e))];
            forall i :: 0 <= i < |ds'| ==> ds'[i].net == DayTotal(seen + [e], ds'[i].date)
  {
    var ds' := ds[k := DayNet(e.date, ds[k].net + Net(e))];
    forall i | 0 <= i < |ds'|
      ensures ds'[i].net == DayTotal(seen + [e], ds'[i].date)
    {
      if i != k {
        assert DayDate(ds[i]) != DayDate(ds[k]);
      }
    }
  }

  /** `perDay`: one bar per date among the shifts, in ascending date
      order, each holding the take-home pay of that date's shifts. */
  method PerDay(filtered: seq<TipEntry>) returns (days: seq<DayNet>)
    ensures Sorting.StrictlyAscending(days, DayDate)
    ensures DayDates(days) == EntryDates(filtered)
    ensures forall k :: 0 <= k < |days| ==> days[k].net == DayTotal(filtered, days[k].date)
    ensures Seqs.SumOf(days, DayNetOf) == NetSum(filtered)
  {
    var bars: seq<DayNet> := [];
    var i := 0;
    while i < |filtered|
      invariant 0 <= i <= |filtered|
      invariant BarsFor(bars, filtered[..i])
    {
      AddToDayKeeps(bars, filtered[..i], filtered[i]);
      assert filtered[..i + 1] == filtered[..i] + [filtered[i]];
      bars := AddToDay(bars, filtered[i]);
      i := i + 1;
    }
    assert filtered[..i] == filtered;
    days := Sorting.Sort(bars, DayDate);
    SortedBars(bars, days, filtered);
  }

  /** Sorting the bars keeps what `BarsFor` says about them and puts them
      in strictly ascending date order. */
  lemma SortedBars(bars: seq<DayNet>, days: seq<DayNet>, seen: seq<TipEntry>)
    requires BarsFor(bars, seen)
    requires days == Sorting.Sort(bars, DayDate)
    ensures Sorting.StrictlyAscending(days, DayDate)
    ensures DayDates(days) == EntryDates(seen)
    ensures forall k :: 0 <= k < |days| ==> days[k].net == DayTotal(seen, days[k].date)
    ensures Seqs.SumOf(days, DayNetOf) == NetSum(seen)
  {
    Sorting.SortSum(bars, DayDate, DayNetOf);
    SameBars(bars, days);
    forall k | 0 <= k < |days|
      ensures days[k].net == DayTotal(seen, days[k].date)
    {
      var i :| 0 <= i < |bars| && bars[i] == days[k];
    }
  }

  /** Two arrangements of the same bars show the same dates. */
  lemma SameBars(bars: seq<DayNet>, days: seq<DayNet>)
    requires multiset(days) == multiset(bars)
    ensures DayDates(days) == DayDates(bars)
    ensures forall k :: 0 <= k < |days| ==> exists i :: 0 <= i < |bars| && bars[i] == days[k]
  {
    forall k | 0 <= k < |days|
      ensures exists i :: 0 <= i < |bars| && bars[i] == days[k]
    {
      assert days[k] in multiset(bars);
    }
    forall d | d in DayDates(bars)
      ensures d in DayDates(days)
    {
      var i :| 0 <= i < |bars| && bars[i].date == d;
      assert bars[i] in multiset(days);
      var j :| 0 <= j < |days| && days[j] == bars[i];
    }
  }

  /** The report: the shifts in range, their totals and their bars in
      date order; the bars add up to the net total. */
  method RunReport(es: seq<TipEntry>, start: Option<string>, end: Option<string>)
    returns (filtered: seq<TipEntry>, totals: Totals, days: seq<DayNet>)
    ensures filtered == InRange(es, start, end)
    ensures forall e :: e in filtered <==> e in es && WithinRange(e.date, start, end)
    ensures Seqs.IsSubsequence(filtered, es)
    ensures totals.made == MadeSum(filtered) && totals.tipOut == TipOutSum(filtered)
    ensures totals.net == NetSum(filtered) && totals.net == totals.made - totals.tipOut
    ensures Sorting.StrictlyAscending(days, DayDate)
    ensures DayDates(days) == EntryDates(filtered)
    ensures forall k :: 0 <= k < |days| ==> days[k].net == DayTotal(filtered, days[k].date)
    ensures Seqs.SumOf(days, DayNetOf) == totals.net
  {
    filtered := InRange(es, start, end);
    totals := ReportTotals(filtered);
    days := PerDay(filtered);
  }
}
