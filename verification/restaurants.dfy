/** The restaurant registry: the list of names kept in local storage
    (`saveRestaurant`), filled again from the loaded shifts at start-up,
    and the options the shift form offers (`restaurantOptions`). */
module Restaurants {
  import opened Optional
  import opened Text
  import opened Entries
  import Seqs
  import Sorting

  /** `saveRestaurant(name)` on the stored list: a blank name changes
      nothing; otherwise the trimmed name is appended unless it is there. */
  function SaveRestaurant(stored: seq<string>, name: string): (r: seq<string>)
    ensures Blank(name) ==> r == stored
    ensures !Blank(name) ==> Trim(name) in r
    ensures !Blank(name) && Trim(name) in stored ==> r == stored
    ensures !Blank(name) && Trim(name) !in stored ==> r == stored + [Trim(name)]
    ensures forall x :: x in r <==> x in stored || (!Blank(name) && x == Trim(name))
    ensures stored <= r && |r| <= |stored| + 1
    ensures Seqs.NoDuplicates(stored) ==> Seqs.NoDuplicates(r)
  {
    if Blank(name) then stored
    else
      var t := Trim(name);
      if t in stored then stored else stored + [t]
  }

  /** Saving a name a second time changes nothing. */
  lemma SaveIdempotent(stored: seq<string>, name: string)
    ensures SaveRestaurant(SaveRestaurant(stored, name), name) == SaveRestaurant(stored, name)
  {
  }

  /** Saving a name and saving its trimmed form are the same. */
  lemma SaveTrimmed(stored: seq<string>, name: string)
    ensures SaveRestaurant(stored, Trim(name)) == SaveRestaurant(stored, name)
  {
    var t := Trim(name);
    assert Trim(t) == t;
    var saved := if t in stored then stored else stored + [t];
    if t == "" {
      assert SaveRestaurant(stored, t) == stored;
      assert SaveRestaurant(stored, name) == stored;
    } else {
      assert SaveRestaurant(stored, t) == saved;
      assert SaveRestaurant(stored, name) == saved;
    }
  }

  /** The restaurant of a shift, when the shift names one (`if
      (entry.restaurant)`: present and not the empty text). */
  function Named(e: TipEntry): Option<string> {
    if e.restaurant.Some? && e.restaurant.value != "" then e.restaurant else None
  }

  /** The start-up pass over the loaded shifts: every named restaurant is
      saved, in the order of the shifts. */
  function RegisterLoaded(stored: seq<string>, es: seq<TipEntry>): (r: seq<string>)
    ensures stored <= r
    ensures forall x :: x in r <==> x in stored || x in RegisteredNames(es)
    ensures Seqs.NoDuplicates(stored) ==> Seqs.NoDuplicates(r)
    decreases |es|
  {
    if |es| == 0 then stored
    else
      var before := RegisterLoaded(stored, es[..|es| - 1]);
      var e := es[|es| - 1];
      RegisteredSnoc(es);
      if Named(e).Some? then SaveRestaurant(before, Named(e).value) else before
  }

  /** The trimmed, non-blank restaurants of the shifts: what the start-up
      pass registers. */
  function RegisteredNames(es: seq<TipEntry>): set<string> {
    set i | 0 <= i < |es| && Named(es[i]).Some? && !Blank(Named(es[i]).value) :: Trim(Named(es[i]).value)
  }

  lemma RegisteredSnoc(es: seq<TipEntry>)
    requires |es| > 0
    ensures var e := es[|es| - 1];
            forall x :: x in RegisteredNames(es) <==>
              x in RegisteredNames(es[..|es| - 1])
              || (Named(e).Some? && !Blank(Named(e).value) && x == Trim(Named(e).value))
  {
    var init := es[..|es| - 1];
    forall x
      ensures x in RegisteredNames(es) ==>
                (|| x in RegisteredNames(init)
                 || (Named(es[|es| - 1]).Some? && !Blank(Named(es[|es| - 1]).value)
                     && x == Trim(Named(es[|es| - 1]).value)))
    {
      if x in RegisteredNames(es) {
        var i :| 0 <= i < |es| && Named(es[i]).Some? && !Blank(Named(es[i]).value)
                 && x == Trim(Named(es[i]).value);
        if i < |es| - 1 {
          assert init[i] == es[i];
        }
      }
    }
    forall x | x in RegisteredNames(init)
      ensures x in RegisteredNames(es)
    {
      var i :| 0 <= i < |init| && Named(init[i]).Some? && !Blank(Named(init[i]).value)
               && x == Trim(Named(init[i]).value);
      assert es[i] == init[i];
    }
  }

  // ---------------------------------------------------------------- options

  /** The restaurants the shifts name, as written (untrimmed), in shift
      order, with absent, empty and all-blank names dropped. */
  function EntryRestaurants(es: seq<TipEntry>): (names: seq<string>)
    ensures forall x :: x in names <==> x in EntryNames(es)
    decreases |es|
  {
    if |es| == 0 then []
    else
      var rest := EntryRestaurants(es[1..]);
      EntryNamesCons(es);
      var r := es[0].restaurant;
      if r.Some? && !Blank(r.value) then [r.value] + rest else rest
  }

  /** The non-blank restaurant names the shifts carry, as written. */
  function EntryNames(es: seq<TipEntry>): set<string> {
    set i | 0 <= i < |es| && es[i].restaurant.Some? && !Blank(es[i].restaurant.value) :: es[i].restaurant.value
  }

  lemma EntryNamesCons(es: seq<TipEntry>)
    requires |es| > 0
    ensures forall x :: x in EntryNames(es) <==>
              x in EntryNames(es[1..])
              || (es[0].restaurant.Some? && !Blank(es[0].restaurant.value) && x == es[0].restaurant.value)
  {
    var tail := es[1..];
    forall x
      ensures x in EntryNames(es) ==>
                (|| x in EntryNames(tail)
                 || (es[0].restaurant.Some? && !Blank(es[0].restaurant.value) && x == es[0].restaurant.value))
    {
      if x in EntryNames(es) {
        var i :| 0 <= i < |es| && es[i].restaurant.Some? && !Blank(es[i].restaurant.value)
                 && x == es[i].restaurant.value;
        if i > 0 {
          assert tail[i - 1] == es[i];
        }
      }
    }
    forall x | x in EntryNames(tail)
      ensures x in EntryNames(es)
    {
      var i :| 0 <= i < |tail| && tail[i].restaurant.Some? && !Blank(tail[i].restaurant.value)
               && x == tail[i].restaurant.value;
      assert es[i + 1] == tail[i];
    }
  }

  /** Names sort by themselves. */
  function Name(s: string): string {
    s
  }

  /** `restaurantOptions`: the names the shifts carry and the stored
      names, each once, in ascending order. */
  function RestaurantOptions(es: seq<TipEntry>, stored: seq<string>): (r: seq<string>)
    ensures Sorting.StrictlyAscending(r, Name)
    ensures forall x :: x in r <==> x in EntryNames(es) || x in stored
  {
    var named := EntryRestaurants(es);
    var all := Seqs.Dedup(named + stored);
    assert Sorting.DistinctKeys(all, Name);
    var r := Sorting.Sort(all, Name);
    assert forall x :: x in r <==> x in multiset(r);
    assert forall x :: x in all <==> x in named || x in stored;
    r
  }

  /** The options depend on which names are stored, not on their order or
      repeats. */
  lemma OptionsOrderFree(es: seq<TipEntry>, s1: seq<string>, s2: seq<string>)
    requires forall x :: x in s1 <==> x in s2
    ensures RestaurantOptions(es, s1) == RestaurantOptions(es, s2)
  {
    Sorting.AscendingUnique(RestaurantOptions(es, s1), RestaurantOptions(es, s2), Name);
  }

  /** Once the loaded shifts are registered, every restaurant they name is
      offered in its trimmed form. */
  lemma RegisteredOffered(es: seq<TipEntry>, stored: seq<string>, i: nat)
    requires i < |es| && es[i].restaurant.Some? && !Blank(es[i].restaurant.value)
    ensures Trim(es[i].restaurant.value) in RestaurantOptions(es, RegisterLoaded(stored, es))
  {
    assert Trim(Named(es[i]).value) in RegisteredNames(es);
  }
}
