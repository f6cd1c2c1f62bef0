/**
 * The saved-city collection and the bookkeeping the view model does on every emission of
 * the store: delete by id, insert-or-replace, lookup in the visible list, the stable sort by
 * recency, eviction at `MAX_ITEM_COUNT` and the country suffix for duplicate names.
 */
module CityStore {
  import opened Wrappers
  import opened Weather
  import opened Text

  /** The bound on saved cities; eviction fires when an emission holds exactly this many. */
  const MAX_ITEM_COUNT: nat := 20

  /** At most one item per city id. */
  ghost predicate UniqueIds(s: seq<WeatherItem>)
  {
    forall i, j :: 0 <= i < j < |s| ==> s[i].cityId != s[j].cityId
  }

  /** Some item of `s` has id `id`. */
  predicate HasId(s: seq<WeatherItem>, id: int)
  {
    exists i :: 0 <= i < |s| && s[i].cityId == id
  }

  /** Deleting by id: every item with that id goes, the others keep their order. */
  function RemoveId(s: seq<WeatherItem>, id: int): (r: seq<WeatherItem>)
    ensures forall x :: x in r <==> x in s && x.cityId != id
    ensures |r| <= |s|
  {
    if s == [] then []
    else
      var rest := RemoveId(s[1..], id);
      if s[0].cityId == id then rest else [s[0]] + rest
  }

  /** After deleting an id no item has it. */
  lemma RemovedIdIsGone(s: seq<WeatherItem>, id: int)
    ensures !HasId(RemoveId(s, id), id)
  {
    var r := RemoveId(s, id);
    forall i | 0 <= i < |r| ensures r[i].cityId != id { assert r[i] in r; }
  }

  /** Deleting an id that is absent changes nothing. */
  lemma {:induction false} RemoveAbsentId(s: seq<WeatherItem>, id: int)
    requires !HasId(s, id)
    ensures RemoveId(s, id) == s
  {
    if s != [] {
      assert !HasId(s[1..], id) by {
        forall i | 0 <= i < |s[1..]| ensures s[1..][i].cityId != id { assert s[1..][i] == s[i + 1]; }
      }
      RemoveAbsentId(s[1..], id);
      assert s == [s[0]] + s[1..];
    }
  }

  /** Deleting keeps ids unique. */
  lemma {:induction false} RemoveKeepsIdsUnique(s: seq<WeatherItem>, id: int)
    requires UniqueIds(s)
    ensures UniqueIds(RemoveId(s, id))
  {
    if s != [] {
      assert UniqueIds(s[1..]) by {
        forall i, j | 0 <= i < j < |s[1..]| ensures s[1..][i].cityId != s[1..][j].cityId {
          assert s[1..][i] == s[i + 1] && s[1..][j] == s[j + 1];
        }
      }
      RemoveKeepsIdsUnique(s[1..], id);
      var rest := RemoveId(s[1..], id);
      if s[0].cityId != id {
        var r := [s[0]] + rest;
        forall j | 0 <= j < |rest| ensures rest[j].cityId != s[0].cityId {
          assert rest[j] in s[1..];
          var k :| 0 <= k < |s[1..]| && s[1..][k] == rest[j];
          assert s[k + 1] == rest[j];
        }
        forall i, j | 0 <= i < j < |r| ensures r[i].cityId != r[j].cityId {
          assert r[j] == rest[j - 1];
          if i > 0 { assert r[i] == rest[i - 1]; }
        }
      }
    }
  }

  /** Removing an id that occurs exactly once shortens the collection by exactly one. */
  lemma {:induction false} RemovePresentId(s: seq<WeatherItem>, id: int)
    requires UniqueIds(s) && HasId(s, id)
    ensures |RemoveId(s, id)| == |s| - 1
  {
    if s[0].cityId == id {
      assert !HasId(s[1..], id) by {
        forall i | 0 <= i < |s[1..]| ensures s[1..][i].cityId != id {
          assert s[1..][i] == s[i + 1];
        }
      }
      RemoveAbsentId(s[1..], id);
    } else {
      var i :| 0 <= i < |s| && s[i].cityId == id;
      assert s[1..][i - 1].cityId == id;
      RemovePresentId(s[1..], id);
    }
  }

  /** Insert-or-replace keyed on the city id: the new item replaces any item with its id and
      goes last. */
  function Upsert(s: seq<WeatherItem>, item: WeatherItem): (r: seq<WeatherItem>)
    ensures forall x :: x in r <==> x == item || (x in s && x.cityId != item.cityId)
    ensures |r| <= |s| + 1
  {
    RemoveId(s, item.cityId) + [item]
  }

  /** After an upsert there is still at most one item per id. */
  lemma UpsertKeepsIdsUnique(s: seq<WeatherItem>, item: WeatherItem)
    requires UniqueIds(s)
    ensures UniqueIds(Upsert(s, item))
  {
    var kept := RemoveId(s, item.cityId);
    RemoveKeepsIdsUnique(s, item.cityId);
    RemovedIdIsGone(s, item.cityId);
    var r := kept + [item];
    forall i, j | 0 <= i < j < |r| ensures r[i].cityId != r[j].cityId {
      assert r[i] == kept[i];
      if j < |kept| { assert r[j] == kept[j]; }
    }
  }

  /** Index of the first item with id `id`, as `items.first { it.cityId == id }` finds it. */
  function FindById(items: seq<WeatherItem>, id: int): (r: Option<nat>)
    ensures r.Some? ==> r.value < |items| && items[r.value].cityId == id
    ensures r.Some? ==> forall k :: 0 <= k < r.value ==> items[k].cityId != id
    ensures r.None? <==> !HasId(items, id)
  {
    if items == [] then None
    else if items[0].cityId == id then Some(0)
    else
      match FindById(items[1..], id)
      case None =>
        assert forall k :: 1 <= k < |items| ==> items[k] == items[1..][k - 1];
        None
      case Some(k) => Some(k + 1)
  }

  /** Index of the first item whose name contains `query`, case ignored, as
      `items.first { it.cityName.contains(query, ignoreCase = true) }` finds it. */
  function FindByName(items: seq<WeatherItem>, query: string): (r: Option<nat>)
    ensures r.Some? ==> r.value < |items| && Contains(items[r.value].cityName, query, true)
    ensures r.Some? ==> forall k :: 0 <= k < r.value ==> !Contains(items[k].cityName, query, true)
    ensures r.None? ==> forall k :: 0 <= k < |items| ==> !Contains(items[k].cityName, query, true)
  {
    if items == [] then None
    else if Contains(items[0].cityName, query, true) then Some(0)
    else
      match FindByName(items[1..], query)
      case None =>
        assert forall k :: 1 <= k < |items| ==> items[k] == items[1..][k - 1];
        None
      case Some(k) => Some(k + 1)
  }

  // ---------------------------------------------------------------------------------------
  // Sorting by recency, newest first (`sortedByDescending { it.lastTimeUpdated }`)
  // ---------------------------------------------------------------------------------------

  ghost predicate NewestFirst(s: seq<WeatherItem>)
  {
    forall i, j :: 0 <= i < j < |s| ==> s[i].lastTimeUpdated >= s[j].lastTimeUpdated
  }

  /** Places `x` in front of the first item that is not newer than it. */
  function InsertByRecency(x: WeatherItem, s: seq<WeatherItem>): (r: seq<WeatherItem>)
    ensures multiset(r) == multiset(s) + multiset{x}
    ensures |r| == |s| + 1
  {
    if s == [] || s[0].lastTimeUpdated <= x.lastTimeUpdated then [x] + s
    else
      assert s == [s[0]] + s[1..];
      [s[0]] + InsertByRecency(x, s[1..])
  }

  lemma {:induction false} InsertKeepsNewestFirst(x: WeatherItem, s: seq<WeatherItem>)
    requires NewestFirst(s)
    ensures NewestFirst(InsertByRecency(x, s))
  {
    var r := InsertByRecency(x, s);
    if s == [] || s[0].lastTimeUpdated <= x.lastTimeUpdated {
      forall i, j | 0 <= i < j < |r| ensures r[i].lastTimeUpdated >= r[j].lastTimeUpdated {
        assert r[j] == s[j - 1];
        if i > 0 { assert r[i] == s[i - 1]; }
      }
    } else {
      var rest := InsertByRecency(x, s[1..]);
      assert NewestFirst(s[1..]) by {
        forall i, j | 0 <= i < j < |s[1..]| ensures s[1..][i].lastTimeUpdated >= s[1..][j].lastTimeUpdated {
          assert s[1..][i] == s[i + 1] && s[1..][j] == s[j + 1];
        }
      }
      InsertKeepsNewestFirst(x, s[1..]);
      forall j | 0 <= j < |rest| ensures s[0].lastTimeUpdated >= rest[j].lastTimeUpdated {
        assert rest[j] in multiset(rest);
        if rest[j] != x {
          assert rest[j] in multiset(s[1..]);
          var k :| 0 <= k < |s[1..]| && s[1..][k] == rest[j];
          assert s[k + 1] == rest[j];
        }
      }
      forall i, j | 0 <= i < j < |r| ensures r[i].lastTimeUpdated >= r[j].lastTimeUpdated {
        assert r[j] == rest[j - 1];
        if i > 0 { assert r[i] == rest[i - 1]; }
      }
    }
  }

  /** The stable descending sort: a permutation of `s`, newest first. */
  function SortByRecency(s: seq<WeatherItem>): (r: seq<WeatherItem>)
    ensures multiset(r) == multiset(s)
    ensures |r| == |s|
  {
    if s == [] then []
    else
      assert s == [s[0]] + s[1..];
      InsertByRecency(s[0], SortByRecency(s[1..]))
  }

  /** The sort puts the newest items first. */
  lemma {:induction false} SortIsNewestFirst(s: seq<WeatherItem>)
    ensures NewestFirst(SortByRecency(s))
  {
    if s != [] {
      SortIsNewestFirst(s[1..]);
      InsertKeepsNewestFirst(s[0], SortByRecency(s[1..]));
    }
  }

  /** The items of `s` updated at time `t`, in their order in `s`. */
  function UpdatedAt(s: seq<WeatherItem>, t: int): seq<WeatherItem>
  {
    if s == [] then []
    else (if s[0].lastTimeUpdated == t then [s[0]] else []) + UpdatedAt(s[1..], t)
  }

  lemma {:induction false} InsertIsStable(x: WeatherItem, s: seq<WeatherItem>, t: int)
    ensures UpdatedAt(InsertByRecency(x, s), t)
         == (if x.lastTimeUpdated == t then [x] else []) + UpdatedAt(s, t)
  {
    if s == [] || s[0].lastTimeUpdated <= x.lastTimeUpdated {
      assert ([x] + s)[1..] == s;
    } else {
      InsertIsStable(x, s[1..], t);
      assert ([s[0]] + InsertByRecency(x, s[1..]))[1..] == InsertByRecency(x, s[1..]);
    }
  }

  /** The sort is stable: items with equal update times keep their relative order. */
  lemma {:induction false} SortIsStable(s: seq<WeatherItem>, t: int)
    ensures UpdatedAt(SortByRecency(s), t) == UpdatedAt(s, t)
  {
    if s != [] {
      SortIsStable(s[1..], t);
      InsertIsStable(s[0], SortByRecency(s[1..]), t);
    }
  }

  lemma UniqueTail(s: seq<WeatherItem>)
    requires UniqueIds(s) && s != []
    ensures UniqueIds(s[1..]) && !HasId(s[1..], s[0].cityId)
  {
    forall i, j | 0 <= i < j < |s[1..]| ensures s[1..][i].cityId != s[1..][j].cityId {
      assert s[1..][i] == s[i + 1] && s[1..][j] == s[j + 1];
    }
    forall i | 0 <= i < |s[1..]| ensures s[1..][i].cityId != s[0].cityId {
      assert s[1..][i] == s[i + 1];
    }
  }

  lemma {:induction false} InsertKeepsIdsUnique(x: WeatherItem, s: seq<WeatherItem>)
    requires UniqueIds(s) && !HasId(s, x.cityId)
    ensures UniqueIds(InsertByRecency(x, s))
  {
    var r := InsertByRecency(x, s);
    if s == [] || s[0].lastTimeUpdated <= x.lastTimeUpdated {
      forall i, j | 0 <= i < j < |r| ensures r[i].cityId != r[j].cityId {
        assert r[j] == s[j - 1];
        if i > 0 { assert r[i] == s[i - 1]; }
      }
    } else {
      UniqueTail(s);
      assert !HasId(s[1..], x.cityId) by {
        forall i | 0 <= i < |s[1..]| ensures s[1..][i].cityId != x.cityId { assert s[1..][i] == s[i + 1]; }
      }
      InsertKeepsIdsUnique(x, s[1..]);
      var rest := InsertByRecency(x, s[1..]);
      forall j | 0 <= j < |rest| ensures rest[j].cityId != s[0].cityId {
        assert rest[j] in multiset(rest);
        if rest[j] != x {
          assert rest[j] in multiset(s[1..]);
          var k :| 0 <= k < |s[1..]| && s[1..][k] == rest[j];
        }
      }
      forall i, j | 0 <= i < j < |r| ensures r[i].cityId != r[j].cityId {
        assert r[j] == rest[j - 1];
        if i > 0 { assert r[i] == rest[i - 1]; }
      }
    }
  }

  /** Sorting keeps ids unique. */
  lemma {:induction false} SortKeepsIdsUnique(s: seq<WeatherItem>)
    requires UniqueIds(s)
    ensures UniqueIds(SortByRecency(s))
  {
    if s != [] {
      UniqueTail(s);
      SortKeepsIdsUnique(s[1..]);
      var sorted := SortByRecency(s[1..]);
      forall k | 0 <= k < |sorted| ensures sorted[k].cityId != s[0].cityId {
        assert sorted[k] in multiset(s[1..]);
        var m :| 0 <= m < |s[1..]| && s[1..][m] == sorted[k];
      }
      InsertKeepsIdsUnique(s[0], sorted);
    }
  }

  // ---------------------------------------------------------------------------------------
  // Duplicate names
  // ---------------------------------------------------------------------------------------

  /** How many items are named `name`. */
  function CountName(s: seq<WeatherItem>, name: string): nat
  {
    if s == [] then 0 else (if s[0].cityName == name then 1 else 0) + CountName(s[1..], name)
  }

  /** `name, country` as shown for a city whose name occurs more than once. */
  function WithCountry(item: WeatherItem): string
  {
    item.cityName + ", " + item.country
  }

  /** The visible copy of a list: names that occur more than once get their country appended;
      nothing else changes. */
  function Labelled(s: seq<WeatherItem>): (r: seq<WeatherItem>)
    ensures |r| == |s|
    ensures forall i :: 0 <= i < |s| ==> r[i].(cityName := s[i].cityName) == s[i]
    ensures forall i :: 0 <= i < |s| ==> (r[i] == s[i] <==> CountName(s, s[i].cityName) <= 1)
    ensures forall i :: 0 <= i < |s| && CountName(s, s[i].cityName) > 1 ==> r[i].cityName == WithCountry(s[i])
  {
    seq(|s|, i requires 0 <= i < |s| =>
      if CountName(s, s[i].cityName) > 1 then s[i].(cityName := WithCountry(s[i])) else s[i])
  }

  /** Two different positions holding the same name count that name at least twice. */
  lemma {:induction false} SharedNameCountsTwice(s: seq<WeatherItem>, i: int, j: int)
    requires 0 <= i < j < |s| && s[i].cityName == s[j].cityName
    ensures CountName(s, s[i].cityName) >= 2
  {
    if i == 0 {
      AtLeastOne(s[1..], j - 1, s[i].cityName);
    } else {
      SharedNameCountsTwice(s[1..], i - 1, j - 1);
    }
  }

  lemma {:induction false} AtLeastOne(s: seq<WeatherItem>, j: int, name: string)
    requires 0 <= j < |s| && s[j].cityName == name
    ensures CountName(s, name) >= 1
  {
    if j > 0 { AtLeastOne(s[1..], j - 1, name); }
  }

  /** Two saved cities that share a name but not a country are told apart in the visible
      list. */
  lemma DuplicatesBecomeDistinct(s: seq<WeatherItem>, i: int, j: int)
    requires 0 <= i < j < |s|
    requires s[i].cityName == s[j].cityName && s[i].country != s[j].country
    ensures Labelled(s)[i].cityName != Labelled(s)[j].cityName
  {
    SharedNameCountsTwice(s, i, j);
    var a, b := WithCountry(s[i]), WithCountry(s[j]);
    var n := |s[i].cityName| + 2;
    if |a| == |b| {
      var k :| 0 <= k < |s[i].country| && s[i].country[k] != s[j].country[k];
      assert a[n + k] != b[n + k];
    }
  }

  /** A list whose names are all different is shown as it is. */
  lemma {:induction false} DistinctNamesUnchanged(s: seq<WeatherItem>)
    requires forall i, j :: 0 <= i < j < |s| ==> s[i].cityName != s[j].cityName
    ensures Labelled(s) == s
  {
    forall i | 0 <= i < |s| ensures CountName(s, s[i].cityName) <= 1 {
      CountSingle(s, i);
    }
  }

  lemma {:induction false} CountSingle(s: seq<WeatherItem>, i: int)
    requires forall a, b :: 0 <= a < b < |s| ==> s[a].cityName != s[b].cityName
    requires 0 <= i < |s|
    ensures CountName(s, s[i].cityName) == 1
  {
    if i == 0 {
      CountAbsent(s[1..], s[0].cityName);
    } else {
      CountSingle(s[1..], i - 1);
    }
  }

  lemma {:induction false} CountAbsent(s: seq<WeatherItem>, name: string)
    requires forall k :: 0 <= k < |s| ==> s[k].cityName != name
    ensures CountName(s, name) == 0
  {
    if s != [] { CountAbsent(s[1..], name); }
  }

  // ---------------------------------------------------------------------------------------
  // One emission of the store
  // ---------------------------------------------------------------------------------------

  /** What one emission of the store leaves: the list the screen shows and the store after
      the possible eviction. */
  datatype Emission = Emission(visible: seq<WeatherItem>, store: seq<WeatherItem>)

  /** Sort newest first; when exactly `MAX_ITEM_COUNT` items are saved, delete the oldest;
      publish the sorted list, duplicate names suffixed with their country. The published list
      is the one sorted before the deletion. */
  function Emit(store: seq<WeatherItem>): (e: Emission)
  {
    var sorted := SortByRecency(store);
    var kept := if |sorted| == MAX_ITEM_COUNT then RemoveId(store, sorted[|sorted| - 1].cityId) else store;
    Emission(Labelled(sorted), kept)
  }

  /** An emission keeps ids unique in the store and in the visible list. */
  lemma EmitKeepsIdsUnique(store: seq<WeatherItem>)
    requires UniqueIds(store)
    ensures UniqueIds(Emit(store).store) && UniqueIds(Emit(store).visible)
  {
    var sorted := SortByRecency(store);
    SortKeepsIdsUnique(store);
    LabelledKeepsIds(sorted);
    if |sorted| == MAX_ITEM_COUNT { RemoveKeepsIdsUnique(store, sorted[|sorted| - 1].cityId); }
  }

  lemma LabelledKeepsIds(s: seq<WeatherItem>)
    ensures UniqueIds(s) ==> UniqueIds(Labelled(s))
  {
    var r := Labelled(s);
    assert forall i :: 0 <= i < |s| ==> r[i].cityId == s[i].cityId by {
      forall i | 0 <= i < |s| ensures r[i].cityId == s[i].cityId {
        assert r[i].(cityName := s[i].cityName) == s[i];
      }
    }
  }

  /** The visible list holds the saved items newest first, each with its id, times and data
      (only names may carry a country suffix). */
  lemma EmitShowsStoreNewestFirst(store: seq<WeatherItem>)
    ensures var e := Emit(store); var sorted := SortByRecency(store);
      && |e.visible| == |store|
      && multiset(sorted) == multiset(store) && NewestFirst(sorted)
      && forall i :: 0 <= i < |sorted| ==> e.visible[i].(cityName := sorted[i].cityName) == sorted[i]
  {
    SortIsNewestFirst(store);
  }

  /** Below the bound nothing is evicted. */
  lemma EmitBelowBoundKeepsStore(store: seq<WeatherItem>)
    requires |store| != MAX_ITEM_COUNT
    ensures Emit(store).store == store
  {
  }

  /** The last item of the sorted list is one of the oldest. */
  lemma SortedLastIsOldest(s: seq<WeatherItem>)
    requires s != []
    ensures var sorted := SortByRecency(s);
      && sorted[|s| - 1] in s
      && forall x :: x in s ==> x.lastTimeUpdated >= sorted[|s| - 1].lastTimeUpdated
  {
    var sorted := SortByRecency(s);
    SortIsNewestFirst(s);
    assert sorted[|s| - 1] in multiset(s);
    forall x | x in s ensures x.lastTimeUpdated >= sorted[|s| - 1].lastTimeUpdated {
      assert x in multiset(sorted);
    }
  }

  /** At the bound exactly one item goes, and it is one with the oldest update time; the list
      published by the same emission still shows it. */
  lemma EmitAtBoundEvictsOldest(store: seq<WeatherItem>)
    requires UniqueIds(store) && |store| == MAX_ITEM_COUNT
    ensures var e := Emit(store); var gone := SortByRecency(store)[MAX_ITEM_COUNT - 1];
      && gone in store
      && (forall x :: x in store ==> x.lastTimeUpdated >= gone.lastTimeUpdated)
      && e.store == RemoveId(store, gone.cityId)
      && |e.store| == MAX_ITEM_COUNT - 1
      && HasId(e.visible, gone.cityId)
  {
    var e := Emit(store);
    var sorted := SortByRecency(store);
    var gone := sorted[MAX_ITEM_COUNT - 1];
    SortedLastIsOldest(store);
    var a :| 0 <= a < |store| && store[a] == gone;
    RemovePresentId(store, gone.cityId);
    assert e.visible[MAX_ITEM_COUNT - 1].(cityName := gone.cityName) == gone;
  }

  /** Saving one item and processing the resulting emission keeps the store under the bound:
      with an emission after every change the store never holds `MAX_ITEM_COUNT` items. */
  lemma UpsertThenEmitStaysBelowBound(store: seq<WeatherItem>, item: WeatherItem)
    requires UniqueIds(store) && |store| < MAX_ITEM_COUNT
    ensures |Emit(Upsert(store, item)).store| < MAX_ITEM_COUNT
    ensures UniqueIds(Emit(Upsert(store, item)).store)
  {
    var u := Upsert(store, item);
    UpsertKeepsIdsUnique(store, item);
    EmitKeepsIdsUnique(u);
    if |u| == MAX_ITEM_COUNT { EmitAtBoundEvictsOldest(u); }
  }
}
