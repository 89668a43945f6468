/**
 Loot lists: lists of items that may contain lists parsed before them, and the items a
 list comes to (item_schema.cpp, ParseLootLists; case_opening.cpp, GetLootListItems).
 */
module LootLists {
  import opened Prelude
  import opened ItemSchema

  /** Sublists point at lists, by their place in the order of insertion. */
  datatype LootList = LootList(
    name: Text, items: seq<LootListItem>, subLists: seq<nat>, willProduceStatTrak: bool, isUnusual: bool)

  /** An entry of a list in the file. */
  datatype Entry = Reuse(itemSets: seq<Text>) | MakesStatTrak | NoEffect | Named(name: Text)

  datatype Key = Key(name: Text, entries: seq<Entry>)

  /** What can be found while parsing: the item sets and the items that parse. */
  datatype Tables = Tables(itemSets: map<Text, ItemSet>, items: map<Text, LootListItem>)

  // ----------------------------------------------------------------- parsing

  /** The list of that name, or the number of lists. */
  function Find(lists: seq<LootList>, name: Text): (i: nat)
    ensures i <= |lists|
    ensures i < |lists| ==> lists[i].name == name
    ensures forall j :: 0 <= j < i ==> lists[j].name != name
  {
    if lists == [] || lists[0].name == name then 0 else 1 + Find(lists[1..], name)
  }

  function AsUnusual(item: LootListItem, unusual: bool): LootListItem {
    if unusual then item.(quality := QUALITY_UNUSUAL) else item
  }

  function AllAsUnusual(items: seq<LootListItem>, unusual: bool): seq<LootListItem> {
    seq(|items|, i requires 0 <= i < |items| => AsUnusual(items[i], unusual))
  }

  /** The items of the sets that exist, in the order of the entry. */
  function Reused(tables: Tables, names: seq<Text>, unusual: bool): seq<LootListItem> {
    if names == [] then []
    else
      (if names[0] in tables.itemSets then AllAsUnusual(tables.itemSets[names[0]].items, unusual) else [])
      + Reused(tables, names[1..], unusual)
  }

  /** One entry; `earlier` are the lists there are, the one being parsed included. */
  function WithEntry(tables: Tables, earlier: seq<LootList>, list: LootList, e: Entry): LootList {
    match e
    case Reuse(names) => list.(items := list.items + Reused(tables, names, list.isUnusual))
    case MakesStatTrak => list.(willProduceStatTrak := true)
    case NoEffect => list
    case Named(name) =>
      if Find(earlier, name) < |earlier| then list.(subLists := list.subLists + [Find(earlier, name)])
      else if name in tables.items then list.(items := list.items + [AsUnusual(tables.items[name], list.isUnusual)])
      else list
  }

  function WithEntries(tables: Tables, earlier: seq<LootList>, list: LootList, es: seq<Entry>): LootList
    decreases |es|
  {
    if es == [] then list
    else WithEntry(tables, earlier, WithEntries(tables, earlier, list, es[..|es| - 1]), es[|es| - 1])
  }

  function EmptyList(name: Text, unusual: bool): LootList {
    LootList(name, [], [], false, unusual)
  }

  /** A list of a name that is taken is ignored. */
  function WithKey(tables: Tables, lists: seq<LootList>, key: Key, unusual: bool): seq<LootList> {
    if Find(lists, key.name) < |lists| then lists
    else
      var list := EmptyList(key.name, unusual);
      lists + [WithEntries(tables, lists + [list], list, key.entries)]
  }

  function WithKeys(tables: Tables, lists: seq<LootList>, keys: seq<Key>, unusual: bool): seq<LootList>
    decreases |keys|
  {
    if keys == [] then lists
    else WithKey(tables, WithKeys(tables, lists, keys[..|keys| - 1], unusual), keys[|keys| - 1], unusual)
  }

  method ParseLootLists(tables: Tables, lists: seq<LootList>, keys: seq<Key>, unusual: bool) returns (parsed: seq<LootList>)
    ensures parsed == WithKeys(tables, lists, keys, unusual)
  {
    parsed := lists;
    for k := 0 to |keys|
      invariant parsed == WithKeys(tables, lists, keys[..k], unusual)
    {
      assert keys[..k + 1][..k] == keys[..k];
      var key := keys[k];
      if Find(parsed, key.name) == |parsed| {
        var list := EmptyList(key.name, unusual);
        var earlier := parsed + [list];
        for i := 0 to |key.entries|
          invariant list == WithEntries(tables, earlier, EmptyList(key.name, unusual), key.entries[..i])
        {
          assert key.entries[..i + 1][..i] == key.entries[..i];
          list := ParseEntry(tables, earlier, list, key.entries[i]);
        }
        assert key.entries[..|key.entries|] == key.entries;
        parsed := parsed + [list];
      }
    }
    assert keys[..|keys|] == keys;
  }

  method ParseEntry(tables: Tables, earlier: seq<LootList>, list: LootList, e: Entry) returns (list': LootList)
    ensures list' == WithEntry(tables, earlier, list, e)
  {
    list' := list;
    match e
    case Reuse(names) =>
      for i := 0 to |names|
        invariant list' == list.(items := list'.items)
        invariant list'.items + Reused(tables, names[i..], list.isUnusual) == list.items + Reused(tables, names, list.isUnusual)
      {
        assert names[i..][1..] == names[i + 1..];
        if names[i] in tables.itemSets {
          list' := list'.(items := list'.items + AllAsUnusual(tables.itemSets[names[i]].items, list.isUnusual));
        }
      }
      assert names[|names|..] == [];
    case MakesStatTrak =>
      list' := list'.(willProduceStatTrak := true);
    case NoEffect =>
    case Named(name) =>
      var at := Find(earlier, name);
      if at < |earlier| {
        list' := list'.(subLists := list'.subLists + [at]);
      } else if name in tables.items {
        list' := list'.(items := list'.items + [AsUnusual(tables.items[name], list.isUnusual)]);
      }
  }

  // ------------------------------------------------------- what a list is made of

  /** An item as it is in a list: in one of unusual items it is unusual itself. */
  predicate ListedAs(found: LootListItem, unusual: bool, item: LootListItem) {
    item == if unusual then found.(quality := 3) else found
  }

  /** An entry brings an item: one of a set that is reused, or one it names that is no list. */
  ghost predicate Brings(tables: Tables, earlier: seq<LootList>, unusual: bool, e: Entry, item: LootListItem) {
    match e
    case Reuse(names) =>
      exists name <- names, found :: name in tables.itemSets && found in tables.itemSets[name].items && ListedAs(found, unusual, item)
    case Named(name) =>
      (forall l <- earlier :: l.name != name) && name in tables.items && ListedAs(tables.items[name], unusual, item)
    case _ => false
  }

  /** An entry names a list: the first of that name. */
  ghost predicate Includes(earlier: seq<LootList>, e: Entry, s: nat) {
    e.Named? && s < |earlier| && earlier[s].name == e.name && forall k :: 0 <= k < s ==> earlier[k].name != e.name
  }

  lemma {:induction false} ReusedMeaning(tables: Tables, names: seq<Text>, unusual: bool, item: LootListItem)
    ensures item in Reused(tables, names, unusual) <==> Brings(tables, [], unusual, Reuse(names), item)
  {
    if names != [] {
      ReusedMeaning(tables, names[1..], unusual, item);
      var set0 := if names[0] in tables.itemSets then tables.itemSets[names[0]].items else [];
      var first := if names[0] in tables.itemSets then AllAsUnusual(set0, unusual) else [];
      if item in first {
        var k :| 0 <= k < |set0| && first[k] == item;
        assert names[0] in names && set0[k] in set0 && ListedAs(set0[k], unusual, item);
      }
      forall found | found in set0 && ListedAs(found, unusual, item)
        ensures item in first
      {
        var k :| 0 <= k < |set0| && set0[k] == found;
        assert first[k] == item;
      }
      assert forall name :: name in names <==> name == names[0] || name in names[1..];
      assert Reused(tables, names, unusual) == first + Reused(tables, names[1..], unusual);
    }
  }

  lemma NameIsTaken(lists: seq<LootList>, name: Text)
    ensures Find(lists, name) < |lists| <==> exists l <- lists :: l.name == name
  {
    var k := Find(lists, name);
    if k < |lists| {
      assert lists[k] in lists;
    }
  }

  lemma EntryMeaning(tables: Tables, earlier: seq<LootList>, list: LootList, e: Entry, item: LootListItem, s: nat)
    ensures var after := WithEntry(tables, earlier, list, e);
      && (item in after.items <==> item in list.items || Brings(tables, earlier, list.isUnusual, e, item))
      && (s in after.subLists <==> s in list.subLists || Includes(earlier, e, s))
      && (after.willProduceStatTrak <==> list.willProduceStatTrak || e.MakesStatTrak?)
      && after.isUnusual == list.isUnusual && after.name == list.name
  {
    match e
    case Reuse(names) => ReusedMeaning(tables, names, list.isUnusual, item);
    case Named(name) => NameIsTaken(earlier, name);
    case _ =>
  }

  /** A parsed list has exactly the items, sublists and StatTrak flag its entries bring. */
  lemma {:induction false} EntriesMeaning(tables: Tables, earlier: seq<LootList>, list: LootList, es: seq<Entry>, item: LootListItem, s: nat)
    ensures var after := WithEntries(tables, earlier, list, es);
      && (item in after.items <==> item in list.items || exists e <- es :: Brings(tables, earlier, list.isUnusual, e, item))
      && (s in after.subLists <==> s in list.subLists || exists e <- es :: Includes(earlier, e, s))
      && (after.willProduceStatTrak <==> list.willProduceStatTrak || exists e <- es :: e.MakesStatTrak?)
      && after.isUnusual == list.isUnusual && after.name == list.name
    decreases |es|
  {
    if es != [] {
      hide Brings, Includes, WithEntry;
      var n := |es| - 1;
      assert forall e :: e in es <==> e in es[..n] || e == es[n];
      EntriesMeaning(tables, earlier, list, es[..n], item, s);
      EntryMeaning(tables, earlier, WithEntries(tables, earlier, list, es[..n]), es[n], item, s);
    }
  }

  /** A list whose name is new is added last, as its entries say; one whose name is taken is not. */
  lemma KeyMeaning(tables: Tables, lists: seq<LootList>, key: Key, unusual: bool, item: LootListItem, s: nat)
    ensures var after := WithKey(tables, lists, key, unusual);
      if exists l <- lists :: l.name == key.name then after == lists
      else
        && |after| == |lists| + 1 && after[..|lists|] == lists
        && var list, earlier := after[|lists|], lists + [EmptyList(key.name, unusual)];
           && list.name == key.name && list.isUnusual == unusual
           && (item in list.items <==> exists e <- key.entries :: Brings(tables, earlier, unusual, e, item))
           && (s in list.subLists <==> exists e <- key.entries :: Includes(earlier, e, s))
           && (list.willProduceStatTrak <==> exists e <- key.entries :: e.MakesStatTrak?)
  {
    hide Brings, Includes;
    NameIsTaken(lists, key.name);
    if Find(lists, key.name) == |lists| {
      var list := EmptyList(key.name, unusual);
      EntriesMeaning(tables, lists + [list], list, key.entries, item, s);
    }
  }

  // ---------------------------------------------------------------- ordering

  /** Sublists come before the lists that contain them. */
  predicate WellOrdered(lists: seq<LootList>) {
    forall i :: 0 <= i < |lists| ==> PointsBefore(lists[i], i)
  }

  predicate PointsBefore(list: LootList, i: nat) {
    forall s <- list.subLists :: s < i
  }

  predicate NamesItself(key: Key) {
    Named(key.name) in key.entries
  }

  lemma {:induction false} EntriesPointBefore(tables: Tables, earlier: seq<LootList>, list: LootList, es: seq<Entry>)
    requires earlier != [] && list.subLists == [] && Find(earlier, earlier[|earlier| - 1].name) == |earlier| - 1
    ensures var parsed := WithEntries(tables, earlier, list, es);
      && (forall s <- parsed.subLists :: s < |earlier|)
      && (PointsBefore(parsed, |earlier| - 1) <==> Named(earlier[|earlier| - 1].name) !in es)
    decreases |es|
  {
    var n := |earlier| - 1;
    if es != [] {
      var some, last := es[..|es| - 1], es[|es| - 1];
      assert es == some + [last];
      EntriesPointBefore(tables, earlier, list, some);
      var before, after := WithEntries(tables, earlier, list, some), WithEntry(tables, earlier, WithEntries(tables, earlier, list, some), last);
      var self := Named(earlier[n].name);
      assert self in es <==> self in some || self == last;
      if last.Named? && Find(earlier, last.name) < |earlier| {
        var s := Find(earlier, last.name);
        assert s == n <==> last.name == earlier[n].name;
        assert forall x :: x in after.subLists <==> x in before.subLists || x == s;
        assert s in after.subLists && s <= n;
        assert PointsBefore(after, n) <==> PointsBefore(before, n) && s < n;
        assert self == last <==> s == n;
      } else {
        assert self != last;
        assert after.subLists == before.subLists;
      }
    }
  }

  lemma FindAppended(lists: seq<LootList>, list: LootList)
    requires Find(lists, list.name) == |lists|
    ensures Find(lists + [list], list.name) == |lists|
  {
    assert (lists + [list])[|lists|] == list;
    assert forall k :: 0 <= k < |lists| ==> (lists + [list])[k] == lists[k];
  }

  /** A list points only backwards unless it names itself. */
  lemma KeyKeepsOrder(tables: Tables, lists: seq<LootList>, key: Key, unusual: bool)
    requires WellOrdered(lists)
    ensures WellOrdered(WithKey(tables, lists, key, unusual)) <==> (Find(lists, key.name) < |lists| || !NamesItself(key))
  {
    if Find(lists, key.name) == |lists| {
      var list := EmptyList(key.name, unusual);
      var earlier := lists + [list];
      FindAppended(lists, list);
      EntriesPointBefore(tables, earlier, list, key.entries);
      var parsed := WithEntries(tables, earlier, list, key.entries);
      assert earlier[|earlier| - 1] == list;
      assert (lists + [parsed])[|lists|] == parsed;
      assert forall i :: 0 <= i < |lists| ==> (lists + [parsed])[i] == lists[i];
    }
  }

  /** Sublists come no later than the lists that contain them. */
  predicate PointsBack(lists: seq<LootList>) {
    forall i :: 0 <= i < |lists| ==> PointsBefore(lists[i], i + 1)
  }

  lemma KeyPointsBack(tables: Tables, lists: seq<LootList>, key: Key, unusual: bool)
    requires PointsBack(lists)
    ensures PointsBack(WithKey(tables, lists, key, unusual))
    ensures WellOrdered(WithKey(tables, lists, key, unusual)) ==> WellOrdered(lists)
  {
    if Find(lists, key.name) == |lists| {
      var list := EmptyList(key.name, unusual);
      FindAppended(lists, list);
      EntriesPointBefore(tables, lists + [list], list, key.entries);
      var parsed := WithKey(tables, lists, key, unusual);
      assert (lists + [list])[|lists + [list]| - 1] == list;
      assert forall i :: 0 <= i < |lists| ==> parsed[i] == lists[i];
    }
  }

  /** No list that is kept, the first of its name, names itself. */
  ghost predicate NoneNamesItself(tables: Tables, lists: seq<LootList>, keys: seq<Key>, unusual: bool)
    decreases |keys|
  {
    keys != [] ==>
      var n := |keys| - 1;
      NoneNamesItself(tables, lists, keys[..n], unusual) && IgnoredOrApart(WithKeys(tables, lists, keys[..n], unusual), keys[n])
  }

  predicate IgnoredOrApart(lists: seq<LootList>, key: Key) {
    Find(lists, key.name) < |lists| || !NamesItself(key)
  }

  /** Parsing keeps the order exactly as long as no list names itself. */
  lemma {:induction false} KeysKeepOrder(tables: Tables, lists: seq<LootList>, keys: seq<Key>, unusual: bool)
    requires WellOrdered(lists)
    ensures PointsBack(WithKeys(tables, lists, keys, unusual))
    ensures WellOrdered(WithKeys(tables, lists, keys, unusual)) <==> NoneNamesItself(tables, lists, keys, unusual)
    decreases |keys|
  {
    if keys != [] {
      hide WithKey, NamesItself, WellOrdered, PointsBack;
      var n := |keys| - 1;
      var some := WithKeys(tables, lists, keys[..n], unusual);
      KeysKeepOrder(tables, lists, keys[..n], unusual);
      KeyPointsBack(tables, some, keys[n], unusual);
      if WellOrdered(some) {
        KeyKeepsOrder(tables, some, keys[n], unusual);
      }
    }
  }

  // --------------------------------------------------------------- flattening

  /** The items of the first k sublists and all below them. */
  function BelowItems(lists: seq<LootList>, i: nat, k: nat): seq<LootListItem>
    requires WellOrdered(lists) && i < |lists| && k <= |lists[i].subLists|
    decreases i, k
  {
    if k == 0 then []
    else
      assert lists[i].subLists[k - 1] in lists[i].subLists;
      BelowItems(lists, i, k - 1) + Flattened(lists, lists[i].subLists[k - 1])
  }

  function Flattened(lists: seq<LootList>, i: nat): seq<LootListItem>
    requires WellOrdered(lists) && i < |lists|
    decreases i, |lists[i].subLists| + 1
  {
    BelowItems(lists, i, |lists[i].subLists|) + lists[i].items
  }

  function BelowUnusual(lists: seq<LootList>, i: nat, k: nat): bool
    requires WellOrdered(lists) && i < |lists| && k <= |lists[i].subLists|
    decreases i, k
  {
    k > 0 &&
    (assert lists[i].subLists[k - 1] in lists[i].subLists;
     BelowUnusual(lists, i, k - 1) || Unusual(lists, lists[i].subLists[k - 1]))
  }

  function Unusual(lists: seq<LootList>, i: nat): bool
    requires WellOrdered(lists) && i < |lists|
    decreases i, |lists[i].subLists| + 1
  {
    lists[i].isUnusual || BelowUnusual(lists, i, |lists[i].subLists|)
  }

  /** The recursion ends because sublists come earlier. */
  method GetLootListItems(lists: seq<LootList>, i: nat, items: seq<LootListItem>) returns (unusuals: bool, items': seq<LootListItem>)
    requires WellOrdered(lists) && i < |lists|
    ensures items' == items + Flattened(lists, i) && (unusuals <==> Unusual(lists, i))
    decreases i
  {
    unusuals, items' := lists[i].isUnusual, items;
    for k := 0 to |lists[i].subLists|
      invariant items' == items + BelowItems(lists, i, k)
      invariant unusuals <==> lists[i].isUnusual || BelowUnusual(lists, i, k)
    {
      assert lists[i].subLists[k] in lists[i].subLists;
      var others;
      others, items' := GetLootListItems(lists, lists[i].subLists[k], items');
      unusuals := unusuals || others;
    }
    items' := items' + lists[i].items;
  }

  /** A chain of sublists. */
  predicate IsPath(lists: seq<LootList>, path: seq<nat>) {
    && path != [] && path[0] < |lists|
    && forall k :: 0 <= k < |path| - 1 ==> IsStep(lists, path, k)
  }

  predicate IsStep(lists: seq<LootList>, path: seq<nat>, k: nat)
    requires k + 1 < |path|
  {
    path[k] < |lists| && path[k + 1] in lists[path[k]].subLists
  }

  ghost predicate Reachable(lists: seq<LootList>, i: nat, j: nat) {
    exists path :: IsPath(lists, path) && path[0] == i && path[|path| - 1] == j
  }

  lemma ReachesItself(lists: seq<LootList>, i: nat)
    requires i < |lists|
    ensures Reachable(lists, i, i)
  {
    assert IsPath(lists, [i]);
  }

  lemma ReachesFurther(lists: seq<LootList>, i: nat, s: nat, j: nat)
    requires i < |lists| && s in lists[i].subLists && Reachable(lists, s, j)
    ensures Reachable(lists, i, j)
  {
    var path :| IsPath(lists, path) && path[0] == s && path[|path| - 1] == j;
    var longer := [i] + path;
    forall k | 0 <= k < |longer| - 1
      ensures IsStep(lists, longer, k)
    {
      if k > 0 {
        assert IsStep(lists, path, k - 1);
      }
    }
    assert IsPath(lists, longer);
  }

  /** A path to another list begins with a sublist. */
  lemma FirstStep(lists: seq<LootList>, i: nat, j: nat) returns (k: nat)
    requires WellOrdered(lists) && i < |lists| && Reachable(lists, i, j) && i != j
    ensures k < |lists[i].subLists| && lists[i].subLists[k] < i && Reachable(lists, lists[i].subLists[k], j)
  {
    var path :| IsPath(lists, path) && path[0] == i && path[|path| - 1] == j;
    assert IsStep(lists, path, 0);
    var s, tail := path[1], path[1..];
    assert s in lists[i].subLists && s < i;
    k :| 0 <= k < |lists[i].subLists| && lists[i].subLists[k] == s;
    forall k | 0 <= k < |tail| - 1
      ensures IsStep(lists, tail, k)
    {
      assert IsStep(lists, path, k + 1);
    }
    assert IsPath(lists, tail);
  }

  /** Whatever is flattened comes from a list that can be reached. */
  lemma {:induction false} FlattenedIsReachable(lists: seq<LootList>, i: nat, item: LootListItem) returns (j: nat)
    requires WellOrdered(lists) && i < |lists| && item in Flattened(lists, i)
    ensures j < |lists| && Reachable(lists, i, j) && item in lists[j].items
    decreases i
  {
    if item in lists[i].items {
      ReachesItself(lists, i);
      j := i;
    } else {
      var k := FromSublist(lists, i, |lists[i].subLists|, item);
      j := FlattenedIsReachable(lists, lists[i].subLists[k], item);
      ReachesFurther(lists, i, lists[i].subLists[k], j);
    }
  }

  lemma {:induction false} FromSublist(lists: seq<LootList>, i: nat, n: nat, item: LootListItem) returns (k: nat)
    requires WellOrdered(lists) && i < |lists| && n <= |lists[i].subLists| && item in BelowItems(lists, i, n)
    ensures k < n && lists[i].subLists[k] < i && item in Flattened(lists, lists[i].subLists[k])
  {
    assert lists[i].subLists[n - 1] in lists[i].subLists;
    if item in Flattened(lists, lists[i].subLists[n - 1]) {
      k := n - 1;
    } else {
      k := FromSublist(lists, i, n - 1, item);
    }
  }

  lemma {:induction false} IntoBelow(lists: seq<LootList>, i: nat, n: nat, k: nat, item: LootListItem)
    requires WellOrdered(lists) && i < |lists| && k < n <= |lists[i].subLists| && lists[i].subLists[k] < i
    requires item in Flattened(lists, lists[i].subLists[k])
    ensures item in BelowItems(lists, i, n)
  {
    assert lists[i].subLists[n - 1] in lists[i].subLists;
    if k < n - 1 {
      IntoBelow(lists, i, n - 1, k, item);
    }
  }

  /** Every item of every list that can be reached is flattened. */
  lemma {:induction false} ReachableIsFlattened(lists: seq<LootList>, i: nat, j: nat, item: LootListItem)
    requires WellOrdered(lists) && i < |lists| && j < |lists| && Reachable(lists, i, j) && item in lists[j].items
    ensures item in Flattened(lists, i)
    decreases i
  {
    if i != j {
      var k := FirstStep(lists, i, j);
      ReachableIsFlattened(lists, lists[i].subLists[k], j, item);
      IntoBelow(lists, i, |lists[i].subLists|, k, item);
    }
  }

  /** Flattening collects exactly the items of the lists that can be reached. */
  lemma FlattenedMeaning(lists: seq<LootList>, i: nat, item: LootListItem)
    requires WellOrdered(lists) && i < |lists|
    ensures item in Flattened(lists, i) <==> exists j: nat :: j < |lists| && Reachable(lists, i, j) && item in lists[j].items
  {
    if item in Flattened(lists, i) {
      var j := FlattenedIsReachable(lists, i, item);
    }
    forall j: nat | j < |lists| && Reachable(lists, i, j) && item in lists[j].items
      ensures item in Flattened(lists, i)
    {
      ReachableIsFlattened(lists, i, j, item);
    }
  }

  // ------------------------------------------------------ lists that never end

  /** The flattening of lists in any order, given up at some depth. */
  function FlattenedWithin(lists: seq<LootList>, i: nat, depth: nat): Option<seq<LootListItem>>
    requires PointsBack(lists) && i < |lists|
    decreases depth, |lists[i].subLists| + 1
  {
    if depth == 0 then None
    else
      var below := BelowWithin(lists, i, |lists[i].subLists|, depth);
      if below.None? then None else Some(below.value + lists[i].items)
  }

  function BelowWithin(lists: seq<LootList>, i: nat, k: nat, depth: nat): Option<seq<LootListItem>>
    requires PointsBack(lists) && i < |lists| && k <= |lists[i].subLists| && depth > 0
    decreases depth, k
  {
    if k == 0 then Some([])
    else
      assert lists[i].subLists[k - 1] in lists[i].subLists;
      var before := BelowWithin(lists, i, k - 1, depth);
      var last := FlattenedWithin(lists, lists[i].subLists[k - 1], depth - 1);
      if before.None? || last.None? then None else Some(before.value + last.value)
  }

  /** The recursion comes to an end at some depth. */
  ghost predicate Ends(lists: seq<LootList>, i: nat)
    requires PointsBack(lists) && i < |lists|
  {
    exists depth :: FlattenedWithin(lists, i, depth).Some?
  }

  lemma {:induction false} OrderedEnds(lists: seq<LootList>, i: nat, depth: nat)
    requires PointsBack(lists) && WellOrdered(lists) && i < |lists| && depth > i
    ensures FlattenedWithin(lists, i, depth) == Some(Flattened(lists, i))
    decreases i, |lists[i].subLists| + 1
  {
    hide BelowWithin, BelowItems;
    OrderedBelowEnds(lists, i, |lists[i].subLists|, depth);
  }

  lemma {:induction false} OrderedBelowEnds(lists: seq<LootList>, i: nat, k: nat, depth: nat)
    requires PointsBack(lists) && WellOrdered(lists) && i < |lists| && depth > i && k <= |lists[i].subLists|
    ensures BelowWithin(lists, i, k, depth) == Some(BelowItems(lists, i, k))
    decreases i, k
  {
    if k > 0 {
      hide FlattenedWithin, Flattened;
      assert lists[i].subLists[k - 1] in lists[i].subLists;
      OrderedBelowEnds(lists, i, k - 1, depth);
      OrderedEnds(lists, lists[i].subLists[k - 1], depth - 1);
    }
  }

  lemma {:induction false} SelfNeverEnds(lists: seq<LootList>, i: nat, depth: nat)
    requires PointsBack(lists) && i < |lists| && i in lists[i].subLists
    ensures FlattenedWithin(lists, i, depth).None?
    decreases depth
  {
    if depth > 0 {
      var k :| 0 <= k < |lists[i].subLists| && lists[i].subLists[k] == i;
      SelfNeverEnds(lists, i, depth - 1);
      NoneStaysNone(lists, i, k, |lists[i].subLists|, depth);
    }
  }

  lemma {:induction false} NoneStaysNone(lists: seq<LootList>, i: nat, k: nat, n: nat, depth: nat)
    requires PointsBack(lists) && i < |lists| && k < n <= |lists[i].subLists| && depth > 0 && lists[i].subLists[k] < |lists|
    requires FlattenedWithin(lists, lists[i].subLists[k], depth - 1).None?
    ensures BelowWithin(lists, i, n, depth).None?
  {
    if k < n - 1 {
      NoneStaysNone(lists, i, k, n - 1, depth);
    }
  }

  /** Every list of a file can be flattened if and only if no list that is kept names itself. */
  lemma FlatteningEnds(tables: Tables, lists: seq<LootList>, keys: seq<Key>, unusual: bool)
    requires WellOrdered(lists)
    ensures PointsBack(WithKeys(tables, lists, keys, unusual))
    ensures (forall i: nat :: i < |WithKeys(tables, lists, keys, unusual)| ==> Ends(WithKeys(tables, lists, keys, unusual), i))
      <==> NoneNamesItself(tables, lists, keys, unusual)
  {
    hide WithKeys, NoneNamesItself, FlattenedWithin;
    var parsed := WithKeys(tables, lists, keys, unusual);
    KeysKeepOrder(tables, lists, keys, unusual);
    if WellOrdered(parsed) {
      forall i: nat | i < |parsed|
        ensures Ends(parsed, i)
      {
        OrderedEnds(parsed, i, i + 1);
      }
    } else {
      var i: nat :| i < |parsed| && !PointsBefore(parsed[i], i);
      assert i in parsed[i].subLists by {
        var s :| s in parsed[i].subLists && s >= i;
      }
      forall depth: nat
        ensures FlattenedWithin(parsed, i, depth).None?
      {
        SelfNeverEnds(parsed, i, depth);
      }
      assert !Ends(parsed, i);
    }
  }
}
