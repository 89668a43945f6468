/**
 Every equip request keeps the loadout valid, and replaying the objects it publishes on a
 client's cache gives exactly the snapshot of the new loadout.
 */
module LoadoutTheorems {
  import opened Prelude
  import opened Items
  import opened Loadout

  // ------------------------------------------------------ filtered sequences

  lemma {:induction false} WithoutMembers(es: seq<DefaultEquip>, w: Which)
    ensures forall d :: d in Without(es, w) <==> d in es && !Picks(w, d)
  {
    if es != [] {
      WithoutMembers(es[1..], w);
      assert forall d :: d in es <==> d == es[0] || d in es[1..];
    }
  }

  lemma {:induction false} WithoutKeepsUnique(es: seq<DefaultEquip>, w: Which)
    ensures UniqueKeys(es) ==> UniqueKeys(Without(es, w))
    ensures UniqueDefinitions(es) ==> UniqueDefinitions(Without(es, w))
  {
    if es != [] {
      var rest := Without(es[1..], w);
      WithoutKeepsUnique(es[1..], w);
      WithoutMembers(es[1..], w);
      if UniqueKeys(es) {
        UniqueKeysCons(es[0], es[1..]);
        if !Picks(w, es[0]) {
          UniqueKeysCons(es[0], rest);
        }
      }
      if UniqueDefinitions(es) {
        UniqueDefinitionsCons(es[0], es[1..]);
        if !Picks(w, es[0]) {
          UniqueDefinitionsCons(es[0], rest);
        }
      }
    }
  }

  lemma UniqueKeysCons(d: DefaultEquip, es: seq<DefaultEquip>)
    ensures UniqueKeys([d] + es) <==> UniqueKeys(es) && forall e <- es :: Key(e) != Key(d)
  {
    var all := [d] + es;
    if UniqueKeys(all) {
      forall i, j | 0 <= i < j < |es|
        ensures Key(es[i]) != Key(es[j])
      {
        assert all[i + 1] == es[i] && all[j + 1] == es[j];
      }
      forall e | e in es
        ensures Key(e) != Key(d)
      {
        var j :| 0 <= j < |es| && es[j] == e;
        assert all[0] == d && all[j + 1] == e;
      }
    }
  }

  lemma UniqueDefinitionsCons(d: DefaultEquip, es: seq<DefaultEquip>)
    ensures UniqueDefinitions([d] + es)
      <==> UniqueDefinitions(es) && forall e <- es :: !Picks(OfDefinition(e.itemDefinition, e.classId), d)
  {
    var all := [d] + es;
    if UniqueDefinitions(all) {
      forall i, j | 0 <= i < j < |es|
        ensures !Picks(OfDefinition(es[j].itemDefinition, es[j].classId), es[i])
      {
        assert all[i + 1] == es[i] && all[j + 1] == es[j];
      }
      forall e | e in es
        ensures !Picks(OfDefinition(e.itemDefinition, e.classId), d)
      {
        var j :| 0 <= j < |es| && es[j] == e;
        assert all[0] == d && all[j + 1] == e;
      }
    }
  }

  lemma {:induction false} WithoutClassMembers(es: seq<Equipped>, c: uint32)
    ensures forall e :: e in WithoutClass(es, c) <==> e in es && e.classId != c
    ensures OneSlotPerClass(es) ==> OneSlotPerClass(WithoutClass(es, c))
    ensures SlotForClass(es, c).None? ==> WithoutClass(es, c) == es
  {
    if es != [] {
      WithoutClassMembers(es[1..], c);
      assert forall e :: e in es <==> e == es[0] || e in es[1..];
      if OneSlotPerClass(es) && es[0].classId != c {
        OneSlotCons(es[0], es[1..]);
        OneSlotCons(es[0], WithoutClass(es[1..], c));
      }
    }
  }

  lemma {:induction false} WithoutSlotMembers(es: seq<Equipped>, x: Equipped)
    ensures forall e :: e in WithoutSlot(es, x) <==> e in es && e != x
    ensures OneSlotPerClass(es) ==> OneSlotPerClass(WithoutSlot(es, x))
    ensures x !in es ==> WithoutSlot(es, x) == es
  {
    if es != [] {
      WithoutSlotMembers(es[1..], x);
      assert forall e :: e in es <==> e == es[0] || e in es[1..];
      if OneSlotPerClass(es) && es[0] != x {
        OneSlotCons(es[0], es[1..]);
        OneSlotCons(es[0], WithoutSlot(es[1..], x));
      }
    }
  }

  lemma OneSlotCons(x: Equipped, es: seq<Equipped>)
    ensures OneSlotPerClass([x] + es) ==> OneSlotPerClass(es)
    ensures OneSlotPerClass([x] + es) ==> forall e <- es :: e.classId != x.classId
    ensures OneSlotPerClass(es) && (forall e <- es :: e.classId != x.classId) ==> OneSlotPerClass([x] + es)
  {
    var all := [x] + es;
    if OneSlotPerClass(all) {
      forall i, j | 0 <= i < j < |es|
        ensures es[i].classId != es[j].classId
      {
        assert all[i + 1] == es[i] && all[j + 1] == es[j];
      }
      forall e | e in es
        ensures e.classId != x.classId
      {
        var j :| 0 <= j < |es| && es[j] == e;
        assert all[0] == x && all[j + 1] == e;
      }
    }
  }

  lemma {:induction false} SlotForClassMeaning(es: seq<Equipped>, c: uint32)
    ensures SlotForClass(es, c).Some? ==> Equipped(c, SlotForClass(es, c).value) in es
    ensures SlotForClass(es, c).None? ==> forall e <- es :: e.classId != c
    ensures OneSlotPerClass(es) ==> forall s: uint32 :: Equipped(c, s) in es <==> SlotForClass(es, c) == Some(s)
  {
    if es != [] {
      SlotForClassMeaning(es[1..], c);
      assert [es[0]] + es[1..] == es;
      OneSlotCons(es[0], es[1..]);
      assert forall e :: e in es <==> e == es[0] || e in es[1..];
    }
  }

  lemma PutInMembers(item: Item, c: uint32, s: uint32)
    ensures var es := PutIn(item, c, s).equipped;
      && (forall e :: e in es <==> e == Equipped(c, s) || (e in item.equipped && e.classId != c))
      && (OneSlotPerClass(item.equipped) ==> OneSlotPerClass(es))
  {
    var kept := WithoutClass(item.equipped, c);
    WithoutClassMembers(item.equipped, c);
    var es := kept + [Equipped(c, s)];
    if OneSlotPerClass(item.equipped) {
      forall i, j | 0 <= i < j < |es|
        ensures es[i].classId != es[j].classId
      {
        if j == |kept| {
          assert es[i] == kept[i] && kept[i] in kept;
        }
      }
    }
  }

  // ------------------------------------------------- the defaults in a cache

  lemma LastKeyIsNew(es: seq<DefaultEquip>)
    requires UniqueKeys(es) && es != []
    ensures UniqueKeys(es[..|es| - 1]) && forall d <- es[..|es| - 1] :: Key(d) != Key(es[|es| - 1])
  {
    var init := es[..|es| - 1];
    forall d | d in init
      ensures Key(d) != Key(es[|es| - 1])
    {
      var i :| 0 <= i < |init| && init[i] == d;
      assert es[i] == d;
    }
  }

  lemma {:induction false} DefaultsKept(es: seq<DefaultEquip>)
    requires UniqueKeys(es)
    ensures forall d <- es :: d.itemDefinition != 0 ==>
      Key(d) in DefaultsOf(es) && DefaultsOf(es)[Key(d)] == d.itemDefinition
    decreases |es|
  {
    if es != [] {
      LastKeyIsNew(es);
      hide UniqueKeys;
      var n := |es| - 1;
      DefaultsKept(es[..n]);
      assert es == es[..n] + [es[n]];
    }
  }

  lemma {:induction false} DefaultsFrom(es: seq<DefaultEquip>)
    ensures forall k <- DefaultsOf(es) :: exists d <- es :: Key(d) == k && d.itemDefinition != 0
    decreases |es|
  {
    if es != [] {
      var n := |es| - 1;
      var init, last := es[..n], es[n];
      DefaultsFrom(init);
      assert es == init + [last];
      forall k | k in DefaultsOf(es)
        ensures exists d <- es :: Key(d) == k && d.itemDefinition != 0
      {
        if k == Key(last) {
          assert last in es;
        } else {
          assert k in DefaultsOf(init);
          var d :| d in init && Key(d) == k && d.itemDefinition != 0;
          assert d in es;
        }
      }
    }
  }

  /** On entries with different keys the cache holds each non-zero definition under its key, and nothing else. */
  lemma DefaultsLookup(es: seq<DefaultEquip>)
    requires UniqueKeys(es)
    ensures forall d <- es :: d.itemDefinition != 0 ==>
      Key(d) in DefaultsOf(es) && DefaultsOf(es)[Key(d)] == d.itemDefinition
    ensures forall k <- DefaultsOf(es) :: exists d <- es :: Key(d) == k && d.itemDefinition != 0
  {
    hide UniqueKeys, DefaultsOf;
    DefaultsKept(es);
    DefaultsFrom(es);
  }

  lemma DefaultsAre(es: seq<DefaultEquip>, m: map<SlotKey, uint32>)
    requires UniqueKeys(es)
    requires forall d <- es :: d.itemDefinition != 0 ==> Key(d) in m && m[Key(d)] == d.itemDefinition
    requires forall k <- m :: exists d <- es :: Key(d) == k && d.itemDefinition != 0
    ensures DefaultsOf(es) == m
  {
    DefaultsLookup(es);
    forall k | k in m || k in DefaultsOf(es)
      ensures k in m && k in DefaultsOf(es) && m[k] == DefaultsOf(es)[k]
    {
      var d :| d in es && Key(d) == k && d.itemDefinition != 0;
    }
    assert m.Keys == DefaultsOf(es).Keys;
  }

  function PickedKeys(es: seq<DefaultEquip>, w: Which): set<SlotKey> {
    set d | d in es && Picks(w, d) :: Key(d)
  }

  /** Clearing the picked entries removes their keys from the cache and nothing else. */
  lemma {:induction false} ReplayClearing(cache: Cache, es: seq<DefaultEquip>, w: Which)
    ensures Replay(cache, Clearing(es, w)) == cache.(defaults := cache.defaults - PickedKeys(es, w))
    decreases |es|
  {
    if es == [] {
      assert cache.defaults - {} == cache.defaults;
    } else {
      var rest := PickedKeys(es[1..], w);
      if Picks(w, es[0]) {
        assert PickedKeys(es, w) == {Key(es[0])} + rest;
        var next := cache.(defaults := cache.defaults - {Key(es[0])});
        assert Clearing(es, w) == [Cleared(es[0])] + Clearing(es[1..], w);
        ReplayClearing(next, es[1..], w);
        assert cache.defaults - {Key(es[0])} - rest == cache.defaults - ({Key(es[0])} + rest);
      } else {
        assert PickedKeys(es, w) == rest;
        assert Clearing(es, w) == [] + Clearing(es[1..], w) == Clearing(es[1..], w);
        ReplayClearing(cache, es[1..], w);
      }
    }
  }

  lemma DefaultsWithout(es: seq<DefaultEquip>, w: Which)
    requires UniqueKeys(es)
    ensures DefaultsOf(Without(es, w)) == DefaultsOf(es) - PickedKeys(es, w)
  {
    var m := DefaultsOf(es) - PickedKeys(es, w);
    WithoutMembers(es, w);
    WithoutKeepsUnique(es, w);
    DefaultsLookup(es);
    forall d | d in Without(es, w) && d.itemDefinition != 0
      ensures Key(d) in m && m[Key(d)] == d.itemDefinition
    {
      forall e | e in es && Picks(w, e)
        ensures Key(e) != Key(d)
      {
        var i :| 0 <= i < |es| && es[i] == e;
        var j :| 0 <= j < |es| && es[j] == d;
      }
    }
    forall k | k in m
      ensures exists d <- Without(es, w) :: Key(d) == k && d.itemDefinition != 0
    {
      var d :| d in es && Key(d) == k && d.itemDefinition != 0;
      assert !Picks(w, d);
    }
    DefaultsAre(Without(es, w), m);
  }

  lemma ReplayOne(cache: Cache, so: SharedObject)
    ensures Replay(cache, [so]) == Apply(cache, so)
  {
    assert [so][1..] == [];
  }

  // -------------------------------------------------------- vacating a slot

  /** A change publishes what a client needs, and leaves a valid loadout. */
  ghost predicate Faithful(l: Loadout, ch: Change) {
    Valid(ch.after) && Replay(Snapshot(l), ch.delta) == Snapshot(ch.after)
  }

  lemma TakenOutMembers(l: Loadout, c: uint32, s: uint32)
    ensures forall id <- l.items :: forall e ::
      e in TakenOut(l.items[id], c, s).equipped <==> e in l.items[id].equipped && e != Equipped(c, s)
    ensures forall id <- l.items :: !Occupies(l, id, c, s) ==> TakenOut(l.items[id], c, s) == l.items[id]
    ensures forall id <- l.items :: OneSlotPerClass(l.items[id].equipped) ==>
      OneSlotPerClass(TakenOut(l.items[id], c, s).equipped)
  {
    forall id | id in l.items
      ensures forall e :: e in TakenOut(l.items[id], c, s).equipped <==> e in l.items[id].equipped && e != Equipped(c, s)
      ensures !Occupies(l, id, c, s) ==> TakenOut(l.items[id], c, s) == l.items[id]
      ensures OneSlotPerClass(l.items[id].equipped) ==> OneSlotPerClass(TakenOut(l.items[id], c, s).equipped)
    {
      WithoutSlotMembers(l.items[id].equipped, Equipped(c, s));
    }
  }

  lemma VacateIsValid(l: Loadout, c: uint32, s: uint32)
    requires Valid(l)
    ensures Valid(Vacated(l, c, s))
    ensures forall id :: !Occupies(Vacated(l, c, s), id, c, s)
    ensures forall d <- Vacated(l, c, s).defaults :: d in l.defaults && Key(d) != (c, s)
  {
    TakenOutMembers(l, c, s);
    WithoutMembers(l.defaults, InSlot(c, s));
    WithoutKeepsUnique(l.defaults, InSlot(c, s));
  }

  lemma VacateReplays(l: Loadout, c: uint32, s: uint32)
    requires Valid(l)
    ensures Replay(Snapshot(l), VacateDelta(l, c, s)) == Snapshot(Vacated(l, c, s))
  {
    var o := Occupant(l, c, s);
    var first := match o case None => [] case Some(id) => [ItemObject(TakenOut(l.items[id], c, s))];
    var cache := Replay(Snapshot(l), first);
    TakenOutMembers(l, c, s);
    assert cache.defaults == DefaultsOf(l.defaults) && cache.items == Vacated(l, c, s).items by {
      if o.Some? {
        var id := o.value;
        assert forall a <- l.items :: a != id ==> !Occupies(l, a, c, s) by {
          assert Equipped(c, s) in l.items[id].equipped;
        }
        ReplayOne(Snapshot(l), ItemObject(TakenOut(l.items[id], c, s)));
        assert TakenOut(l.items[id], c, s).id == id;
        assert l.items[id := TakenOut(l.items[id], c, s)] == Vacated(l, c, s).items;
      } else {
        assert l.items == Vacated(l, c, s).items;
      }
    }
    ReplayJoin(Snapshot(l), first, Clearing(l.defaults, InSlot(c, s)));
    ReplayClearing(cache, l.defaults, InSlot(c, s));
    DefaultsWithout(l.defaults, InSlot(c, s));
  }

  lemma VacateIsFaithful(l: Loadout, c: uint32, s: uint32)
    requires Valid(l)
    ensures Faithful(l, Vacate(l, c, s))
  {
    VacateIsValid(l, c, s);
    VacateReplays(l, c, s);
  }

  // ---------------------------------------------------------- unequipping

  lemma UnequipDefaultIsFaithful(l: Loadout, def: uint32, c: uint32)
    requires Valid(l)
    ensures Faithful(l, UnequipDefault(l, def, c))
  {
    WithoutMembers(l.defaults, OfDefinition(def, c));
    WithoutKeepsUnique(l.defaults, OfDefinition(def, c));
    ReplayClearing(Snapshot(l), l.defaults, OfDefinition(def, c));
    DefaultsWithout(l.defaults, OfDefinition(def, c));
  }

  /** Replacing one item by a version with fewer slots is faithful. */
  lemma UnequipUniqueIsFaithful(l: Loadout, id: uint64, c: uint32)
    requires Valid(l)
    ensures Faithful(l, UnequipUnique(l, id, c))
  {
    if id in l.items && SlotForClass(l.items[id].equipped, c).Some? {
      WithoutClassMembers(l.items[id].equipped, c);
      var ch := UnequipUnique(l, id, c);
      ReplayOne(Snapshot(l), ch.delta[0]);
      assert Valid(ch.after);
    }
  }

  // ------------------------------------------------------------- equipping

  /** Putting an item into a slot nobody is in. */
  lemma PutInIsValid(l: Loadout, id: uint64, c: uint32, s: uint32)
    requires Valid(l) && id in l.items
    requires forall a :: !Occupies(l, a, c, s)
    requires forall d <- l.defaults :: Key(d) != (c, s)
    ensures Valid(l.(items := l.items[id := PutIn(l.items[id], c, s)]))
  {
    PutInMembers(l.items[id], c, s);
    var items := l.items[id := PutIn(l.items[id], c, s)];
    forall other, e | other in l.items && other != id && e in items[id].equipped
      ensures e !in l.items[other].equipped
    {
      assert e == Equipped(c, s) ==> !Occupies(l, other, c, s);
    }
  }

  lemma EquipUniqueIsFaithful(l: Loadout, id: uint64, c: uint32, s: uint32)
    requires Valid(l) && id in l.items
    ensures Faithful(l, EquipUnique(l, id, c, s))
  {
    var l1 := Vacated(l, c, s);
    VacateIsFaithful(l, c, s);
    VacateIsValid(l, c, s);
    PutInIsValid(l1, id, c, s);
    var last := [ItemObject(PutIn(l1.items[id], c, s))];
    ReplayJoin(Snapshot(l), VacateDelta(l, c, s), last);
    ReplayOne(Snapshot(l1), last[0]);
  }

  // -------------------------------------- equipping a default definition

  lemma TargetShape(es: seq<DefaultEquip>, accountId: uint32, def: uint32, c: uint32, s: uint32)
    ensures var t := Target(es, accountId, def, c, s); Key(t) == (c, s) && t.itemDefinition == def
  {
  }

  /** The definition itself is in no other entry, so it can be appended in a free slot. */
  lemma AppendTarget(items: map<uint64, Item>, es: seq<DefaultEquip>, t: DefaultEquip)
    requires Valid(Loadout(items, es))
    requires forall e <- es :: Key(e) != Key(t) && !Picks(OfDefinition(t.itemDefinition, t.classId), e)
    requires forall a <- items :: Equipped(t.classId, t.slotId) !in items[a].equipped
    ensures Valid(Loadout(items, es + [t]))
    ensures DefaultsOf(es + [t]) == ApplyDefault(DefaultsOf(es), t)
  {
    var all := es + [t];
    assert all[..|all| - 1] == es;
    forall i, j | 0 <= i < j < |all|
      ensures Key(all[i]) != Key(all[j]) && !Picks(OfDefinition(all[j].itemDefinition, all[j].classId), all[i])
    {
      assert all[i] == es[i] && all[i] in es;
      if j < |es| {
        assert all[j] == es[j];
      }
    }
  }

  ghost predicate SlotFree(l: Loadout, c: uint32, s: uint32) {
    (forall d <- l.defaults :: Key(d) != (c, s)) && forall a :: !Occupies(l, a, c, s)
  }

  /** Once the slot is free, the entries of the definition are cleared and its new entry published. */
  lemma FinishReplays(l1: Loadout, def: uint32, c: uint32, t: DefaultEquip)
    requires UniqueKeys(l1.defaults)
    ensures Replay(Snapshot(l1), Clearing(l1.defaults, OfDefinition(def, c)) + [DefaultEquipObject(t)])
         == Cache(l1.items, ApplyDefault(DefaultsOf(Without(l1.defaults, OfDefinition(def, c))), t))
  {
    var w := OfDefinition(def, c);
    ReplayJoin(Snapshot(l1), Clearing(l1.defaults, w), [DefaultEquipObject(t)]);
    ReplayClearing(Snapshot(l1), l1.defaults, w);
    DefaultsWithout(l1.defaults, w);
    ReplayOne(Replay(Snapshot(l1), Clearing(l1.defaults, w)), DefaultEquipObject(t));
  }

  /** The common end of the branches that do not move a default. */
  lemma FinishIsFaithful(l: Loadout, l1: Loadout, delta: seq<SharedObject>, accountId: uint32, def: uint32, c: uint32, s: uint32)
    requires UniqueKeys(l1.defaults) && SlotFree(l1, c, s)
    requires Valid(l1.(defaults := Without(l1.defaults, OfDefinition(def, c))))
    requires Replay(Snapshot(l), delta) == Snapshot(l1)
    ensures var w, t := OfDefinition(def, c), Target(l1.defaults, accountId, def, c, s);
      Faithful(l, Change(l1.(defaults := Without(l1.defaults, w) + [t]),
                         delta + Clearing(l1.defaults, w) + Moved(None) + [DefaultEquipObject(t)]))
  {
    var w, t := OfDefinition(def, c), Target(l1.defaults, accountId, def, c, s);
    var end := Clearing(l1.defaults, w) + [DefaultEquipObject(t)];
    FinishIsValid(l1, w, accountId, s);
    FinishReplays(l1, def, c, t);
    ReplayJoin(Snapshot(l), delta, end);
    assert delta + Clearing(l1.defaults, w) + Moved(None) + [DefaultEquipObject(t)] == delta + end;
  }

  lemma FinishIsValid(l1: Loadout, w: Which, accountId: uint32, s: uint32)
    requires w.OfDefinition? && SlotFree(l1, w.classId, s)
    requires Valid(l1.(defaults := Without(l1.defaults, w)))
    ensures var es, t := Without(l1.defaults, w), Target(l1.defaults, accountId, w.def, w.classId, s);
      Valid(l1.(defaults := es + [t])) && DefaultsOf(es + [t]) == ApplyDefault(DefaultsOf(es), t)
  {
    var t := Target(l1.defaults, accountId, w.def, w.classId, s);
    TargetShape(l1.defaults, accountId, w.def, w.classId, s);
    WithoutMembers(l1.defaults, w);
    forall a | a in l1.items
      ensures Equipped(w.classId, s) !in l1.items[a].equipped
    {
      assert !Occupies(l1, a, w.classId, s);
    }
    AppendTarget(l1.items, Without(l1.defaults, w), t);
  }

  predicate Swaps(l: Loadout, def: uint32, c: uint32, s: uint32, swap: bool) {
    var i := FirstPicked(l.defaults, OfDefinition(def, c));
    swap && i < |l.defaults| && l.defaults[i].slotId != s
  }

  /** The slot the definition leaves in a swap. */
  function PreviousSlot(l: Loadout, def: uint32, c: uint32): uint32
    requires FirstPicked(l.defaults, OfDefinition(def, c)) < |l.defaults|
  {
    l.defaults[FirstPicked(l.defaults, OfDefinition(def, c))].slotId
  }

  lemma EquipDefaultInFreedSlot(l: Loadout, accountId: uint32, def: uint32, c: uint32, s: uint32, swap: bool)
    requires Valid(l)
    requires MakeRoom(l, def, c, s, swap) == (Vacate(l, c, s), None)
    ensures Faithful(l, EquipDefault(l, accountId, def, c, s, swap))
  {
    var l1 := Vacated(l, c, s);
    VacateIsFaithful(l, c, s);
    VacateIsValid(l, c, s);
    WithoutMembers(l1.defaults, OfDefinition(def, c));
    WithoutKeepsUnique(l1.defaults, OfDefinition(def, c));
    FinishIsFaithful(l, l1, VacateDelta(l, c, s), accountId, def, c, s);
  }

  /** An item moved to the slot the definition leaves has that slot to itself. */
  lemma MovedItemIsApart(l: Loadout, id: uint64, def: uint32, c: uint32, s: uint32, items: map<uint64, Item>)
    requires Valid(l) && Swaps(l, def, c, s, true) && Occupies(l, id, c, s)
    requires items == l.items[id := PutIn(l.items[id], c, PreviousSlot(l, def, c))]
    ensures ItemsValid(items) && ItemsApart(items)
    ensures DefaultsApart(items, Without(l.defaults, OfDefinition(def, c)))
    ensures SlotFree(Loadout(items, l.defaults), c, s)
  {
    var i := FirstPicked(l.defaults, OfDefinition(def, c));
    var d0, previous := l.defaults[i], PreviousSlot(l, def, c);
    PutInMembers(l.items[id], c, previous);
    WithoutMembers(l.defaults, OfDefinition(def, c));
    assert d0 in l.defaults && Key(d0) == (c, previous);
    forall other, e | other in l.items && other != id && e in items[id].equipped
      ensures e !in l.items[other].equipped
    {
      assert e == Equipped(c, previous) ==> e !in l.items[other].equipped;
    }
    forall d | d in l.defaults && !Picks(OfDefinition(def, c), d)
      ensures Equipped(d.classId, d.slotId) !in items[id].equipped
    {
      var k :| 0 <= k < |l.defaults| && l.defaults[k] == d;
      assert Key(l.defaults[k]) != Key(l.defaults[i]);
    }
    forall a
      ensures !Occupies(Loadout(items, l.defaults), a, c, s)
    {
      assert Equipped(c, s) in l.items[id].equipped;
    }
  }

  lemma EquipDefaultMovingItem(l: Loadout, accountId: uint32, def: uint32, c: uint32, s: uint32)
    requires Valid(l) && Swaps(l, def, c, s, true) && Occupant(l, c, s).Some?
    ensures Faithful(l, EquipDefault(l, accountId, def, c, s, true))
  {
    var id := Occupant(l, c, s).value;
    var item := PutIn(l.items[id], c, PreviousSlot(l, def, c));
    var l1 := l.(items := l.items[id := item]);
    assert MakeRoom(l, def, c, s, true) == (Change(l1, [ItemObject(item)]), None);
    MovedItemIsApart(l, id, def, c, s, l1.items);
    WithoutKeepsUnique(l.defaults, OfDefinition(def, c));
    ReplayOne(Snapshot(l), ItemObject(item));
    FinishIsFaithful(l, l1, [ItemObject(item)], accountId, def, c, s);
  }

  /** Updating a kept entry and dropping others commute. */
  lemma {:induction false} WithoutUpdate(es: seq<DefaultEquip>, j: nat, e: DefaultEquip, w: Which) returns (k: nat)
    requires j < |es| && !Picks(w, es[j]) && !Picks(w, e)
    ensures k < |Without(es, w)| && Without(es, w)[k] == es[j]
    ensures Without(es[j := e], w) == Without(es, w)[k := e]
  {
    if j == 0 {
      assert es[0 := e][1..] == es[1..];
      k := 0;
    } else {
      assert es[j := e][1..] == es[1..][j - 1 := e];
      k := WithoutUpdate(es[1..], j - 1, e, w);
      k := if Picks(w, es[0]) then k else k + 1;
    }
  }

  /** The default entry at the target slot, moved to the slot the definition leaves. */
  lemma MovedDefaultEntries(l: Loadout, def: uint32, c: uint32, s: uint32, j: nat, moved: DefaultEquip, es: seq<DefaultEquip>)
    requires Valid(l) && Swaps(l, def, c, s, true) && Occupant(l, c, s).None?
    requires j == FirstPicked(l.defaults, OthersInSlot(def, c, s)) < |l.defaults|
    requires moved == l.defaults[j].(slotId := PreviousSlot(l, def, c))
    requires es == Without(l.defaults[j := moved], OfDefinition(def, c))
    ensures Valid(Loadout(l.items, es))
    ensures forall e <- es :: Key(e) != (c, s) && !Picks(OfDefinition(def, c), e)
    ensures forall e :: e in es <==>
      (e == moved || (e in l.defaults && e != l.defaults[j] && !Picks(OfDefinition(def, c), e)))
  {
    hide Without, ItemsApart, ItemsValid;
    var w := OfDefinition(def, c);
    var i := FirstPicked(l.defaults, w);
    var kept := Without(l.defaults, w);
    var k := WithoutUpdate(l.defaults, j, moved, w);
    WithoutMembers(l.defaults, w);
    WithoutKeepsUnique(l.defaults, w);
    assert l.defaults[i] in l.defaults && Key(l.defaults[i]) == Key(moved);
    forall e | e in kept
      ensures Key(e) != Key(moved)
    {
      var x :| 0 <= x < |l.defaults| && l.defaults[x] == e;
      assert Key(l.defaults[x]) != Key(l.defaults[i]);
    }
    ReplaceEntry(l.items, kept, k, moved);
    UniqueEntry(kept, k);
  }

  lemma UniqueEntry(es: seq<DefaultEquip>, k: nat)
    requires UniqueKeys(es) && k < |es|
    ensures forall e <- es :: e != es[k] ==> Key(e) != Key(es[k])
  {
  }

  /** A default entry takes another slot that is free. */
  lemma ReplaceEntry(items: map<uint64, Item>, es: seq<DefaultEquip>, k: nat, moved: DefaultEquip)
    requires Valid(Loadout(items, es)) && k < |es|
    requires moved == es[k].(slotId := moved.slotId) && forall e <- es :: Key(e) != Key(moved)
    requires forall a <- items :: Equipped(moved.classId, moved.slotId) !in items[a].equipped
    ensures Valid(Loadout(items, es[k := moved]))
    ensures forall e :: e in es[k := moved] <==> (e == moved || (e in es && e != es[k]))
  {
    var es' := es[k := moved];
    assert es'[k] == moved;
    forall e | e in es && e != es[k]
      ensures e in es'
    {
      var x :| 0 <= x < |es| && es[x] == e;
      assert es'[x] == e;
    }
    forall x | 0 <= x < |es| && x != k
      ensures es'[x] == es[x] && es[x] != es[k] && es[x] in es
    {
    }
  }

  lemma MovedDefaultPicked(l: Loadout, def: uint32, c: uint32, s: uint32, j: nat, moved: DefaultEquip)
    requires Valid(l) && Swaps(l, def, c, s, true)
    requires j == FirstPicked(l.defaults, OthersInSlot(def, c, s)) < |l.defaults|
    requires moved == l.defaults[j].(slotId := PreviousSlot(l, def, c))
    ensures PickedKeys(l.defaults[j := moved], OfDefinition(def, c)) == {(c, PreviousSlot(l, def, c))}
  {
    var w := OfDefinition(def, c);
    var i, es := FirstPicked(l.defaults, w), l.defaults[j := moved];
    assert es[i] == l.defaults[i] && es[i] in es;
    forall d | d in es && Picks(w, d)
      ensures d == es[i]
    {
      var x :| 0 <= x < |es| && es[x] == d;
      assert l.defaults[x] == d;
    }
    assert Key(es[i]) == (c, PreviousSlot(l, def, c));
  }

  /** An entry other than the two the swap moves keeps its key and its place in the cache. */
  lemma UnmovedEntries(ds: seq<DefaultEquip>, i: nat, j: nat)
    requires UniqueKeys(ds) && i < |ds| && j < |ds|
    ensures forall d <- ds :: d != ds[i] && d != ds[j] ==> Key(d) != Key(ds[i]) && Key(d) != Key(ds[j])
  {
    forall d | d in ds && d != ds[i] && d != ds[j]
      ensures Key(d) != Key(ds[i]) && Key(d) != Key(ds[j])
    {
      var x :| 0 <= x < |ds| && ds[x] == d;
    }
  }

  lemma MovedDefaultCache(l: Loadout, def: uint32, c: uint32, s: uint32, j: nat, moved: DefaultEquip, es: seq<DefaultEquip>)
    requires Valid(l) && Swaps(l, def, c, s, true) && Occupant(l, c, s).None?
    requires j == FirstPicked(l.defaults, OthersInSlot(def, c, s)) < |l.defaults|
    requires moved == l.defaults[j].(slotId := PreviousSlot(l, def, c))
    requires es == Without(l.defaults[j := moved], OfDefinition(def, c))
    ensures DefaultsOf(es)
      == ApplyDefault(DefaultsOf(l.defaults) - {(c, s)} - {(c, PreviousSlot(l, def, c))}, moved)
  {
    hide Without, DefaultsOf, ItemsApart, ItemsValid, DefaultsApart;
    var i := FirstPicked(l.defaults, OfDefinition(def, c));
    MovedDefaultEntries(l, def, c, s, j, moved, es);
    UnmovedEntries(l.defaults, i, j);
    forall e | e in l.defaults && Picks(OfDefinition(def, c), e)
      ensures e == l.defaults[i]
    {
      var x :| 0 <= x < |l.defaults| && l.defaults[x] == e;
    }
    assert Key(l.defaults[i]) == (c, PreviousSlot(l, def, c)) && Key(l.defaults[j]) == (c, s);
    SwappedCache(l.defaults, i, j, moved, es);
  }

  /** Entries i and j leave their slots and `moved` is added: what the cache holds then. */
  lemma SwappedCache(ds: seq<DefaultEquip>, i: nat, j: nat, moved: DefaultEquip, es: seq<DefaultEquip>)
    requires UniqueKeys(ds) && UniqueKeys(es) && i < |ds| && j < |ds|
    requires forall d <- ds :: d != ds[i] && d != ds[j] ==> Key(d) != Key(ds[i]) && Key(d) != Key(ds[j])
    requires Key(moved) == Key(ds[i])
    requires forall e :: e in es <==> (e == moved || (e in ds && e != ds[j] && e != ds[i]))
    ensures DefaultsOf(es) == ApplyDefault(DefaultsOf(ds) - {Key(ds[j])} - {Key(ds[i])}, moved)
  {
    var m := ApplyDefault(DefaultsOf(ds) - {Key(ds[j])} - {Key(ds[i])}, moved);
    DefaultsLookup(ds);
    forall k | k in m
      ensures exists d <- es :: Key(d) == k && d.itemDefinition != 0
    {
      if k != Key(moved) {
        var d :| d in ds && Key(d) == k && d.itemDefinition != 0;
        assert d in es;
      } else {
        assert moved in es;
      }
    }
    DefaultsAre(es, m);
  }

  lemma EquipDefaultMovingDefault(l: Loadout, accountId: uint32, def: uint32, c: uint32, s: uint32)
    requires Valid(l) && Swaps(l, def, c, s, true) && Occupant(l, c, s).None?
    requires FirstPicked(l.defaults, OthersInSlot(def, c, s)) < |l.defaults|
    ensures Faithful(l, EquipDefault(l, accountId, def, c, s, true))
  {
    var w, j := OfDefinition(def, c), FirstPicked(l.defaults, OthersInSlot(def, c, s));
    var previous := PreviousSlot(l, def, c);
    var moved := l.defaults[j].(slotId := previous);
    var l1 := l.(defaults := l.defaults[j := moved]);
    var es, t := Without(l1.defaults, w), Target(l1.defaults, accountId, def, c, s);
    assert MakeRoom(l, def, c, s, true) == (Change(l1, [Cleared(l.defaults[j])]), Some(moved));
    MovedDefaultEntries(l, def, c, s, j, moved, es);
    MovedDefaultCache(l, def, c, s, j, moved, es);
    TargetShape(l1.defaults, accountId, def, c, s);
    forall a | a in l.items
      ensures Equipped(c, s) !in l.items[a].equipped
    {
      assert !Occupies(l, a, c, s);
    }
    AppendTarget(l.items, es, t);
    MovedDefaultPicked(l, def, c, s, j, moved);
    ReplayMove(l, j, l1.defaults, w, moved, t);
  }

  /** The four kinds of object a swap of two defaults publishes, in order. */
  lemma ReplayMove(l: Loadout, j: nat, es: seq<DefaultEquip>, w: Which, moved: DefaultEquip, t: DefaultEquip)
    requires j < |l.defaults|
    ensures Replay(Snapshot(l), [Cleared(l.defaults[j])] + Clearing(es, w) + Moved(Some(moved)) + [DefaultEquipObject(t)])
      == Cache(l.items, ApplyDefault(ApplyDefault(
           DefaultsOf(l.defaults) - {Key(l.defaults[j])} - PickedKeys(es, w), moved), t))
  {
    var a, b := [Cleared(l.defaults[j])], Clearing(es, w);
    var x, y := [DefaultEquipObject(moved)], [DefaultEquipObject(t)];
    ReplayOne(Snapshot(l), a[0]);
    ReplayJoin(Snapshot(l), a, b);
    ReplayClearing(Replay(Snapshot(l), a), es, w);
    ReplayJoin(Snapshot(l), a + b, x);
    ReplayOne(Replay(Snapshot(l), a + b), x[0]);
    ReplayJoin(Snapshot(l), a + b + x, y);
    ReplayOne(Replay(Snapshot(l), a + b + x), y[0]);
  }

  lemma EquipDefaultIsFaithful(l: Loadout, accountId: uint32, def: uint32, c: uint32, s: uint32, swap: bool)
    requires Valid(l)
    ensures Faithful(l, EquipDefault(l, accountId, def, c, s, swap))
  {
    if !Swaps(l, def, c, s, swap) {
      EquipDefaultInFreedSlot(l, accountId, def, c, s, swap);
    } else if Occupant(l, c, s).Some? {
      EquipDefaultMovingItem(l, accountId, def, c, s);
    } else if FirstPicked(l.defaults, OthersInSlot(def, c, s)) < |l.defaults| {
      EquipDefaultMovingDefault(l, accountId, def, c, s);
    } else {
      EquipDefaultInFreedSlot(l, accountId, def, c, s, swap);
    }
  }

  // ------------------------------------------------------------ main results

  /**
   For every valid loadout and every equip request: the new loadout is valid, and the
   published objects, replayed in order, turn the old snapshot into the new one.
   */
  lemma DeltaReplaysToSnapshot(l: Loadout, accountId: uint32, r: Request)
    requires Valid(l)
    ensures Valid(Equip(l, accountId, r).after)
    ensures Replay(Snapshot(l), Equip(l, accountId, r).delta) == Snapshot(Equip(l, accountId, r).after)
  {
    if r.slotId == SLOT_UNEQUIP {
      if IsDefaultItemId(r.itemId) {
        UnequipDefaultIsFaithful(l, DefaultDefIndex(r.itemId), r.classId);
      } else {
        UnequipUniqueIsFaithful(l, r.itemId, r.classId);
      }
    } else if r.itemId == 0 {
      VacateIsFaithful(l, r.classId, r.slotId);
    } else if IsDefaultItemId(r.itemId) {
      EquipDefaultIsFaithful(l, accountId, DefaultDefIndex(r.itemId), r.classId, r.slotId, r.swap);
    } else if r.itemId in l.items {
      EquipUniqueIsFaithful(l, r.itemId, r.classId, r.slotId);
    }
  }

  ghost function RunEquips(l: Loadout, accountId: uint32, rs: seq<Request>): Change
    decreases rs
  {
    if rs == [] then Change(l, [])
    else
      var first := Equip(l, accountId, rs[0]);
      var others := RunEquips(first.after, accountId, rs[1..]);
      Change(others.after, first.delta + others.delta)
  }

  /** A client that only ever sees the deltas of a run holds the inventory's snapshot at its end. */
  lemma {:induction false} RunReplaysToSnapshot(l: Loadout, accountId: uint32, rs: seq<Request>)
    requires Valid(l)
    ensures Valid(RunEquips(l, accountId, rs).after)
    ensures Replay(Snapshot(l), RunEquips(l, accountId, rs).delta) == Snapshot(RunEquips(l, accountId, rs).after)
    decreases rs
  {
    if rs != [] {
      var first := Equip(l, accountId, rs[0]);
      DeltaReplaysToSnapshot(l, accountId, rs[0]);
      RunReplaysToSnapshot(first.after, accountId, rs[1..]);
      ReplayJoin(Snapshot(l), first.delta, RunEquips(first.after, accountId, rs[1..]).delta);
    }
  }
}
