/**
 What an equip request does to who is in which slot, stated slot by slot without the
 item and default-equip containers: an independent reading of EquipItem.
 */
module LoadoutMeaning {
  import opened Prelude
  import opened Items
  import opened Loadout
  import opened LoadoutTheorems

  /** What can be in a slot. */
  datatype Holder = Unique(id: uint64) | Definition(def: uint32)

  ghost predicate In(l: Loadout, h: Holder, c: uint32, s: uint32) {
    match h
    case Unique(id) => Occupies(l, id, c, s)
    case Definition(def) => exists d <- l.defaults :: d.itemDefinition == def && Key(d) == (c, s)
  }

  function HolderOf(itemId: uint64): Holder {
    if IsDefaultItemId(itemId) then Definition(DefaultDefIndex(itemId)) else Unique(itemId)
  }

  /** The definition asked for is in another slot of the class, and is swapped with the slot's holder. */
  ghost predicate SwapFrom(l: Loadout, r: Request, previous: uint32) {
    r.swap && previous != r.slotId && In(l, HolderOf(r.itemId), r.classId, previous)
  }

  /** Who is in slot `s` of class `c` after the request. */
  ghost predicate Expected(l: Loadout, r: Request, h: Holder, c: uint32, s: uint32) {
    var asked := HolderOf(r.itemId);
    if c != r.classId then In(l, h, c, s)
    else if r.slotId == SLOT_UNEQUIP then In(l, h, c, s) && h != asked
    else if r.itemId == 0 then In(l, h, c, s) && s != r.slotId
    else if asked.Unique? && asked.id !in l.items then In(l, h, c, s)
    else if h == asked then s == r.slotId
    else if asked.Definition? && SwapFrom(l, r, s) && In(l, h, c, r.slotId) then true
    else In(l, h, c, s) && s != r.slotId
  }

  lemma InWithout(l: Loadout, w: Which, h: Holder, c: uint32, s: uint32)
    requires w.InSlot? || w.OfDefinition?
    ensures h.Definition? ==>
      (In(l.(defaults := Without(l.defaults, w)), h, c, s)
       <==> In(l, h, c, s) && !(if w.InSlot? then (c, s) == (w.classId, w.slotId) else h.def == w.def && c == w.classId))
  {
    WithoutMembers(l.defaults, w);
  }

  lemma VacateMeaning(l: Loadout, c0: uint32, s0: uint32, h: Holder, c: uint32, s: uint32)
    ensures In(Vacated(l, c0, s0), h, c, s) <==> In(l, h, c, s) && (c, s) != (c0, s0)
  {
    match h
    case Unique(id) => TakenOutMembers(l, c0, s0);
    case Definition(_) => InWithout(l, InSlot(c0, s0), h, c, s);
  }

  lemma UnequipMeaning(l: Loadout, r: Request, h: Holder, c: uint32, s: uint32)
    requires Valid(l) && r.slotId == SLOT_UNEQUIP
    ensures In(Equip(l, 0, r).after, h, c, s) <==> Expected(l, r, h, c, s)
  {
    if IsDefaultItemId(r.itemId) {
      InWithout(l, OfDefinition(DefaultDefIndex(r.itemId), r.classId), h, c, s);
    } else if r.itemId in l.items {
      WithoutClassMembers(l.items[r.itemId].equipped, r.classId);
      SlotForClassMeaning(l.items[r.itemId].equipped, r.classId);
    }
  }

  lemma EquipUniqueMeaning(l: Loadout, id: uint64, c0: uint32, s0: uint32, h: Holder, c: uint32, s: uint32)
    requires id in l.items
    ensures In(EquipUnique(l, id, c0, s0).after, h, c, s) <==>
      if c == c0 && h == Unique(id) then s == s0 else In(l, h, c, s) && (c, s) != (c0, s0)
  {
    var l1 := Vacated(l, c0, s0);
    VacateMeaning(l, c0, s0, h, c, s);
    PutInMembers(l1.items[id], c0, s0);
  }

  /** Dropping the definition's entries and appending its new one. */
  lemma FinishMeaning(l1: Loadout, accountId: uint32, def: uint32, c0: uint32, s0: uint32, h: Holder, c: uint32, s: uint32)
    ensures var w := OfDefinition(def, c0);
      var after := l1.(defaults := Without(l1.defaults, w) + [Target(l1.defaults, accountId, def, c0, s0)]);
      In(after, h, c, s) <==> if c == c0 && h == Definition(def) then s == s0 else In(l1, h, c, s)
  {
    var w, t := OfDefinition(def, c0), Target(l1.defaults, accountId, def, c0, s0);
    var es := Without(l1.defaults, w);
    TargetShape(l1.defaults, accountId, def, c0, s0);
    InWithout(l1, w, h, c, s);
    assert forall d :: d in es + [t] <==> d in es || d == t;
    assert t in es + [t];
  }

  lemma DefinitionSlot(l: Loadout, def: uint32, c: uint32, s: uint32)
    requires Valid(l)
    ensures var i := FirstPicked(l.defaults, OfDefinition(def, c));
      In(l, Definition(def), c, s) <==> i < |l.defaults| && l.defaults[i].slotId == s
  {
    var i := FirstPicked(l.defaults, OfDefinition(def, c));
    if i < |l.defaults| {
      assert l.defaults[i] in l.defaults;
    }
    forall d | d in l.defaults && Picks(OfDefinition(def, c), d)
      ensures i < |l.defaults| && d == l.defaults[i]
    {
      var x :| 0 <= x < |l.defaults| && l.defaults[x] == d;
    }
  }

  lemma SoleHolder(l: Loadout, h: Holder, k: Holder, c: uint32, s: uint32)
    requires Valid(l) && In(l, h, c, s) && In(l, k, c, s)
    ensures h == k
  {
    if h.Unique? && k.Unique? {
      assert Equipped(c, s) in l.items[h.id].equipped && Equipped(c, s) in l.items[k.id].equipped;
    } else if h.Definition? && k.Definition? {
      var d :| d in l.defaults && d.itemDefinition == h.def && Key(d) == (c, s);
      var e :| e in l.defaults && e.itemDefinition == k.def && Key(e) == (c, s);
      var x :| 0 <= x < |l.defaults| && l.defaults[x] == d;
      var y :| 0 <= y < |l.defaults| && l.defaults[y] == e;
    }
  }

  /** Making room by a swap: the slot's holder goes where the definition was. */
  lemma SwapMeaning(l: Loadout, def: uint32, c0: uint32, s0: uint32, h: Holder, c: uint32, s: uint32)
    requires Valid(l) && Swaps(l, def, c0, s0, true) && h != Definition(def)
    ensures In(MakeRoom(l, def, c0, s0, true).0.after, h, c, s) <==>
      if c != c0 then In(l, h, c, s)
      else (In(l, h, c, s) && s != s0) || (s == PreviousSlot(l, def, c0) && In(l, h, c0, s0))
  {
    var previous, j := PreviousSlot(l, def, c0), FirstPicked(l.defaults, OthersInSlot(def, c0, s0));
    if Occupant(l, c0, s0).Some? {
      ItemSwapMeaning(l, Occupant(l, c0, s0).value, c0, s0, previous, h, c, s);
    } else if j < |l.defaults| {
      DefaultSwapMeaning(l, j, previous, h, c, s);
    } else {
      VacateMeaning(l, c0, s0, h, c, s);
    }
  }

  lemma ItemSwapMeaning(l: Loadout, id: uint64, c0: uint32, s0: uint32, previous: uint32, h: Holder, c: uint32, s: uint32)
    requires Valid(l) && Occupies(l, id, c0, s0) && previous != s0
    ensures In(l.(items := l.items[id := PutIn(l.items[id], c0, previous)]), h, c, s) <==>
      if c != c0 then In(l, h, c, s)
      else (In(l, h, c, s) && s != s0) || (s == previous && In(l, h, c0, s0))
  {
    PutInMembers(l.items[id], c0, previous);
    SlotForClassMeaning(l.items[id].equipped, c0);
    if In(l, h, c0, s0) {
      SoleHolder(l, h, Unique(id), c0, s0);
    }
    assert In(l, Unique(id), c0, s0);
  }

  lemma DefaultSwapMeaning(l: Loadout, j: nat, previous: uint32, h: Holder, c: uint32, s: uint32)
    requires Valid(l) && j < |l.defaults| && previous != l.defaults[j].slotId
    ensures var d := l.defaults[j];
      In(l.(defaults := l.defaults[j := d.(slotId := previous)]), h, c, s) <==>
        if c != d.classId then In(l, h, c, s)
        else (In(l, h, c, s) && s != d.slotId) || (s == previous && In(l, h, d.classId, d.slotId))
  {
    var d := l.defaults[j];
    var es := l.defaults[j := d.(slotId := previous)];
    assert d in l.defaults && In(l, Definition(d.itemDefinition), d.classId, d.slotId);
    if In(l, h, d.classId, d.slotId) {
      SoleHolder(l, h, Definition(d.itemDefinition), d.classId, d.slotId);
    }
    if h.Unique? {
      assert !In(l, h, d.classId, d.slotId);
    } else {
      UniqueEntry(l.defaults, j);
      forall e | e in l.defaults && e != d
        ensures e in es
      {
        var x :| 0 <= x < |l.defaults| && l.defaults[x] == e;
        assert es[x] == e;
      }
      assert es[j] == d.(slotId := previous);
      forall e | e in es && e != es[j]
        ensures e in l.defaults && e != d
      {
        var x :| 0 <= x < |es| && es[x] == e;
        assert l.defaults[x] == e;
      }
    }
  }

  lemma EquipDefaultMeaning(l: Loadout, accountId: uint32, r: Request, h: Holder, c: uint32, s: uint32)
    requires Valid(l) && r.slotId != SLOT_UNEQUIP && IsDefaultItemId(r.itemId)
    ensures In(Equip(l, accountId, r).after, h, c, s) <==> Expected(l, r, h, c, s)
  {
    var def, c0, s0 := DefaultDefIndex(r.itemId), r.classId, r.slotId;
    var l1 := MakeRoom(l, def, c0, s0, r.swap).0.after;
    FinishMeaning(l1, accountId, def, c0, s0, h, c, s);
    DefinitionSlot(l, def, c0, s);
    if Swaps(l, def, c0, s0, r.swap) {
      DefinitionSlot(l, def, c0, PreviousSlot(l, def, c0));
      if h != Definition(def) {
        SwapMeaning(l, def, c0, s0, h, c, s);
      } else {
        SwapKeepsOtherClasses(l, def, c0, s0, c, s);
      }
    } else {
      VacateMeaning(l, c0, s0, h, c, s);
    }
  }

  lemma SwapKeepsOtherClasses(l: Loadout, def: uint32, c0: uint32, s0: uint32, c: uint32, s: uint32)
    requires Valid(l) && Swaps(l, def, c0, s0, true)
    ensures c != c0 ==>
      (In(MakeRoom(l, def, c0, s0, true).0.after, Definition(def), c, s) <==> In(l, Definition(def), c, s))
  {
    var j := FirstPicked(l.defaults, OthersInSlot(def, c0, s0));
    if Occupant(l, c0, s0).None? {
      if j < |l.defaults| {
        DefaultSwapMeaning(l, j, PreviousSlot(l, def, c0), Definition(def), c, s);
      } else {
        VacateMeaning(l, c0, s0, Definition(def), c, s);
      }
    }
  }

  /**
   For every valid loadout, request, class and slot: the slot's holder after EquipItem is
   the expected one.  In particular a swap moves the displaced holder to the slot that was
   left, an item equipped in a slot leaves its old one, and other classes keep theirs.
   */
  lemma EquipMeetsExpectation(l: Loadout, accountId: uint32, r: Request, h: Holder, c: uint32, s: uint32)
    requires Valid(l)
    ensures In(Equip(l, accountId, r).after, h, c, s) <==> Expected(l, r, h, c, s)
  {
    if r.slotId == SLOT_UNEQUIP {
      UnequipMeaning(l, r, h, c, s);
    } else if r.itemId == 0 {
      VacateMeaning(l, r.classId, r.slotId, h, c, s);
    } else if IsDefaultItemId(r.itemId) {
      EquipDefaultMeaning(l, accountId, r, h, c, s);
    } else if r.itemId in l.items {
      EquipUniqueMeaning(l, r.itemId, r.classId, r.slotId, h, c, s);
    }
  }

  // --------------------------------------------------- everything but the slots

  /** Whatever is equipped, no item comes or goes, and of each only the slots change. */
  lemma EquipLeavesItems(l: Loadout, accountId: uint32, r: Request)
    ensures Equip(l, accountId, r).after.items.Keys == l.items.Keys
    ensures forall id <- l.items :: SameButEquipped(l.items[id], Equip(l, accountId, r).after.items[id])
  {
    hide VacateDelta, Clearing, Target, Moved, Vacated, MakeRoom;
    VacatedLeavesItems(l, r.classId, r.slotId);
    RoomLeavesItems(l, DefaultDefIndex(r.itemId), r.classId, r.slotId, r.swap);
  }

  lemma RoomLeavesItems(l: Loadout, def: uint32, c: uint32, s: uint32, swap: bool)
    ensures var after := MakeRoom(l, def, c, s, swap).0.after.items;
      after.Keys == l.items.Keys && forall id <- l.items :: SameButEquipped(l.items[id], after[id])
  {
    hide VacateDelta, Vacated;
    VacatedLeavesItems(l, c, s);
  }

  predicate SameButEquipped(before: Item, after: Item) {
    after == before.(equipped := after.equipped)
  }

  lemma VacatedLeavesItems(l: Loadout, c: uint32, s: uint32)
    ensures Vacated(l, c, s).items.Keys == l.items.Keys
    ensures forall id <- l.items :: SameButEquipped(l.items[id], Vacated(l, c, s).items[id])
  {
  }

  /** An entry that was there, in this slot or another. */
  ghost predicate Kept(defaults: seq<DefaultEquip>, d: DefaultEquip) {
    exists e <- defaults :: d == e.(slotId := d.slotId)
  }

  /** The entry that was asked for, which was there at most in the same slot. */
  ghost predicate Fresh(defaults: seq<DefaultEquip>, accountId: uint32, r: Request, d: DefaultEquip) {
    && IsDefaultItemId(r.itemId) && d == DefaultEquip(accountId, DefaultDefIndex(r.itemId), r.classId, r.slotId)
    && forall e <- defaults :: Picks(OfDefinition(d.itemDefinition, d.classId), e) ==> e.slotId == d.slotId
  }

  /** A default entry that stays or moves keeps its account, and a new one has the inventory's. */
  lemma EquipLeavesAccounts(l: Loadout, accountId: uint32, r: Request)
    ensures forall d <- Equip(l, accountId, r).after.defaults :: Kept(l.defaults, d) || Fresh(l.defaults, accountId, r, d)
  {
    forall d | d in Equip(l, accountId, r).after.defaults
      ensures Kept(l.defaults, d) || Fresh(l.defaults, accountId, r, d)
    {
      WithoutMembers(l.defaults, OfDefinition(DefaultDefIndex(r.itemId), r.classId));
      WithoutMembers(l.defaults, InSlot(r.classId, r.slotId));
      if r.slotId != SLOT_UNEQUIP && r.itemId != 0 && IsDefaultItemId(r.itemId) {
        DefaultLeavesAccounts(l, accountId, r, d);
      } else {
        assert d in l.defaults && d == d.(slotId := d.slotId);
      }
    }
  }

  lemma RoomLeavesAccounts(l: Loadout, def: uint32, c: uint32, s: uint32, swap: bool, d: DefaultEquip)
    requires d in MakeRoom(l, def, c, s, swap).0.after.defaults
    ensures Kept(l.defaults, d)
  {
    WithoutMembers(l.defaults, InSlot(c, s));
    if d in l.defaults {
      assert d == d.(slotId := d.slotId);
    } else {
      var j := FirstPicked(l.defaults, OthersInSlot(def, c, s));
      assert l.defaults[j] in l.defaults && d == l.defaults[j].(slotId := d.slotId);
    }
  }

  lemma DefaultLeavesAccounts(l: Loadout, accountId: uint32, r: Request, d: DefaultEquip)
    requires r.slotId != SLOT_UNEQUIP && r.itemId != 0 && IsDefaultItemId(r.itemId)
    requires d in Equip(l, accountId, r).after.defaults
    ensures Kept(l.defaults, d) || Fresh(l.defaults, accountId, r, d)
  {
    var def, c, s := DefaultDefIndex(r.itemId), r.classId, r.slotId;
    var l1 := MakeRoom(l, def, c, s, r.swap).0.after;
    WithoutMembers(l1.defaults, OfDefinition(def, c));
    if d in l1.defaults {
      RoomLeavesAccounts(l, def, c, s, r.swap, d);
    } else {
      assert d == Target(l1.defaults, accountId, def, c, s);
      match LastPicked(l1.defaults, OfDefinition(def, c))
      case Some(e) =>
        LastIsIn(l1.defaults, OfDefinition(def, c));
        RoomLeavesAccounts(l, def, c, s, r.swap, e);
      case None =>
        NoneLeft(l, def, c, s, r.swap);
    }
  }

  lemma {:induction false} LastIsIn(es: seq<DefaultEquip>, w: Which)
    ensures LastPicked(es, w).Some? ==> LastPicked(es, w).value in es
    ensures LastPicked(es, w).None? ==> forall e <- es :: !Picks(w, e)
    decreases |es|
  {
    if es != [] {
      assert es == es[..|es| - 1] + [es[|es| - 1]];
      LastIsIn(es[..|es| - 1], w);
    }
  }

  lemma OthersStay(l: Loadout, def: uint32, c: uint32, s: uint32, swap: bool, e: DefaultEquip)
    requires e in l.defaults && Picks(OfDefinition(def, c), e) && e.slotId != s
    ensures e in MakeRoom(l, def, c, s, swap).0.after.defaults
  {
    WithoutMembers(l.defaults, InSlot(c, s));
    var x :| 0 <= x < |l.defaults| && l.defaults[x] == e;
    var j := FirstPicked(l.defaults, OthersInSlot(def, c, s));
    if j < |l.defaults| {
      var moved := l.defaults[j].(slotId := l.defaults[FirstPicked(l.defaults, OfDefinition(def, c))].slotId);
      assert l.defaults[j := moved][x] == e;
    }
  }

  lemma NoneLeft(l: Loadout, def: uint32, c: uint32, s: uint32, swap: bool)
    requires LastPicked(MakeRoom(l, def, c, s, swap).0.after.defaults, OfDefinition(def, c)).None?
    ensures forall e <- l.defaults :: Picks(OfDefinition(def, c), e) ==> e.slotId == s
  {
    hide MakeRoom, Picks;
    var after := MakeRoom(l, def, c, s, swap).0.after.defaults;
    forall e | e in l.defaults && Picks(OfDefinition(def, c), e) && e.slotId != s
      ensures e in after
    {
      OthersStay(l, def, c, s, swap, e);
    }
    LastIsIn(after, OfDefinition(def, c));
  }
}
