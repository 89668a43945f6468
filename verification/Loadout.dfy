/**
 The loadout: which item or default definition occupies each slot of each class, the
 equip operation on it, and the ordered delta that operation publishes
 (inventory.cpp, EquipItem and its helpers).
 */
module Loadout {
  import opened Prelude
  import opened Items

  datatype Loadout = Loadout(items: map<uint64, Item>, defaults: seq<DefaultEquip>)

  // ------------------------------------------------------ equipped entries

  function WithoutClass(es: seq<Equipped>, c: uint32): seq<Equipped> {
    if es == [] then []
    else if es[0].classId == c then WithoutClass(es[1..], c)
    else [es[0]] + WithoutClass(es[1..], c)
  }

  function WithoutSlot(es: seq<Equipped>, e: Equipped): seq<Equipped> {
    if es == [] then []
    else if es[0] == e then WithoutSlot(es[1..], e)
    else [es[0]] + WithoutSlot(es[1..], e)
  }

  /** The slot of the first entry of the class. */
  function SlotForClass(es: seq<Equipped>, c: uint32): Option<uint32> {
    if es == [] then None
    else if es[0].classId == c then Some(es[0].slotId)
    else SlotForClass(es[1..], c)
  }

  function PutIn(item: Item, c: uint32, s: uint32): Item {
    item.(equipped := WithoutClass(item.equipped, c) + [Equipped(c, s)])
  }

  function TakenOut(item: Item, c: uint32, s: uint32): Item {
    item.(equipped := WithoutSlot(item.equipped, Equipped(c, s)))
  }

  // -------------------------------------------------------- default equips

  /** Which default equips a loop over them is looking for. */
  datatype Which =
    | InSlot(classId: uint32, slotId: uint32)
    | OfDefinition(def: uint32, classId: uint32)
    | OthersInSlot(def: uint32, classId: uint32, slotId: uint32)

  predicate Picks(w: Which, e: DefaultEquip) {
    match w
    case InSlot(c, s) => e.classId == c && e.slotId == s
    case OfDefinition(def, c) => e.itemDefinition == def && e.classId == c
    case OthersInSlot(def, c, s) => e.classId == c && e.slotId == s && e.itemDefinition != def
  }

  /** The entries that are not picked. */
  function Without(es: seq<DefaultEquip>, w: Which): seq<DefaultEquip> {
    if es == [] then []
    else (if Picks(w, es[0]) then [] else [es[0]]) + Without(es[1..], w)
  }

  function Cleared(e: DefaultEquip): SharedObject {
    DefaultEquipObject(e.(itemDefinition := 0))
  }

  /** The objects that clear the picked entries, in order. */
  function Clearing(es: seq<DefaultEquip>, w: Which): seq<SharedObject> {
    if es == [] then []
    else (if Picks(w, es[0]) then [Cleared(es[0])] else []) + Clearing(es[1..], w)
  }

  function FirstPicked(es: seq<DefaultEquip>, w: Which): (i: nat)
    ensures i <= |es|
    ensures i < |es| ==> Picks(w, es[i])
    ensures forall j :: 0 <= j < i ==> !Picks(w, es[j])
  {
    if es == [] || Picks(w, es[0]) then 0 else 1 + FirstPicked(es[1..], w)
  }

  lemma {:induction false} NonePicked(es: seq<DefaultEquip>, w: Which)
    ensures (forall d <- es :: !Picks(w, d)) ==> Without(es, w) == es && Clearing(es, w) == []
  {
    if es != [] {
      NonePicked(es[1..], w);
    }
  }

  // ------------------------------------------------------------- invariant

  predicate OneSlotPerClass(es: seq<Equipped>) {
    forall i, j :: 0 <= i < j < |es| ==> es[i].classId != es[j].classId
  }

  function Key(d: DefaultEquip): SlotKey {
    (d.classId, d.slotId)
  }

  predicate UniqueKeys(es: seq<DefaultEquip>) {
    forall i, j :: 0 <= i < j < |es| ==> Key(es[i]) != Key(es[j])
  }

  predicate UniqueDefinitions(es: seq<DefaultEquip>) {
    forall i, j :: 0 <= i < j < |es| ==> !Picks(OfDefinition(es[j].itemDefinition, es[j].classId), es[i])
  }

  /** The items are stored under their own id and have at most one slot per class. */
  predicate ItemsValid(items: map<uint64, Item>) {
    forall id <- items :: items[id].id == id && OneSlotPerClass(items[id].equipped)
  }

  /** No two items share a slot. */
  ghost predicate ItemsApart(items: map<uint64, Item>) {
    forall a <- items, b <- items, e :: e in items[a].equipped && e in items[b].equipped ==> a == b
  }

  /** No default definition is in a slot that an item is in. */
  predicate DefaultsApart(items: map<uint64, Item>, defaults: seq<DefaultEquip>) {
    forall d <- defaults, a <- items :: Equipped(d.classId, d.slotId) !in items[a].equipped
  }

  /**
   Every slot of every class has at most one occupant, an item has at most one slot per
   class and a definition is a default at most once per class.
   */
  ghost predicate Valid(l: Loadout) {
    && ItemsValid(l.items)
    && ItemsApart(l.items)
    && UniqueKeys(l.defaults)
    && UniqueDefinitions(l.defaults)
    && DefaultsApart(l.items, l.defaults)
  }

  /** The item in a slot. */
  ghost predicate Occupies(l: Loadout, id: uint64, c: uint32, s: uint32) {
    id in l.items && Equipped(c, s) in l.items[id].equipped
  }

  ghost function Occupant(l: Loadout, c: uint32, s: uint32): (o: Option<uint64>)
    ensures o.Some? ==> Occupies(l, o.value, c, s)
    ensures o.None? ==> forall id :: !Occupies(l, id, c, s)
  {
    if exists id :: Occupies(l, id, c, s) then
      var id :| Occupies(l, id, c, s);
      Some(id)
    else None
  }

  // ------------------------------------------------------------ operations

  /** A loadout together with the objects published on the way to it. */
  datatype Change = Change(after: Loadout, delta: seq<SharedObject>)

  /** UnequipSlotForClass. */
  function Vacated(l: Loadout, c: uint32, s: uint32): Loadout {
    Loadout(map id | id in l.items :: TakenOut(l.items[id], c, s), Without(l.defaults, InSlot(c, s)))
  }

  lemma VacatedKeys(l: Loadout, c: uint32, s: uint32)
    ensures Vacated(l, c, s).items.Keys == l.items.Keys
  {
  }

  ghost function VacateDelta(l: Loadout, c: uint32, s: uint32): seq<SharedObject> {
    (match Occupant(l, c, s)
     case None => []
     case Some(id) => [ItemObject(TakenOut(l.items[id], c, s))])
    + Clearing(l.defaults, InSlot(c, s))
  }

  ghost function Vacate(l: Loadout, c: uint32, s: uint32): Change {
    Change(Vacated(l, c, s), VacateDelta(l, c, s))
  }

  /** UnequipItemForClass for a definition in the default range. */
  function UnequipDefault(l: Loadout, def: uint32, c: uint32): Change {
    Change(l.(defaults := Without(l.defaults, OfDefinition(def, c))), Clearing(l.defaults, OfDefinition(def, c)))
  }

  /** UnequipItemForClass for an item. */
  function UnequipUnique(l: Loadout, id: uint64, c: uint32): Change {
    if id !in l.items || SlotForClass(l.items[id].equipped, c).None? then Change(l, [])
    else
      var item := l.items[id].(equipped := WithoutClass(l.items[id].equipped, c));
      Change(l.(items := l.items[id := item]), [ItemObject(item)])
  }

  /** EquipItem for an item. */
  ghost function EquipUnique(l: Loadout, id: uint64, c: uint32, s: uint32): Change
    requires id in l.items
  {
    var l1 := Vacated(l, c, s);
    var item := PutIn(l1.items[id], c, s);
    Change(l1.(items := l1.items[id := item]), VacateDelta(l, c, s) + [ItemObject(item)])
  }

  /**
   What the slot's occupant becomes before a default definition takes the slot: a swap
   moves an item, or another default, to the slot the definition leaves.  The moved
   default is published later, by the caller.
   */
  ghost function MakeRoom(l: Loadout, def: uint32, c: uint32, s: uint32, swap: bool)
    : (Change, Option<DefaultEquip>)
  {
    var i := FirstPicked(l.defaults, OfDefinition(def, c));
    if swap && i < |l.defaults| && l.defaults[i].slotId != s then
      var previous := l.defaults[i].slotId;
      match Occupant(l, c, s)
      case Some(id) =>
        var item := PutIn(l.items[id], c, previous);
        (Change(l.(items := l.items[id := item]), [ItemObject(item)]), None)
      case None =>
        var j := FirstPicked(l.defaults, OthersInSlot(def, c, s));
        if j < |l.defaults| then
          var moved := l.defaults[j].(slotId := previous);
          (Change(l.(defaults := l.defaults[j := moved]), [Cleared(l.defaults[j])]), Some(moved))
        else (Vacate(l, c, s), None)
    else (Vacate(l, c, s), None)
  }

  function Moved(moved: Option<DefaultEquip>): seq<SharedObject> {
    if moved.None? then [] else [DefaultEquipObject(moved.value)]
  }

  function LastPicked(es: seq<DefaultEquip>, w: Which): (d: Option<DefaultEquip>)
    ensures d.Some? ==> Picks(w, d.value)
    decreases |es|
  {
    if es == [] then None
    else if Picks(w, es[|es| - 1]) then Some(es[|es| - 1])
    else LastPicked(es[..|es| - 1], w)
  }

  /** The entry that goes into the slot: the one the definition had, or a new one. */
  function Target(es: seq<DefaultEquip>, accountId: uint32, def: uint32, c: uint32, s: uint32): DefaultEquip {
    match LastPicked(es, OfDefinition(def, c))
    case None => DefaultEquip(accountId, def, c, s)
    case Some(d) => d.(slotId := s)
  }

  /** EquipItem for a definition in the default range. */
  ghost function EquipDefault(l: Loadout, accountId: uint32, def: uint32, c: uint32, s: uint32, swap: bool): Change {
    var (room, moved) := MakeRoom(l, def, c, s, swap);
    var l1 := room.after;
    var target := Target(l1.defaults, accountId, def, c, s);
    Change(l1.(defaults := Without(l1.defaults, OfDefinition(def, c)) + [target]),
           room.delta + Clearing(l1.defaults, OfDefinition(def, c)) + Moved(moved) + [DefaultEquipObject(target)])
  }

  datatype Request = Request(itemId: uint64, classId: uint32, slotId: uint32, swap: bool)

  /** EquipItem. */
  ghost function Equip(l: Loadout, accountId: uint32, r: Request): Change {
    if r.slotId == SLOT_UNEQUIP then
      if IsDefaultItemId(r.itemId) then UnequipDefault(l, DefaultDefIndex(r.itemId), r.classId)
      else UnequipUnique(l, r.itemId, r.classId)
    else if r.itemId == 0 then Vacate(l, r.classId, r.slotId)
    else if IsDefaultItemId(r.itemId) then
      EquipDefault(l, accountId, DefaultDefIndex(r.itemId), r.classId, r.slotId, r.swap)
    else if r.itemId in l.items then EquipUnique(l, r.itemId, r.classId, r.slotId)
    else Change(l, [])
  }

  /** What EquipItem returns. */
  predicate Changes(l: Loadout, r: Request) {
    if r.slotId == SLOT_UNEQUIP then
      if IsDefaultItemId(r.itemId) then exists d <- l.defaults :: Picks(OfDefinition(DefaultDefIndex(r.itemId), r.classId), d)
      else r.itemId in l.items && SlotForClass(l.items[r.itemId].equipped, r.classId).Some?
    else r.itemId == 0 || IsDefaultItemId(r.itemId) || r.itemId in l.items
  }

  /** The snapshot a fresh subscription would give. */
  function Snapshot(l: Loadout): Cache {
    Cache(l.items, DefaultsOf(l.defaults))
  }
}
