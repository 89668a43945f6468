/**
 Opening a sealed graffiti: it gives way to a spray that is equipped at once, and gets its
 number of uses only after that (inventory.cpp, the last branch of UseItem).
 */
module Sprays {
  import opened Prelude
  import opened Items
  import opened Loadout
  import opened LoadoutTheorems
  import opened ItemSchema
  import opened ItemIds
  import opened InventoryState
  import Persisted
  import LoadoutMeaning

  const SPRAYS: uint32 := 50

  predicate IsSpray(schema: Schema, items: map<uint64, Item>, id: uint64) {
    && id in items && items[id].defIndex == ITEM_SPRAY
    && ITEM_SPRAY !in schema.tournamentAccess && ITEM_SPRAY !in schema.seasonPasses
  }

  /** The sealed graffiti has given way to a copy that is a spray. */
  ghost function Unsealed(m: Memory, accountId: uint32, id: uint64): Memory
    requires |m.items| < USABLE && id in m.items
  {
    Destroying(Adding(m, accountId, m.items[id].(defIndex := ITEM_SPRAY_PAINT)), id)
  }

  ghost function SprayRequest(m: Memory, accountId: uint32): Request
    requires |m.items| < USABLE
  {
    Request(NextId(m, accountId), 0, SLOT_GRAFFITI, false)
  }

  ghost function SprayEquip(m: Memory, accountId: uint32, id: uint64): Change
    requires |m.items| < USABLE && id in m.items
  {
    Equip(LoadoutOf(Unsealed(m, accountId, id)), accountId, SprayRequest(m, accountId))
  }

  function WithSprays(schema: Schema, item: Item): Item {
    item.(attributes := item.attributes + [WithNumber(schema, Attribute(ATTRIBUTE_SPRAYS_REMAINING, Unset), SPRAYS)])
  }

  ghost function Sprayed(schema: Schema, m: Memory, accountId: uint32, id: uint64): Memory
    requires |m.items| < USABLE && id in m.items
  {
    var made, ch := NextId(m, accountId), SprayEquip(m, accountId, id);
    Unsealed(m, accountId, id).(
      items := if made in ch.after.items then ch.after.items[made := WithSprays(schema, ch.after.items[made])] else ch.after.items,
      defaultEquips := ch.after.defaults,
      version := AdvancedBy(m.version, if ch.delta == [] then 1 else 2))
  }

  /** What is published: the sealed item goes, and the spray is equipped. */
  ghost predicate IsSprayResult(m: Memory, accountId: uint32, id: uint64, r: Persisted.UseItemResult)
    requires |m.items| < USABLE && id in m.items
  {
    && r.destroy == DestroyMessage(NextVersion(m.version), id)
    && r.itemData == r.operationData == NoObject && r.itemChange == r.operationChange == Persisted.NoChange
    && r.updateMultiple.objects == SprayEquip(m, accountId, id).delta
    && r.notified == [NextId(m, accountId)]
  }

  lemma UnsealedItems(m: Memory, accountId: uint32, id: uint64)
    requires |m.items| < USABLE && id in m.items
    ensures var u, made := Unsealed(m, accountId, id), NextId(m, accountId);
      && made !in m.items && made != id
      && u.items == (m.items - {id})[made := m.items[id].(id := made, accountId := accountId, defIndex := ITEM_SPRAY_PAINT)]
      && u.defaultEquips == m.defaultEquips
  {
    hide NextId;
    AddingItems(m, accountId, m.items[id].(defIndex := ITEM_SPRAY_PAINT));
  }

  /** The spray has the slots of the item it was made of. */
  lemma UnsealedIsValid(m: Memory, accountId: uint32, id: uint64)
    requires |m.items| < USABLE && id in m.items && Valid(LoadoutOf(m))
    ensures Valid(LoadoutOf(Unsealed(m, accountId, id)))
  {
    hide NextId, Unsealed;
    UnsealedItems(m, accountId, id);
    RenamedIsValid(LoadoutOf(m), id, NextId(m, accountId), LoadoutOf(Unsealed(m, accountId, id)));
  }

  lemma RenamedIsValid(l: Loadout, id: uint64, made: uint64, after: Loadout)
    requires Valid(l) && id in l.items && made !in l.items
    requires made in after.items && after.items[made].id == made && after.items[made].equipped == l.items[id].equipped
    requires after.items == (l.items - {id})[made := after.items[made]] && after.defaults == l.defaults
    ensures Valid(after)
  {
  }

  lemma RevaluedIsValid(l: Loadout, id: uint64, item: Item)
    requires Valid(l) && id in l.items && item.id == id && item.equipped == l.items[id].equipped
    ensures Valid(l.(items := l.items[id := item]))
  {
  }

  lemma SprayEquipIsValid(m: Memory, accountId: uint32, id: uint64)
    requires |m.items| < USABLE && id in m.items && Valid(LoadoutOf(m))
    ensures Valid(SprayEquip(m, accountId, id).after)
  {
    hide Valid, Equip, NextId, Unsealed;
    UnsealedIsValid(m, accountId, id);
    DeltaReplaysToSnapshot(LoadoutOf(Unsealed(m, accountId, id)), accountId, SprayRequest(m, accountId));
  }

  /** The spray is among the items afterwards. */
  lemma SprayStays(m: Memory, accountId: uint32, id: uint64)
    requires |m.items| < USABLE && id in m.items
    ensures NextId(m, accountId) in SprayEquip(m, accountId, id).after.items
  {
    hide NextId, Unsealed, VacateDelta, Vacated;
    UnsealedItems(m, accountId, id);
    NewIdIsFresh(m, accountId);
    VacatedKeys(LoadoutOf(Unsealed(m, accountId, id)), 0, SLOT_GRAFFITI);
  }

  lemma SprayedIsValid(schema: Schema, m: Memory, accountId: uint32, id: uint64)
    requires |m.items| < USABLE && id in m.items && Valid(LoadoutOf(m))
    ensures Valid(LoadoutOf(Sprayed(schema, m, accountId, id)))
  {
    hide Valid, Equip, NextId, Unsealed;
    var ch, made := SprayEquip(m, accountId, id), NextId(m, accountId);
    UnsealedIsValid(m, accountId, id);
    DeltaReplaysToSnapshot(LoadoutOf(Unsealed(m, accountId, id)), accountId, SprayRequest(m, accountId));
    if made in ch.after.items {
      ItemHasId(ch.after, made);
      RevaluedIsValid(ch.after, made, WithSprays(schema, ch.after.items[made]));
    }
  }

  lemma ItemHasId(l: Loadout, id: uint64)
    requires Valid(l) && id in l.items
    ensures l.items[id].id == id
  {
  }

  /** The spray takes the slot, and is the last that is published on the way there. */
  lemma SprayIsLast(m: Memory, accountId: uint32, id: uint64)
    requires |m.items| < USABLE && id in m.items && NextId(m, accountId) != 0
    ensures var ch, made := SprayEquip(m, accountId, id), NextId(m, accountId);
      && made in ch.after.items && ch.delta != []
      && ch.delta[|ch.delta| - 1] == ItemObject(ch.after.items[made])
      && Occupies(ch.after, made, 0, SLOT_GRAFFITI)
  {
    hide NextId, Unsealed, VacateDelta, Vacated;
    UnsealedItems(m, accountId, id);
    NewIdIsFresh(m, accountId);
    var u, made := LoadoutOf(Unsealed(m, accountId, id)), NextId(m, accountId);
    VacatedKeys(u, 0, SLOT_GRAFFITI);
    PutInTaken(Vacated(u, 0, SLOT_GRAFFITI).items[made], 0, SLOT_GRAFFITI);
  }

  lemma PutInTaken(item: Item, c: uint32, s: uint32)
    ensures Equipped(c, s) in PutIn(item, c, s).equipped
  {
  }

  /**
   The sealed graffiti is gone, a spray of definition 1349 with 50 uses is in the graffiti
   slot, and of the other items only the slots have changed.
   */
  lemma SprayedMeaning(schema: Schema, m: Memory, accountId: uint32, id: uint64)
    requires |m.items| < USABLE && IsSpray(schema, m.items, id) && NextId(m, accountId) != 0
    requires IsNumber(schema, 232)
    ensures var after, made := Sprayed(schema, m, accountId, id).items, NextId(m, accountId);
      && after.Keys == m.items.Keys - {id} + {made} && made !in m.items
      && after[made].defIndex == 1349 && after[made].accountId == accountId
      && Equipped(0, 56) in after[made].equipped
      && (var i := |after[made].attributes| - 1;
          i >= 0 && after[made].attributes[..i] == m.items[id].attributes && after[made].attributes[i].defIndex == 232
          && NumberOf(schema, after[made].attributes[i]) == 50)
      && forall other <- m.items :: other != id ==> after[other] == m.items[other].(equipped := after[other].equipped)
  {
    hide NextId, Unsealed, VacateDelta, Equip, Valid;
    UnsealedItems(m, accountId, id);
    SprayIsLast(m, accountId, id);
    LoadoutMeaning.EquipLeavesItems(LoadoutOf(Unsealed(m, accountId, id)), accountId, SprayRequest(m, accountId));
  }
}
