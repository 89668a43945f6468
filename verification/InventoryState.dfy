/**
 What the inventory holds in memory and in its file, and what its operations make of it
 (inventory.cpp).
 */
module InventoryState {
  import opened Prelude
  import opened Items
  import opened ItemSchema
  import Loadout
  import opened ItemIds

  /** Every in-memory field that operations change. */
  datatype Memory = Memory(
    items: map<uint64, Item>,
    defaultEquips: seq<DefaultEquip>,
    version: uint64,
    lastHighItemId: uint32,
    statsTimeInitiated: uint32,
    operations: map<uint32, SeasonalOperation>,
    eventFavorites: set<uint64>,
    playerLevel: int32,
    playerXp: int32)

  /** Items are stored under their own id. */
  predicate Keyed(items: map<uint64, Item>) {
    forall id <- items :: items[id].id == id
  }

  predicate HasDefinition(items: map<uint64, Item>, defIndex: uint32) {
    exists id <- items :: items[id].defIndex == defIndex
  }

  // ------------------------------------------------------------- the file

  /** The contents of inventory.txt. */
  datatype Image = Image(
    items: map<uint64, Item>,
    subscription: Option<uint32>,
    operations: map<uint32, SeasonalOperation>,
    defaultEquips: seq<(uint32, uint32, uint32)>,
    eventFavorites: set<uint64>,
    playerLevel: int32,
    playerXp: int32)

  function DefaultEntries(es: seq<DefaultEquip>): seq<(uint32, uint32, uint32)> {
    seq(|es|, i requires 0 <= i < |es| => (es[i].itemDefinition, es[i].classId, es[i].slotId))
  }

  /** What WriteToFile writes. */
  function ImageOf(m: Memory): Image {
    Image(m.items,
          if m.statsTimeInitiated != 0 && HasDefinition(m.items, ITEM_STATS_SUBSCRIPTION)
            then Some(m.statsTimeInitiated) else None,
          m.operations, DefaultEntries(m.defaultEquips), m.eventFavorites, m.playerLevel, m.playerXp)
  }

  // --------------------------------------------------- creating and destroying

  function ProbeStart(last: uint32, requested: uint32): uint32 {
    if requested == 0 then Successor(last) else requested
  }

  /** The high word AllocateItem settles on. */
  ghost function NextHigh(m: Memory, accountId: uint32, requested: uint32): uint32
    requires |m.items| < USABLE
  {
    FreshHigh(m.items.Keys, accountId, ProbeStart(m.lastHighItemId, requested))
  }

  ghost function NextId(m: Memory, accountId: uint32): uint64
    requires |m.items| < USABLE
  {
    ComposeItemId(accountId, NextHigh(m, accountId, 0))
  }

  function RaisedLast(last: uint32, requested: uint32, high: uint32): uint32 {
    var counted := if requested == 0 then Successor(last) else last;
    if high > counted then high else counted
  }

  ghost function Allocated(m: Memory, accountId: uint32, requested: uint32): Memory
    requires |m.items| < USABLE
  {
    var high := NextHigh(m, accountId, requested);
    var id := ComposeItemId(accountId, high);
    m.(items := m.items[id := EmptyItem(id, accountId)],
       lastHighItemId := RaisedLast(m.lastHighItemId, requested, high))
  }

  /** Adding one more item, made from the blank one that is allocated for it. */
  ghost function Adding(m: Memory, accountId: uint32, item: Item): Memory
    requires |m.items| < USABLE
  {
    var id := NextId(m, accountId);
    Allocated(m, accountId, 0).(items := m.items[id := item.(id := id, accountId := accountId)])
  }

  ghost function Creating(schema: Schema, m: Memory, accountId: uint32, defIndex: uint32, origin: uint32, unacknowledged: uint32): Memory
    requires |m.items| < USABLE && unacknowledged < 32
  {
    Adding(m, accountId, Created(schema, EmptyItem(0, accountId), defIndex, origin, unacknowledged))
  }

  function Destroying(m: Memory, id: uint64): Memory
    requires id in m.items
  {
    m.(items := m.items - {id},
       statsTimeInitiated := if m.items[id].defIndex == ITEM_STATS_SUBSCRIPTION then 0 else m.statsTimeInitiated,
       version := NextVersion(m.version))
  }

  function DestroyMessage(version: uint64, id: uint64): SingleObject {
    SingleObject(version, ItemObject(EmptyItem(id, 0)))
  }

  function LoadoutOf(m: Memory): Loadout.Loadout {
    Loadout.Loadout(m.items, m.defaultEquips)
  }

  lemma ValidIsKeyed(l: Loadout.Loadout)
    requires Loadout.Valid(l)
    ensures Keyed(l.items)
  {
  }

  function AdvancedBy(version: uint64, n: nat): uint64 {
    if n == 0 then version else NextVersion(AdvancedBy(version, n - 1))
  }

  lemma AdvancedTwice(version: uint64)
    ensures AdvancedBy(version, 0) == version && AdvancedBy(version, 1) == NextVersion(version)
    ensures AdvancedBy(version, 2) == NextVersion(NextVersion(version))
    ensures AdvancedBy(version, 3) == NextVersion(NextVersion(NextVersion(version)))
  {
  }

  /** A new item gets an id that is not in use and cannot be taken for a default item. */
  lemma NewIdIsFresh(m: Memory, accountId: uint32)
    requires |m.items| < USABLE
    ensures var id := NextId(m, accountId);
      id !in m.items && !IsDefaultItemId(id) && id % WORD == accountId
  {
    assert Free(m.items.Keys, accountId, NextHigh(m, accountId, 0));
  }

  /** Taking an item away again restores the items there were. */
  lemma CreateThenDestroy(m: Memory, accountId: uint32, item: Item)
    requires |m.items| < USABLE
    ensures Adding(m, accountId, item).items - {NextId(m, accountId)} == m.items
    ensures Keyed(m.items) ==> Keyed(Adding(m, accountId, item).items)
  {
    NewIdIsFresh(m, accountId);
  }

  lemma AddingItems(m: Memory, accountId: uint32, item: Item)
    requires |m.items| < USABLE
    ensures var id, after := NextId(m, accountId), Adding(m, accountId, item);
      && id !in m.items && after.items == m.items[id := item.(id := id, accountId := accountId)]
      && after.version == m.version
  {
    NewIdIsFresh(m, accountId);
  }

  /** The items in `gone` have given way to one new item, and nothing else has changed. */
  predicate Exchanged(before: map<uint64, Item>, after: map<uint64, Item>, gone: set<uint64>, id: uint64, item: Item) {
    && id !in before && gone <= before.Keys
    && after.Keys == (before.Keys - gone) + {id}
    && after[id] == item
    && forall other <- before :: other !in gone ==> after[other] == before[other]
  }
}
