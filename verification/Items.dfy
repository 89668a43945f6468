/**
 Items, the shared objects the coordinator publishes, and what a subscriber's cache
 makes of them (the CSOEconItem message, inventory.cpp and gc_const_csgo.h).
 */
module Items {
  import opened Prelude

  const DEFAULT_ITEM_IDS: uint64 := 0xF000_0000_0000_0000
  const SLOT_UNEQUIP: uint32 := 0xffff
  const SLOT_GRAFFITI: uint32 := 56

  const ITEM_CASKET: uint32 := 1201
  const ITEM_SPRAY: uint32 := 1348
  const ITEM_SPRAY_PAINT: uint32 := 1349
  const ITEM_STATS_SUBSCRIPTION: uint32 := 4748

  const ATTRIBUTE_TEXTURE_PREFAB: uint32 := 6
  const ATTRIBUTE_TEXTURE_SEED: uint32 := 7
  const ATTRIBUTE_TEXTURE_WEAR: uint32 := 8
  const ATTRIBUTE_KILL_EATER: uint32 := 80
  const ATTRIBUTE_KILL_EATER_SCORE_TYPE: uint32 := 81
  const ATTRIBUTE_CUSTOM_NAME: uint32 := 111
  const ATTRIBUTE_STICKER_ID_0: uint32 := 113
  const ATTRIBUTE_SPRAYS_REMAINING: uint32 := 232
  const ATTRIBUTE_DROPS_AWARDED_PURCHASED: uint32 := 237
  const ATTRIBUTE_CASKET_ITEMS_COUNT: uint32 := 270
  const ATTRIBUTE_CASKET_MODIFICATION_DATE: uint32 := 271
  const ATTRIBUTE_CASKET_ID_LOW: uint32 := 272
  const ATTRIBUTE_CASKET_ID_HIGH: uint32 := 273

  /** The value bytes of an attribute: absent, a uint32, a float or a string. */
  datatype Value = Unset | Number(n: uint32) | Real(x: real) | Str(s: Text)

  datatype Attribute = Attribute(defIndex: uint32, value: Value)

  datatype Equipped = Equipped(classId: uint32, slotId: uint32)

  datatype Item = Item(
    id: uint64,
    accountId: uint32,
    inventory: uint32,
    defIndex: uint32,
    quantity: uint32,
    level: uint32,
    quality: uint32,
    flags: uint32,
    origin: uint32,
    rarity: uint32,
    inUse: bool,
    attributes: seq<Attribute>,
    equipped: seq<Equipped>)

  function EmptyItem(id: uint64, accountId: uint32): Item {
    Item(id, accountId, 0, 0, 0, 0, 0, 0, 0, 0, false, [], [])
  }

  datatype DefaultEquip = DefaultEquip(accountId: uint32, itemDefinition: uint32, classId: uint32, slotId: uint32)

  datatype SeasonalOperation = SeasonalOperation(
    seasonValue: uint32, tierUnlocked: uint32, premiumTiers: uint32, missionId: uint32,
    missionsCompleted: uint32, redeemableBalance: uint32, seasonPassTime: uint32)

  /** The object_data of a shared object, with its type. */
  datatype SharedObject =
    | ItemObject(item: Item)
    | UnidentifiedItem                          // item data that does not parse or has no id
    | DefaultEquipObject(equip: DefaultEquip)
    | SubscriptionObject(timeInitiated: uint32)
    | OperationObject(operation: SeasonalOperation)
    | PersonaObject(level: int)

  datatype SingleObject = NoObject | SingleObject(version: uint64, so: SharedObject)

  datatype MultipleObjects = MultipleObjects(version: Option<uint64>, objects: seq<SharedObject>)

  /** The low 16 bits of an id in the default range are a definition index. */
  predicate IsDefaultItemId(itemId: uint64) {
    itemId >= DEFAULT_ITEM_IDS
  }

  function DefaultDefIndex(itemId: uint64): uint32 {
    itemId % 0x1_0000
  }

  /** Versions wrap around but are never zero. */
  function NextVersion(version: uint64): (r: uint64)
    ensures r != 0
  {
    if version == 0xffff_ffff_ffff_ffff then 1 else version + 1
  }

  /** What adding objects to an update does to its version and the inventory's. */
  ghost predicate Stamped(version: uint64, update: MultipleObjects, version': uint64, update': MultipleObjects) {
    && update.objects <= update'.objects
    && if update'.objects == update.objects then version' == version && update' == update
       else if update.version.None? then version' == NextVersion(version) && update'.version == Some(version')
       else version' == version && update'.version == update.version
  }

  // -------------------------------------------------------- a client's cache

  type SlotKey = (uint32, uint32)

  /** Items by id, and the default definition by class and slot. */
  datatype Cache = Cache(items: map<uint64, Item>, defaults: map<SlotKey, uint32>)

  function ApplyDefault(defaults: map<SlotKey, uint32>, e: DefaultEquip): map<SlotKey, uint32> {
    var key := (e.classId, e.slotId);
    if e.itemDefinition != 0 then defaults[key := e.itemDefinition] else defaults - {key}
  }

  function Apply(cache: Cache, so: SharedObject): Cache {
    match so
    case ItemObject(item) => cache.(items := cache.items[item.id := item])
    case DefaultEquipObject(e) => cache.(defaults := ApplyDefault(cache.defaults, e))
    case _ => cache
  }

  function Replay(cache: Cache, objects: seq<SharedObject>): Cache
    decreases objects
  {
    if objects == [] then cache else Replay(Apply(cache, objects[0]), objects[1..])
  }

  lemma {:induction false} ReplayJoin(cache: Cache, a: seq<SharedObject>, b: seq<SharedObject>)
    ensures Replay(cache, a + b) == Replay(Replay(cache, a), b)
    decreases a
  {
    if a == [] {
      assert a + b == b;
    } else {
      assert (a + b)[1..] == a[1..] + b;
      ReplayJoin(Apply(cache, a[0]), a[1..], b);
    }
  }

  /** The default equips of a cache subscription, read as a client reads them. */
  function DefaultsOf(equips: seq<DefaultEquip>): map<SlotKey, uint32> {
    if equips == [] then map[] else ApplyDefault(DefaultsOf(equips[..|equips| - 1]), equips[|equips| - 1])
  }
}
