/**
 The inventory file: the KeyValues tree that is written of what the inventory holds, and
 what is read of such a tree (inventory.cpp, WriteToFile and ReadFromFile).
 */
module InventoryFile {
  import opened Prelude
  import opened Numbers
  import opened Items
  import opened ItemSchema
  import opened ItemIds
  import opened InventoryState
  import opened KeyValues
  import opened KeyValueRecords
  import Storage

  const FORMAT_VERSION := Bytes("format_version")
  const PLAYER_STATE := Bytes("player_state")
  const ITEMS := Bytes("items")
  const STATS_SUBSCRIPTION := Bytes("stats_subscription")
  const SEASONAL_OPERATIONS := Bytes("seasonal_operations")
  const DEFAULT_EQUIPS := Bytes("default_equips")
  const EVENT_FAVORITES := Bytes("event_favorites")
  const TIME_INITIATED := Bytes("time_initiated")
  const ATTRIBUTES := Bytes("attributes")
  const EQUIPPED_STATE := Bytes("equipped_state")
  const CUSTOM_NAME := Bytes("custom_name")

  const PLAYER_NUMBERS := [Bytes("configured_level"), Bytes("configured_xp"), Bytes("level"), Bytes("xp")]
  const ITEM_NUMBERS := [Bytes("inventory"), Bytes("def_index"), Bytes("level"), Bytes("quality"), Bytes("flags"),
                         Bytes("origin"), Bytes("in_use"), Bytes("rarity")]
  const OPERATION_NUMBERS := [Bytes("tier_unlocked"), Bytes("premium_tiers"), Bytes("mission_id"),
                              Bytes("missions_completed"), Bytes("redeemable_balance"), Bytes("season_pass_time")]
  const EQUIP_NUMBERS := [Bytes("class_id"), Bytes("slot_id")]

  const QUALITY_NORMAL: uint32 := 0

  /** The level and experience the configuration gives a new inventory. */
  datatype Config = Config(level: int32, xp: int32)

  // -------------------------------------------------------------- writing

  function StringOf(a: Attribute): Text {
    if a.value.Str? then a.value.s else []
  }

  /** AttributeString. */
  function AttributeText(schema: Schema, a: Attribute): Text {
    if a.defIndex !in schema.attributeTypes then []
    else match schema.attributeTypes[a.defIndex]
      case FloatType => FormatFixed(RealOf(schema, a))
      case Uint32Type => FormatInt(NumberOf(schema, a))
      case StringType => StringOf(a)
  }

  function AttributeEntries(schema: Schema, attributes: seq<Attribute>): seq<(uint64, Content)> {
    seq(|attributes|, i requires 0 <= i < |attributes| =>
      (attributes[i].defIndex, Content([], AttributeText(schema, attributes[i]))))
  }

  function EquippedEntries(es: seq<Equipped>): seq<(uint64, Content)> {
    seq(|es|, i requires 0 <= i < |es| => (es[i].classId, Content([], FormatInt(es[i].slotId))))
  }

  function ItemNumbers(item: Item): seq<int> {
    [item.inventory, item.defIndex, item.level, item.quality, item.flags, item.origin, if item.inUse then 1 else 0, item.rarity]
  }

  /** WriteItem. */
  function ItemKeys(schema: Schema, item: Item): seq<Node> {
    Fields(ITEM_NUMBERS, ItemNumbers(item))
    + [Node(ATTRIBUTES, NodesOf(AttributeEntries(schema, item.attributes)), []),
       Node(EQUIPPED_STATE, NodesOf(EquippedEntries(item.equipped)), [])]
  }

  /** The items, under the high word of their id, in the order they are walked. */
  function ItemEntries(schema: Schema, items: map<uint64, Item>, order: seq<uint64>): seq<(uint64, Content)>
    requires forall id <- order :: id in items
  {
    seq(|order|, i requires 0 <= i < |order| => (HighItemId(items[order[i]].id), Content(ItemKeys(schema, items[order[i]]), [])))
  }

  function OperationNumbers(o: SeasonalOperation): seq<int> {
    [o.tierUnlocked, o.premiumTiers, o.missionId, o.missionsCompleted, o.redeemableBalance, o.seasonPassTime]
  }

  lemma SixNumbers(o: SeasonalOperation)
    ensures |OPERATION_NUMBERS| == |OperationNumbers(o)| == 6
  {
  }

  function OperationEntries(operations: map<uint32, SeasonalOperation>, order: seq<uint32>): seq<(uint64, Content)>
    requires forall season <- order :: season in operations
  {
    seq(|order|, i requires 0 <= i < |order| =>
      (order[i], Content(Fields(OPERATION_NUMBERS, OperationNumbers(operations[order[i]])), [])))
  }

  function EquipEntries(es: seq<(uint32, uint32, uint32)>): seq<(uint64, Content)> {
    seq(|es|, i requires 0 <= i < |es| => (es[i].0, Content(Fields(EQUIP_NUMBERS, [es[i].1, es[i].2]), [])))
  }

  function FavoriteEntries(order: seq<uint64>): seq<(uint64, Content)> {
    seq(|order|, i requires 0 <= i < |order| => (order[i], Content([], FormatInt(1))))
  }

  /** In which order the items, operations and favorites are walked. */
  datatype Order = Order(items: seq<uint64>, operations: seq<uint32>, favorites: seq<uint64>)

  predicate Walks<K(==)>(order: seq<K>, keys: set<K>) {
    && (forall i, j :: 0 <= i < j < |order| ==> order[i] != order[j])
    && (forall k <- order :: k in keys) && forall k <- keys :: k in order
  }

  predicate IsOrder(image: Image, o: Order) {
    Walks(o.items, image.items.Keys) && Walks(o.operations, image.operations.Keys) && Walks(o.favorites, image.eventFavorites)
  }

  /** Without a stats subscription its subkey is empty, which is to say not written. */
  function SubscriptionKeys(subscription: Option<uint32>): seq<Node> {
    if subscription.None? then [] else [Field(TIME_INITIATED, subscription.value)]
  }

  function PlayerNumbers(config: Config, image: Image): seq<int> {
    [config.level, config.xp, image.playerLevel, image.playerXp]
  }

  /** WriteToFile, before printing. */
  function FileTree(schema: Schema, config: Config, image: Image, o: Order): seq<Node>
    requires IsOrder(image, o)
  {
    [Field(FORMAT_VERSION, 1),
     Node(PLAYER_STATE, Fields(PLAYER_NUMBERS, PlayerNumbers(config, image)), []),
     Node(ITEMS, NodesOf(ItemEntries(schema, image.items, o.items)), []),
     Node(STATS_SUBSCRIPTION, SubscriptionKeys(image.subscription), []),
     Node(SEASONAL_OPERATIONS, NodesOf(OperationEntries(image.operations, o.operations)), []),
     Node(DEFAULT_EQUIPS, NodesOf(EquipEntries(image.defaultEquips)), []),
     Node(EVENT_FAVORITES, NodesOf(FavoriteEntries(o.favorites)), [])]
  }

  /** The text is one of those that hold the image. */
  ghost predicate IsFileOf(schema: Schema, config: Config, image: Image, text: Text) {
    exists o :: IsOrder(image, o) && text == PrintBody(FileTree(schema, config, image, o), 0)
  }

  // --------------------------------------------------------------- reading

  function GetString(ks: seq<Node>, name: Text): Text {
    match GetSubkey(ks, name)
    case None => []
    case Some(k) => k.str
  }

  function GetUint32(ks: seq<Node>, name: Text): uint32 {
    match GetSubkey(ks, name)
    case None => 0
    case Some(k) => LeadingUint32(k.str)
  }

  function GetInt32(ks: seq<Node>, name: Text): int32 {
    match GetSubkey(ks, name)
    case None => 0
    case Some(k) => LeadingInt32(k.str)
  }

  /** SetAttributeString. */
  function WithString(schema: Schema, a: Attribute, s: Text): Attribute {
    if a.defIndex !in schema.attributeTypes then a
    else match schema.attributeTypes[a.defIndex]
      case FloatType => a.(value := Real(LeadingReal(s)))
      case Uint32Type => a.(value := Number(LeadingUint32(s)))
      case StringType => a.(value := Str(s))
  }

  function ReadAttribute(schema: Schema, k: Node): Attribute {
    WithString(schema, Attribute(LeadingUint32(k.name), Unset), k.str)
  }

  function ReadAttributes(schema: Schema, ks: seq<Node>): seq<Attribute> {
    seq(|ks|, i requires 0 <= i < |ks| => ReadAttribute(schema, ks[i]))
  }

  function ReadEquipped(ks: seq<Node>): seq<Equipped> {
    seq(|ks|, i requires 0 <= i < |ks| => Equipped(LeadingUint32(ks[i].name), LeadingUint32(ks[i].str)))
  }

  /** GetCustomNameAttribute. */
  function CustomName(schema: Schema, attributes: seq<Attribute>): Text {
    var i := FindAttribute(attributes, ATTRIBUTE_CUSTOM_NAME);
    if i < |attributes| then AttributeText(schema, attributes[i]) else []
  }

  /** A name from before names were attributes becomes one. */
  function Migrated(schema: Schema, attributes: seq<Attribute>, name: Text): seq<Attribute> {
    if CustomName(schema, attributes) == [] && name != [] then Storage.Named(schema, attributes, name) else attributes
  }

  predicate IsPainted(attributes: seq<Attribute>) {
    FindAttribute(attributes, ATTRIBUTE_TEXTURE_PREFAB) < |attributes|
  }

  function ReadQuality(quality: uint32, attributes: seq<Attribute>): uint32 {
    if quality == QUALITY_NORMAL && IsPainted(attributes) then QUALITY_UNIQUE else quality
  }

  /** ReadItem, into an item that has been allocated. */
  function ReadItem(schema: Schema, ks: seq<Node>, blank: Item): Item {
    ItemFrom(ks, blank, Migrated(schema, ReadAttributes(schema, SubkeysIn(ks, ATTRIBUTES)), GetString(ks, CUSTOM_NAME)),
             ReadEquipped(SubkeysIn(ks, EQUIPPED_STATE)))
  }

  function ItemFrom(ks: seq<Node>, blank: Item, attributes: seq<Attribute>, equipped: seq<Equipped>): Item {
    Item(blank.id, blank.accountId,
         GetUint32(ks, ITEM_NUMBERS[0]), GetUint32(ks, ITEM_NUMBERS[1]), 1, GetUint32(ks, ITEM_NUMBERS[2]),
         ReadQuality(GetUint32(ks, ITEM_NUMBERS[3]), attributes),
         GetUint32(ks, ITEM_NUMBERS[4]), GetUint32(ks, ITEM_NUMBERS[5]), GetUint32(ks, ITEM_NUMBERS[7]),
         GetInt32(ks, ITEM_NUMBERS[6]) != 0, attributes, equipped)
  }

  /** The items one after the other, each under the first free id from the one it is filed under. */
  ghost function ReadItems(schema: Schema, m: Memory, accountId: uint32, keys: seq<Node>): (r: Memory)
    requires |m.items| + |keys| <= USABLE
    ensures |r.items| <= |m.items| + |keys|
    decreases |keys|
  {
    if keys == [] then m
    else
      var n := |keys| - 1;
      ReadOne(schema, ReadItems(schema, m, accountId, keys[..n]), accountId, keys[n])
  }

  ghost function ReadOne(schema: Schema, m: Memory, accountId: uint32, key: Node): Memory
    requires |m.items| < USABLE
  {
    var high := LeadingUint32(key.name);
    var id := ComposeItemId(accountId, NextHigh(m, accountId, high));
    Allocated(m, accountId, high).(items := m.items[id := ReadItem(schema, key.subkeys, EmptyItem(id, accountId))])
  }

  /** Only the newest stats subscription stays. */
  function Deduplicated(items: map<uint64, Item>): map<uint64, Item> {
    map id | id in items && (items[id].defIndex == ITEM_STATS_SUBSCRIPTION ==>
                               forall other <- items :: items[other].defIndex == ITEM_STATS_SUBSCRIPTION ==> other <= id)
      :: items[id]
  }

  /** When the subscription began; one that does not say begins now. */
  function ReadSubscription(items: map<uint64, Item>, ks: seq<Node>, now: uint32): uint32 {
    if !HasDefinition(items, ITEM_STATS_SUBSCRIPTION) then 0
    else
      var time := GetUint32(SubkeysIn(ks, STATS_SUBSCRIPTION), TIME_INITIATED);
      if time == 0 then now else time
  }

  function ReadNumber(ks: seq<Node>, name: Text, otherwise: uint32): uint32 {
    match GetSubkey(ks, name)
    case None => otherwise
    case Some(k) => LeadingUint32(k.str)
  }

  function ReadOperation(o: SeasonalOperation, ks: seq<Node>): SeasonalOperation {
    SeasonalOperation(o.seasonValue,
      ReadNumber(ks, OPERATION_NUMBERS[0], o.tierUnlocked), ReadNumber(ks, OPERATION_NUMBERS[1], o.premiumTiers),
      ReadNumber(ks, OPERATION_NUMBERS[2], o.missionId), ReadNumber(ks, OPERATION_NUMBERS[3], o.missionsCompleted),
      ReadNumber(ks, OPERATION_NUMBERS[4], o.redeemableBalance), ReadNumber(ks, OPERATION_NUMBERS[5], o.seasonPassTime))
  }

  function ReadOperations(keys: seq<Node>): map<uint32, SeasonalOperation>
    decreases |keys|
  {
    if keys == [] then map[]
    else
      var before, key := ReadOperations(keys[..|keys| - 1]), keys[|keys| - 1];
      var season := LeadingUint32(key.name);
      before[season := ReadOperation(if season in before then before[season] else SeasonalOperation(season, 0, 0, 0, 0, 0, 0), key.subkeys)]
  }

  function ReadDefaultEquips(accountId: uint32, keys: seq<Node>): seq<DefaultEquip> {
    seq(|keys|, i requires 0 <= i < |keys| =>
      DefaultEquip(accountId, LeadingUint32(keys[i].name), GetUint32(keys[i].subkeys, EQUIP_NUMBERS[0]), GetUint32(keys[i].subkeys, EQUIP_NUMBERS[1])))
  }

  function ReadFavorites(keys: seq<Node>): set<uint64> {
    set k | k in keys && LeadingUint64(k.name) != 0 :: LeadingUint64(k.name)
  }

  /** The level and experience that were saved count as long as the configuration is the same. */
  predicate SameConfig(config: Config, ks: seq<Node>) {
    && (forall name <- PLAYER_NUMBERS :: GetSubkey(ks, name).Some?)
    && GetInt32(ks, PLAYER_NUMBERS[0]) == config.level && GetInt32(ks, PLAYER_NUMBERS[1]) == config.xp
  }

  /** The tree of a file that can be used. */
  function TreeIn(read: FileRead): Option<seq<Node>> {
    if read.Contents? && WithoutBom(read.bytes) != [] then ParseText(WithoutBom(read.bytes)) else None
  }

  /** The level and experience of a new inventory, or those that were saved. */
  function ReadLevel(config: Config, player: seq<Node>): int32 {
    if SameConfig(config, player) then GetInt32(player, PLAYER_NUMBERS[2]) else config.level
  }

  function ReadXp(config: Config, player: seq<Node>): int32 {
    if SameConfig(config, player) then GetInt32(player, PLAYER_NUMBERS[3]) else config.xp
  }

  /** ReadFromFile on a tree, by a new inventory. */
  ghost function ReadTree(schema: Schema, config: Config, accountId: uint32, version: uint64, ks: seq<Node>, now: uint32): Memory
    requires |SubkeysIn(ks, ITEMS)| <= USABLE
  {
    var player := SubkeysIn(ks, PLAYER_STATE);
    var empty := Memory(map[], [], version, 0, 0, map[], {}, ReadLevel(config, player), ReadXp(config, player));
    var read := ReadItems(schema, empty, accountId, SubkeysIn(ks, ITEMS));
    var items := Deduplicated(read.items);
    read.(items := items, statsTimeInitiated := ReadSubscription(items, ks, now),
          operations := ReadOperations(SubkeysIn(ks, SEASONAL_OPERATIONS)),
          defaultEquips := ReadDefaultEquips(accountId, SubkeysIn(ks, DEFAULT_EQUIPS)),
          eventFavorites := ReadFavorites(SubkeysIn(ks, EVENT_FAVORITES)))
  }
}
