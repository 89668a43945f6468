/**
 The parts of the item schema the inventory needs: attribute types, the items it can
 create, painted rarity and the collections of trade-up contracts (item_schema.cpp).
 The tables themselves are given.
 */
module ItemSchema {
  import opened Prelude
  import opened Items
  import Numbers

  const RARITY_COMMON := 1
  const RARITY_LEGENDARY := 5
  const RARITY_ANCIENT := 6
  const RARITY_IMMORTAL := 7
  const RARITY_UNUSUAL := 99

  const QUALITY_UNUSUAL: uint32 := 3
  const QUALITY_UNIQUE: uint32 := 4
  const QUALITY_STRANGE: uint32 := 9
  const QUALITY_TOURNAMENT: uint32 := 12

  datatype AttributeType = FloatType | Uint32Type | StringType

  datatype ItemInfo = ItemInfo(defIndex: uint32, rarity: uint32)

  datatype PaintKitInfo = PaintKitInfo(defIndex: uint32, rarity: uint32, minFloat: real, maxFloat: real)

  datatype LootListItem = LootListItem(
    itemInfo: Option<ItemInfo>, paintable: bool, paintKitInfo: Option<PaintKitInfo>, rarity: uint32, quality: uint32)

  datatype ItemSet = ItemSet(isCollection: bool, items: seq<LootListItem>)

  datatype TournamentAccess = TournamentAccess(isToken: bool, journalDefIndex: uint32, includedTokens: uint32)

  datatype SeasonPass = SeasonPass(seasonValue: uint32, coinDefIndex: uint32)

  /** `creatable` holds what CreateItem makes of a definition, apart from the item's identity. */
  datatype Schema = Schema(
    attributeTypes: map<uint32, AttributeType>,
    creatable: map<uint32, Item>,
    itemInfo: map<uint32, ItemInfo>,
    paintKitInfo: map<uint32, PaintKitInfo>,
    itemSets: map<Text, ItemSet>,
    journals: set<uint32>,
    missionCards: set<(uint32, uint32)>,
    prestigeMedals: map<uint32, seq<uint32>>,
    seasonPasses: map<uint32, SeasonPass>,
    tournamentAccess: map<uint32, TournamentAccess>)

  // -------------------------------------------------------------- attributes

  /** SetAttributeUint32: an attribute the schema does not know is left alone. */
  function WithNumber(schema: Schema, a: Attribute, n: uint32): Attribute {
    if a.defIndex !in schema.attributeTypes then a
    else match schema.attributeTypes[a.defIndex]
      case FloatType => a.(value := Real(n as real))
      case Uint32Type => a.(value := Number(n))
      case StringType => a.(value := Str(Numbers.FormatInt(n)))
  }

  function ToUint32(x: real): uint32 {
    if 0.0 <= x < 0x1_0000_0000 as real then x.Floor else 0
  }

  /** AttributeUint32. */
  function NumberOf(schema: Schema, a: Attribute): uint32 {
    if a.defIndex !in schema.attributeTypes then 0
    else match a.value
      case Unset => 0
      case Number(n) => n
      case Real(x) => ToUint32(x)
      case Str(s) => Numbers.LeadingUint32(s)
  }

  /** AttributeFloat, on floats as real numbers. */
  function RealOf(schema: Schema, a: Attribute): real {
    if a.defIndex !in schema.attributeTypes then 0.0
    else match a.value
      case Number(n) => n as real
      case Real(x) => x
      case _ => 0.0
  }

  /** SetAttributeFloat on an attribute of type float. */
  function WithReal(schema: Schema, a: Attribute, x: real): Attribute {
    if a.defIndex !in schema.attributeTypes then a
    else match schema.attributeTypes[a.defIndex]
      case FloatType => a.(value := Real(x))
      case Uint32Type => a.(value := Number(ToUint32(x)))
      case StringType => a
  }

  predicate IsNumber(schema: Schema, defIndex: uint32) {
    defIndex in schema.attributeTypes && schema.attributeTypes[defIndex] == Uint32Type
  }

  /** Position of the first attribute with this definition, or the number of attributes. */
  function FindAttribute(attributes: seq<Attribute>, defIndex: uint32): (i: nat)
    ensures i <= |attributes|
    ensures i < |attributes| ==> attributes[i].defIndex == defIndex
    ensures forall j :: 0 <= j < i ==> attributes[j].defIndex != defIndex
  {
    if attributes == [] || attributes[0].defIndex == defIndex then 0
    else 1 + FindAttribute(attributes[1..], defIndex)
  }

  // ---------------------------------------------------------------- creation

  const UNACKNOWLEDGED_PURCHASED: uint32 := 4
  const UNACKNOWLEDGED_RECYCLING: uint32 := 17
  const UNACKNOWLEDGED_LEVEL_UP_REWARD: uint32 := 20
  const ORIGIN_PURCHASED: uint32 := 2
  const ORIGIN_CRATE: uint32 := 8
  const ORIGIN_LEVEL_UP_REWARD: uint32 := 24

  function Unacknowledged(kind: uint32): uint32
    requires kind < 32
  {
    kind + 0x4000_0000
  }

  /** CreateItem: fills in a freshly allocated item, which a definition it cannot create leaves empty. */
  function Created(schema: Schema, blank: Item, defIndex: uint32, origin: uint32, unacknowledged: uint32): Item
    requires unacknowledged < 32
  {
    if defIndex !in schema.creatable then blank
    else schema.creatable[defIndex].(id := blank.id, accountId := blank.accountId, origin := origin,
                                     inventory := Unacknowledged(unacknowledged), equipped := [])
  }

  // ------------------------------------------------------------------ rarity

  /** The sum is taken in uint32 and read back as a signed int. */
  function PaintedItemRarity(itemRarity: uint32, paintKitRarity: uint32): uint32 {
    var sum := (itemRarity - 1 + paintKitRarity) % 0x1_0000_0000;
    if sum >= 0x8000_0000 then 0
    else if sum > RARITY_ANCIENT then
      if paintKitRarity == RARITY_IMMORTAL then RARITY_IMMORTAL else RARITY_ANCIENT
    else sum
  }

  function PaintedRarity(schema: Schema, defIndex: uint32, paintKit: uint32, fallback: uint32): uint32 {
    if defIndex !in schema.itemInfo || paintKit !in schema.paintKitInfo then fallback
    else PaintedItemRarity(schema.itemInfo[defIndex].rarity, schema.paintKitInfo[paintKit].rarity)
  }

  /** For case opening: unusual quality counts as its own rarity. */
  function CaseRarity(item: LootListItem): uint32 {
    if item.quality == QUALITY_UNUSUAL then RARITY_UNUSUAL else item.rarity
  }

  // ------------------------------------------------------------- collections

  predicate Paints(entry: LootListItem, defIndex: Option<uint32>, paintKit: uint32) {
    && entry.paintKitInfo.Some? && entry.paintKitInfo.value.defIndex == paintKit
    && (defIndex.Some? ==> entry.itemInfo.Some? && entry.itemInfo.value.defIndex == defIndex.value)
  }

  predicate InCollection(schema: Schema, name: Text, defIndex: Option<uint32>, paintKit: uint32) {
    && name in schema.itemSets && schema.itemSets[name].isCollection
    && exists entry <- schema.itemSets[name].items :: Paints(entry, defIndex, paintKit)
  }

  /** The collections of a painted item, or of a paint kit on whatever item. */
  function Collections(schema: Schema, defIndex: Option<uint32>, paintKit: uint32): set<Text> {
    set name | name in schema.itemSets && InCollection(schema, name, defIndex, paintKit)
  }

  /** GetCollectionsForPaintedItem and GetCollectionsForPaintKit: one pass over the item sets. */
  method GetCollections(schema: Schema, defIndex: Option<uint32>, paintKit: uint32) returns (found: bool, names: set<Text>)
    ensures names == Collections(schema, defIndex, paintKit)
    ensures found <==> names != {}
  {
    names := {};
    var todo := schema.itemSets.Keys;
    while todo != {}
      invariant todo <= schema.itemSets.Keys
      invariant names == Collections(schema, defIndex, paintKit) - todo
      decreases todo
    {
      var name :| name in todo;
      todo := todo - {name};
      var itemSet := schema.itemSets[name];
      if itemSet.isCollection {
        for i := 0 to |itemSet.items|
          invariant forall j :: 0 <= j < i ==> !Paints(itemSet.items[j], defIndex, paintKit)
          invariant names == Collections(schema, defIndex, paintKit) - todo - {name}
        {
          if Paints(itemSet.items[i], defIndex, paintKit) {
            assert itemSet.items[i] in itemSet.items;
            names := names + {name};
            break;
          }
        }
      }
    }
    found := names != {};
  }

  predicate IsCandidate(entry: LootListItem, rarity: int) {
    entry.paintable && entry.itemInfo.Some? && entry.paintKitInfo.Some? && entry.rarity == rarity
  }

  function CandidatesIn(entries: seq<LootListItem>, rarity: int): (r: seq<LootListItem>)
    ensures forall e :: e in r <==> e in entries && IsCandidate(e, rarity)
  {
    if entries == [] then []
    else
      var rest := CandidatesIn(entries[1..], rarity);
      if IsCandidate(entries[0], rarity) then [entries[0]] + rest else rest
  }

  function Candidates(schema: Schema, collection: Text, rarity: int): seq<LootListItem> {
    if collection in schema.itemSets then CandidatesIn(schema.itemSets[collection].items, rarity) else []
  }

  method GetTradeUpCandidates(schema: Schema, collection: Text, rarity: int) returns (found: bool, cs: seq<LootListItem>)
    ensures cs == Candidates(schema, collection, rarity)
    ensures found <==> cs != []
  {
    cs := [];
    if collection !in schema.itemSets {
      return false, [];
    }
    var entries := schema.itemSets[collection].items;
    for i := 0 to |entries|
      invariant cs + CandidatesIn(entries[i..], rarity) == CandidatesIn(entries, rarity)
    {
      var entry := entries[i];
      assert entries[i..][1..] == entries[i + 1..];
      if entry.paintable && entry.itemInfo.Some? && entry.paintKitInfo.Some? && entry.rarity == rarity {
        cs := cs + [entry];
      }
    }
    assert entries[|entries|..] == [];
    found := cs != [];
  }
}
