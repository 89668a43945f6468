/**
 Storage units: items that carry the id of the casket they are in, split over two
 attributes, and a counter on the casket (inventory.cpp, the storage functions).
 */
module Storage {
  import opened Prelude
  import opened Items
  import opened ItemSchema

  const CAPACITY := 1000
  const WORD := 0x1_0000_0000

  // -------------------------------------------------------------- attributes

  predicate IsReference(defIndex: uint32) {
    defIndex == ATTRIBUTE_CASKET_ID_LOW || defIndex == ATTRIBUTE_CASKET_ID_HIGH
  }

  function Stripped(attributes: seq<Attribute>): seq<Attribute> {
    if attributes == [] then []
    else if IsReference(attributes[0].defIndex) then Stripped(attributes[1..])
    else [attributes[0]] + Stripped(attributes[1..])
  }

  function Embedded(schema: Schema, attributes: seq<Attribute>, storageId: uint64): seq<Attribute> {
    Stripped(attributes) +
    [WithNumber(schema, Attribute(ATTRIBUTE_CASKET_ID_LOW, Unset), storageId % WORD),
     WithNumber(schema, Attribute(ATTRIBUTE_CASKET_ID_HIGH, Unset), storageId / WORD)]
  }

  /** The values of the attributes with one definition, in order. */
  function NumbersOf(schema: Schema, attributes: seq<Attribute>, defIndex: uint32): seq<uint32> {
    if attributes == [] then []
    else
      (if attributes[0].defIndex == defIndex then [NumberOf(schema, attributes[0])] else [])
      + NumbersOf(schema, attributes[1..], defIndex)
  }

  function LastIndex(attributes: seq<Attribute>, defIndex: uint32): (i: int)
    ensures -1 <= i < |attributes|
    ensures i >= 0 ==> attributes[i].defIndex == defIndex
    ensures forall j :: i < j < |attributes| ==> attributes[j].defIndex != defIndex
    decreases |attributes|
  {
    var n := |attributes|;
    if n == 0 then -1
    else if attributes[n - 1].defIndex == defIndex then n - 1
    else LastIndex(attributes[..n - 1], defIndex)
  }

  /** The casket an item is in: its last low and its last high attribute put together. */
  function Reference(schema: Schema, item: Item): Option<uint64> {
    var low := NumbersOf(schema, item.attributes, ATTRIBUTE_CASKET_ID_LOW);
    var high := NumbersOf(schema, item.attributes, ATTRIBUTE_CASKET_ID_HIGH);
    if low == [] || high == [] then None else Some(low[|low| - 1] + high[|high| - 1] * WORD)
  }

  /** static_cast<int32_t> of a uint32_t. */
  function ToInt32(n: uint32): int32 {
    if n < 0x8000_0000 then n else n - WORD
  }

  /** ModifyStorageCounter: None when there is no counter or it would leave 0..1000. */
  function Counted(schema: Schema, attributes: seq<Attribute>, delta: int, now: uint32): Option<seq<Attribute>> {
    var i, date := LastIndex(attributes, ATTRIBUTE_CASKET_ITEMS_COUNT), LastIndex(attributes, ATTRIBUTE_CASKET_MODIFICATION_DATE);
    if i < 0 then None
    else
      var updated := ToInt32(NumberOf(schema, attributes[i])) + delta;
      if updated < 0 || updated > CAPACITY then None
      else
        var counted := attributes[i := WithNumber(schema, attributes[i], updated)];
        Some(if date < 0 then counted else counted[date := WithNumber(schema, counted[date], now)])
  }

  /** SetAttributeString, for the custom name. */
  function WithText(schema: Schema, a: Attribute, s: Text): Attribute {
    if a.defIndex in schema.attributeTypes && schema.attributeTypes[a.defIndex] == StringType then a.(value := Str(s)) else a
  }

  function Unnamed(attributes: seq<Attribute>): seq<Attribute> {
    if attributes == [] then []
    else (if attributes[0].defIndex == ATTRIBUTE_CUSTOM_NAME then [] else [attributes[0]]) + Unnamed(attributes[1..])
  }

  /** SetCustomNameAttribute. */
  function Named(schema: Schema, attributes: seq<Attribute>, name: Text): seq<Attribute> {
    Unnamed(attributes) + if name == [] then [] else [WithText(schema, Attribute(ATTRIBUTE_CUSTOM_NAME, Unset), name)]
  }

  /** The counter of a casket that has none starts at zero. */
  function WithCounter(schema: Schema, attributes: seq<Attribute>): seq<Attribute> {
    if FindAttribute(attributes, ATTRIBUTE_CASKET_ITEMS_COUNT) < |attributes| then attributes
    else attributes + [WithNumber(schema, Attribute(ATTRIBUTE_CASKET_ITEMS_COUNT, Unset), 0)]
  }

  function Dated(schema: Schema, attributes: seq<Attribute>, now: uint32): seq<Attribute> {
    var date := FindAttribute(attributes, ATTRIBUTE_CASKET_MODIFICATION_DATE);
    if date < |attributes| then attributes[date := WithNumber(schema, attributes[date], now)]
    else attributes + [WithNumber(schema, Attribute(ATTRIBUTE_CASKET_MODIFICATION_DATE, Unset), now)]
  }

  /** PrepareCasketForNaming, on a schema that has the casket attributes. */
  function Prepared(schema: Schema, attributes: seq<Attribute>, now: uint32): seq<Attribute> {
    Dated(schema, WithCounter(schema, attributes), now)
  }

  /** Whether the schema has the attributes that naming writes. */
  predicate CanPrepare(schema: Schema, attributes: seq<Attribute>) {
    && (FindAttribute(attributes, ATTRIBUTE_CASKET_ITEMS_COUNT) < |attributes|
        || ATTRIBUTE_CASKET_ITEMS_COUNT in schema.attributeTypes)
    && ATTRIBUTE_CASKET_MODIFICATION_DATE in schema.attributeTypes
  }

  /** What is left of a preparation that failed: attributes without a value may have been added. */
  function PartlyPrepared(schema: Schema, attributes: seq<Attribute>): seq<Attribute> {
    var counted := WithCounter(schema, attributes);
    var date := FindAttribute(counted, ATTRIBUTE_CASKET_MODIFICATION_DATE);
    if FindAttribute(attributes, ATTRIBUTE_CASKET_ITEMS_COUNT) == |attributes|
       && ATTRIBUTE_CASKET_ITEMS_COUNT !in schema.attributeTypes then counted
    else if date < |counted| then counted
    else counted + [Attribute(ATTRIBUTE_CASKET_MODIFICATION_DATE, Unset)]
  }

  // -------------------------------------------------------------- operations

  datatype StorageResult =
    | Success | CapacityExceeded | ItemNotFound | ContainerNotFound | InvalidContainerType | InternalError

  datatype Op =
    | Deposit(storageId: uint64, itemId: uint64, now: uint32)
    | Withdraw(storageId: uint64, itemId: uint64, now: uint32)
    | NameCasket(casketId: uint64, name: Text, now: uint32)

  function DepositResult(schema: Schema, items: map<uint64, Item>, storageId: uint64, itemId: uint64, now: uint32): StorageResult {
    if storageId == itemId then InvalidContainerType
    else if storageId !in items then ContainerNotFound
    else if itemId !in items then ItemNotFound
    else if items[storageId].defIndex != ITEM_CASKET then InvalidContainerType
    else if items[itemId].defIndex == ITEM_CASKET then InvalidContainerType
    else if Reference(schema, items[itemId]).Some? then InternalError
    else if Counted(schema, items[storageId].attributes, 1, now).None? then CapacityExceeded
    else Success
  }

  function WithdrawResult(schema: Schema, items: map<uint64, Item>, storageId: uint64, itemId: uint64, now: uint32): StorageResult {
    if storageId !in items then ContainerNotFound
    else if itemId !in items then ItemNotFound
    else if items[storageId].defIndex != ITEM_CASKET then InvalidContainerType
    else if Reference(schema, items[itemId]) != Some(storageId) then ItemNotFound
    else if Counted(schema, items[storageId].attributes, -1, now).None? then InternalError
    else Success
  }

  function DepositedItem(schema: Schema, item: Item, storageId: uint64): Item {
    item.(attributes := Embedded(schema, item.attributes, storageId), equipped := [])
  }

  function WithdrawnItem(item: Item): Item {
    item.(attributes := Stripped(item.attributes))
  }

  function CountedCasket(schema: Schema, casket: Item, delta: int, now: uint32): Item {
    match Counted(schema, casket.attributes, delta, now)
    case None => casket
    case Some(attributes) => casket.(attributes := attributes)
  }

  function Step(schema: Schema, items: map<uint64, Item>, op: Op): map<uint64, Item> {
    match op
    case Deposit(s, i, now) =>
      if DepositResult(schema, items, s, i, now) != Success then items
      else items[s := CountedCasket(schema, items[s], 1, now)][i := DepositedItem(schema, items[i], s)]
    case Withdraw(s, i, now) =>
      if WithdrawResult(schema, items, s, i, now) != Success then items
      else
        var counted := items[s := CountedCasket(schema, items[s], -1, now)];
        counted[i := WithdrawnItem(counted[i])]
    case NameCasket(c, name, now) =>
      if c !in items || items[c].defIndex != ITEM_CASKET then items
      else if !CanPrepare(schema, items[c].attributes) then
        items[c := items[c].(attributes := PartlyPrepared(schema, items[c].attributes))]
      else items[c := items[c].(attributes := Named(schema, Prepared(schema, items[c].attributes, now), name))]
  }

  /** How many objects are published: the item and the casket, the named casket, or nothing. */
  function Told(schema: Schema, items: map<uint64, Item>, op: Op): nat {
    match op
    case Deposit(s, i, now) => if DepositResult(schema, items, s, i, now) == Success then 2 else 0
    case Withdraw(s, i, now) => if WithdrawResult(schema, items, s, i, now) == Success then 2 else 0
    case NameCasket(c, _, _) =>
      if c in items && items[c].defIndex == ITEM_CASKET && CanPrepare(schema, items[c].attributes) then 1 else 0
  }

  function Run(schema: Schema, items: map<uint64, Item>, ops: seq<Op>): map<uint64, Item>
    decreases ops
  {
    if ops == [] then items else Run(schema, Step(schema, items, ops[0]), ops[1..])
  }

  // ------------------------------------------------------------- consistency

  /** The schema stores the casket attributes as uint32. */
  predicate CasketSchema(schema: Schema) {
    && IsNumber(schema, ATTRIBUTE_CASKET_ITEMS_COUNT) && IsNumber(schema, ATTRIBUTE_CASKET_MODIFICATION_DATE)
    && IsNumber(schema, ATTRIBUTE_CASKET_ID_LOW) && IsNumber(schema, ATTRIBUTE_CASKET_ID_HIGH)
  }

  function References(schema: Schema, items: map<uint64, Item>): map<uint64, Option<uint64>> {
    map id | id in items :: Reference(schema, items[id])
  }

  function PointingTo(references: map<uint64, Option<uint64>>, casketId: uint64): set<uint64> {
    set id | id in references && references[id] == Some(casketId)
  }

  /** The ids of the items that refer to the casket. */
  function StoredIn(schema: Schema, items: map<uint64, Item>, casketId: uint64): set<uint64> {
    PointingTo(References(schema, items), casketId)
  }

  /** Both halves of a casket id are there, once, or neither is. */
  predicate Whole(schema: Schema, item: Item) {
    |NumbersOf(schema, item.attributes, ATTRIBUTE_CASKET_ID_LOW)|
      == |NumbersOf(schema, item.attributes, ATTRIBUTE_CASKET_ID_HIGH)| <= 1
  }

  /** The casket has one counter and it says n. */
  predicate Counts(schema: Schema, casket: Item, n: int) {
    0 <= n <= CAPACITY && NumbersOf(schema, casket.attributes, ATTRIBUTE_CASKET_ITEMS_COUNT) == [n]
  }

  /** A casket that has not been named yet has no counter. */
  predicate Uncounted(schema: Schema, casket: Item) {
    NumbersOf(schema, casket.attributes, ATTRIBUTE_CASKET_ITEMS_COUNT) == []
  }

  predicate ReferenceConsistent(schema: Schema, items: map<uint64, Item>, item: Item) {
    && Whole(schema, item)
    && (Reference(schema, item).Some? ==>
          && Reference(schema, item).value in items
          && items[Reference(schema, item).value].defIndex == ITEM_CASKET
          && item.defIndex != ITEM_CASKET
          && item.equipped == [])
  }

  predicate CountConsistent(schema: Schema, items: map<uint64, Item>, id: uint64)
    requires id in items
  {
    items[id].defIndex == ITEM_CASKET ==>
      || Counts(schema, items[id], |StoredIn(schema, items, id)|)
      || (Uncounted(schema, items[id]) && |StoredIn(schema, items, id)| == 0)
  }

  /**
   Every casket counts exactly the items that refer to it, or has no counter yet and nothing
   in it, and every reference is whole and sound.
   */
  predicate Consistent(schema: Schema, items: map<uint64, Item>) {
    forall id <- items :: ReferenceConsistent(schema, items, items[id]) && CountConsistent(schema, items, id)
  }
}
