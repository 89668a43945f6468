/**
 What a restart makes of the inventory: exactly which part of it survives being written to
 the file and read again (inventory.cpp).
 */
module InventoryRestart {
  import opened Prelude
  import opened Numbers
  import opened Items
  import opened ItemSchema
  import opened ItemIds
  import opened InventoryState
  import opened KeyValues
  import opened KeyValueRoundTrip
  import opened KeyValueRecords
  import opened InventoryFile
  import opened InventoryReading
  import Persisted

  // ------------------------------------------------------------- the quotes

  lemma QuotableJoin(a: seq<Node>, b: seq<Node>)
    requires Quotable(a) && Quotable(b)
    ensures Quotable(a + b)
  {
  }

  lemma FieldsAreQuotable(names: seq<Text>, values: seq<int>)
    requires |names| == |values| && FieldNames(names)
    ensures Quotable(Fields(names, values))
  {
    hide FormatInt;
    forall i | 0 <= i < |names|
      ensures CleanText(names[i]) && CleanText(FormatInt(values[i]))
    {
      assert names[i] in names;
      IntIsClean(values[i]);
    }
  }

  lemma EntriesAreQuotable(es: seq<(uint64, Content)>)
    requires forall e <- es :: QUOTE !in e.1.str && Quotable(e.1.subkeys)
    ensures Quotable(NodesOf(es))
  {
    hide FormatInt;
    forall i | 0 <= i < |es|
      ensures QUOTE !in CStr(FormatInt(es[i].0)) && QUOTE !in CStr(es[i].1.str) && Quotable(es[i].1.subkeys)
    {
      assert es[i] in es;
      IntIsClean(es[i].0);
      CStrHasNoQuote(es[i].1.str);
    }
  }

  lemma CStrHasNoQuote(s: Text)
    requires QUOTE !in s
    ensures QUOTE !in CStr(s)
  {
    assert forall b <- CStr(s) :: b in s;
  }

  lemma AttributeEntriesAreQuotable(schema: Schema, attributes: seq<Attribute>)
    requires forall a <- attributes :: Printable(schema, a)
    ensures Quotable(NodesOf(AttributeEntries(schema, attributes)))
  {
    hide AttributeText, Printable, NodesOf, Quotable;
    var es := AttributeEntries(schema, attributes);
    forall i | 0 <= i < |es|
      ensures QUOTE !in es[i].1.str && Quotable(es[i].1.subkeys)
    {
      assert attributes[i] in attributes;
      TextIsClean(schema, attributes[i]);
      NothingIsQuotable();
    }
    assert forall e <- es :: exists i :: 0 <= i < |es| && es[i] == e;
    EntriesAreQuotable(es);
  }

  lemma NothingIsQuotable()
    ensures Quotable([])
  {
  }

  lemma EquippedEntriesAreQuotable(es: seq<Equipped>)
    ensures Quotable(NodesOf(EquippedEntries(es)))
  {
    hide FormatInt, NodesOf, Quotable;
    NothingIsQuotable();
    forall i | 0 <= i < |es|
      ensures QUOTE !in FormatInt(es[i].slotId)
    {
      IntIsClean(es[i].slotId);
    }
    EntriesAreQuotable(EquippedEntries(es));
  }

  lemma BranchIsQuotable(name: Text, subkeys: seq<Node>)
    requires CleanText(name) && Quotable(subkeys)
    ensures Quotable([Node(name, subkeys, [])])
  {
  }

  lemma ItemKeysAreQuotable(schema: Schema, item: Item)
    requires forall a <- item.attributes :: Printable(schema, a)
    ensures Quotable(ItemKeys(schema, item))
  {
    ItemNamesAreFields();
    hide ITEM_NUMBERS, ATTRIBUTES, EQUIPPED_STATE, AttributeEntries, EquippedEntries, Quotable, Printable, NodesOf, ItemNumbers, Fields;
    ItemNumbersAreEight(item);
    var attributes, equipped := NodesOf(AttributeEntries(schema, item.attributes)), NodesOf(EquippedEntries(item.equipped));
    FieldsAreQuotable(ITEM_NUMBERS, ItemNumbers(item));
    AttributeEntriesAreQuotable(schema, item.attributes);
    EquippedEntriesAreQuotable(item.equipped);
    BranchIsQuotable(ATTRIBUTES, attributes);
    BranchIsQuotable(EQUIPPED_STATE, equipped);
    QuotableJoin([Node(ATTRIBUTES, attributes, [])], [Node(EQUIPPED_STATE, equipped, [])]);
    assert [Node(ATTRIBUTES, attributes, [])] + [Node(EQUIPPED_STATE, equipped, [])]
      == [Node(ATTRIBUTES, attributes, []), Node(EQUIPPED_STATE, equipped, [])];
    QuotableJoin(Fields(ITEM_NUMBERS, ItemNumbers(item)), [Node(ATTRIBUTES, attributes, []), Node(EQUIPPED_STATE, equipped, [])]);
  }

  lemma ItemsAreQuotable(schema: Schema, accountId: uint32, items: map<uint64, Item>, order: seq<uint64>)
    requires OwnItems(schema, accountId, items) && Walks(order, items.Keys)
    ensures Quotable(NodesOf(ItemEntries(schema, items, order)))
  {
    hide Quotable, NodesOf, ItemKeys, OwnId, Printable;
    forall i | 0 <= i < |order|
      ensures Quotable(ItemKeys(schema, items[order[i]]))
    {
      assert order[i] in order;
      ItemKeysAreQuotable(schema, items[order[i]]);
    }
    EntriesAreQuotable(ItemEntries(schema, items, order));
  }

  lemma OperationsAreQuotable(operations: map<uint32, SeasonalOperation>, order: seq<uint32>)
    requires Walks(order, operations.Keys)
    ensures Quotable(NodesOf(OperationEntries(operations, order)))
  {
    OperationNamesAreFields();
    hide OPERATION_NUMBERS, Quotable, NodesOf, OperationNumbers, FieldNames;
    forall i | 0 <= i < |order|
      ensures |OPERATION_NUMBERS| == |OperationNumbers(operations[order[i]])|
      ensures Quotable(Fields(OPERATION_NUMBERS, OperationNumbers(operations[order[i]])))
    {
      SixNumbers(operations[order[i]]);
      FieldsAreQuotable(OPERATION_NUMBERS, OperationNumbers(operations[order[i]]));
    }
    EntriesAreQuotable(OperationEntries(operations, order));
  }

  lemma EquipsAreQuotable(es: seq<(uint32, uint32, uint32)>)
    ensures Quotable(NodesOf(EquipEntries(es)))
  {
    EquipNamesAreFields();
    hide EQUIP_NUMBERS, Quotable, NodesOf, FieldNames;
    forall i | 0 <= i < |es|
      ensures Quotable(Fields(EQUIP_NUMBERS, [es[i].1, es[i].2]))
    {
      FieldsAreQuotable(EQUIP_NUMBERS, [es[i].1, es[i].2]);
    }
    EntriesAreQuotable(EquipEntries(es));
  }

  lemma FavoritesAreQuotable(order: seq<uint64>)
    ensures Quotable(NodesOf(FavoriteEntries(order)))
  {
    hide Quotable, NodesOf, FormatInt;
    NothingIsQuotable();
    IntIsClean(1);
    EntriesAreQuotable(FavoriteEntries(order));
  }

  // ---------------------------------------------------------------- the file

  /** What the program keeps in memory, in a form the file can hold. */
  predicate Writable(schema: Schema, accountId: uint32, image: Image) {
    OwnItems(schema, accountId, image.items) && OwnSeasons(image.operations) && |image.items| <= USABLE
  }

  lemma SubscriptionIsQuotable(subscription: Option<uint32>)
    ensures Quotable(SubscriptionKeys(subscription))
  {
    TopNames();
    hide TIME_INITIATED, FormatInt;
    if subscription.Some? {
      IntIsClean(subscription.value);
    }
  }

  lemma PlayerIsQuotable(config: Config, image: Image)
    ensures |PLAYER_NUMBERS| == |PlayerNumbers(config, image)| && Quotable(Fields(PLAYER_NUMBERS, PlayerNumbers(config, image)))
  {
    PlayerNamesAreFields();
    hide PLAYER_NUMBERS, FieldNames;
    FieldsAreQuotable(PLAYER_NUMBERS, PlayerNumbers(config, image));
  }

  lemma VersionIsQuotable()
    ensures Quotable([Field(FORMAT_VERSION, 1)])
  {
    TopNames();
    hide FORMAT_VERSION, FormatInt;
    IntIsClean(1);
  }

  lemma FileIsQuotable(schema: Schema, config: Config, accountId: uint32, image: Image, o: Order)
    requires Writable(schema, accountId, image) && IsOrder(image, o)
    ensures Quotable(FileTree(schema, config, image, o))
  {
    TopNames();
    hide FORMAT_VERSION, PLAYER_STATE, ITEMS, STATS_SUBSCRIPTION, SEASONAL_OPERATIONS, DEFAULT_EQUIPS, EVENT_FAVORITES, Quotable;
    hide NodesOf, ItemEntries, OperationEntries, EquipEntries, FavoriteEntries, SubscriptionKeys, OwnItems, OwnSeasons, Walks, CleanText;
    VersionIsQuotable();
    PlayerIsQuotable(config, image);
    ItemsAreQuotable(schema, accountId, image.items, o.items);
    SubscriptionIsQuotable(image.subscription);
    OperationsAreQuotable(image.operations, o.operations);
    EquipsAreQuotable(image.defaultEquips);
    FavoritesAreQuotable(o.favorites);
    AllQuotable(FileTree(schema, config, image, o));
  }

  lemma AllQuotable(ks: seq<Node>)
    requires forall i :: 0 <= i < |ks| ==> Quotable([ks[i]]) || (ks[i].str == [] && CleanText(ks[i].name) && Quotable(ks[i].subkeys))
    ensures Quotable(ks)
  {
    forall k | k in ks && !Skipped(k)
      ensures QUOTE !in CStr(k.name) && if k.str != [] then QUOTE !in CStr(k.str) else Quotable(k.subkeys)
    {
      var i :| 0 <= i < |ks| && ks[i] == k;
      assert k in [k];
    }
  }

  lemma TopNamesAreOwn(schema: Schema, config: Config, image: Image, o: Order)
    requires IsOrder(image, o)
    ensures OwnNames(FileTree(schema, config, image, o))
  {
    TopNames();
    hide FORMAT_VERSION, PLAYER_STATE, ITEMS, STATS_SUBSCRIPTION, SEASONAL_OPERATIONS, DEFAULT_EQUIPS, EVENT_FAVORITES;
    hide NodesOf, ItemEntries, OperationEntries, EquipEntries, FavoriteEntries, SubscriptionKeys, Walks, FormatInt, PlayerNumbers, Fields;
  }

  /** Each part of the file is found again under its name. */
  lemma PartsAreFound(schema: Schema, config: Config, image: Image, o: Order)
    requires IsOrder(image, o)
    ensures var ks := AbsorbAll([], FileTree(schema, config, image, o));
      && SubkeysIn(ks, PLAYER_STATE) == AbsorbAll([], Fields(PLAYER_NUMBERS, PlayerNumbers(config, image)))
      && SubkeysIn(ks, ITEMS) == AbsorbAll([], NodesOf(ItemEntries(schema, image.items, o.items)))
      && SubkeysIn(ks, STATS_SUBSCRIPTION) == AbsorbAll([], SubscriptionKeys(image.subscription))
      && SubkeysIn(ks, SEASONAL_OPERATIONS) == AbsorbAll([], NodesOf(OperationEntries(image.operations, o.operations)))
      && SubkeysIn(ks, DEFAULT_EQUIPS) == AbsorbAll([], NodesOf(EquipEntries(image.defaultEquips)))
      && SubkeysIn(ks, EVENT_FAVORITES) == AbsorbAll([], NodesOf(FavoriteEntries(o.favorites)))
  {
    PlayerIsQuotable(config, image);
    hide FORMAT_VERSION, PLAYER_STATE, ITEMS, STATS_SUBSCRIPTION, SEASONAL_OPERATIONS, DEFAULT_EQUIPS, EVENT_FAVORITES, OwnNames, AbsorbAll;
    hide NodesOf, ItemEntries, OperationEntries, EquipEntries, FavoriteEntries, SubscriptionKeys, Walks, FormatInt, PlayerNumbers, Fields;
    TopNamesAreOwn(schema, config, image, o);
    var tree := FileTree(schema, config, image, o);
    FoundAgain(tree, 1);
    FoundAgain(tree, 2);
    FoundAgain(tree, 3);
    FoundAgain(tree, 4);
    FoundAgain(tree, 5);
    FoundAgain(tree, 6);
  }

  lemma SubscriptionIsRead(subscription: Option<uint32>)
    ensures GetUint32(AbsorbAll([], SubscriptionKeys(subscription)), TIME_INITIATED) == if subscription.Some? then subscription.value else 0
  {
    TopNames();
    hide TIME_INITIATED, AbsorbAll, FormatInt, LeadingUint32;
    if subscription.Some? {
      var names, values := [TIME_INITIATED], [subscription.value as int];
      assert Fields(names, values) == SubscriptionKeys(subscription);
      assert FieldNames(names);
      FieldsAreRead(names, values);
      NumberIsRead(names, values, 0, 0);
    } else {
      assert AbsorbAll([], []) == [] by {
        NothingAbsorbed();
      }
    }
  }

  lemma NothingAbsorbed()
    ensures AbsorbAll([], []) == []
  {
  }

  lemma PlayerNumberIsRead(config: Config, image: Image, i: nat)
    requires i < |PLAYER_NUMBERS|
    ensures i < |PlayerNumbers(config, image)| && |PLAYER_NUMBERS| == |PlayerNumbers(config, image)|
    ensures var ks := Fields(PLAYER_NUMBERS, PlayerNumbers(config, image));
      GetInt32(ks, PLAYER_NUMBERS[i]) == PlayerNumbers(config, image)[i] && GetSubkey(ks, PLAYER_NUMBERS[i]).Some?
  {
    PlayerNamesAreFields();
    hide PLAYER_NUMBERS, FieldNames, FormatInt, LeadingInt32;
    FieldsAreFound(PLAYER_NUMBERS, PlayerNumbers(config, image), i);
    LeadingFormatInt32(PlayerNumbers(config, image)[i]);
  }

  /** The level and experience are restored under the configuration they were saved with. */
  lemma PlayerIsRead(config: Config, image: Image, later: Config)
    ensures |PLAYER_NUMBERS| == 4 && |PLAYER_NUMBERS| == |PlayerNumbers(config, image)|
    ensures var ks := AbsorbAll([], Fields(PLAYER_NUMBERS, PlayerNumbers(config, image)));
      && (SameConfig(later, ks) <==> later == config)
      && GetInt32(ks, PLAYER_NUMBERS[2]) == image.playerLevel && GetInt32(ks, PLAYER_NUMBERS[3]) == image.playerXp
  {
    PlayerNamesAreFields();
    ThePlayerNumbers(config, image);
    hide PLAYER_NUMBERS, FieldNames, AbsorbAll, PlayerNumbers, Fields, GetInt32, GetSubkey;
    PlayerNumberIsRead(config, image, 0);
    PlayerNumberIsRead(config, image, 1);
    PlayerNumberIsRead(config, image, 2);
    PlayerNumberIsRead(config, image, 3);
    FieldsAreRead(PLAYER_NUMBERS, PlayerNumbers(config, image));
  }

  lemma ThePlayerNumbers(config: Config, image: Image)
    ensures var n := PlayerNumbers(config, image);
      |n| == 4 && n[0] == config.level && n[1] == config.xp && n[2] == image.playerLevel && n[3] == image.playerXp
  {
  }

  /** What a restart makes of the contents of the file, apart from the version and the id counter. */
  function Restored(schema: Schema, accountId: uint32, image: Image, config: Config, later: Config, version: uint64, last: uint32, now: uint32): Memory {
    var items := Deduplicated(SurvivingItems(schema, image.items));
    Memory(items, SurvivingEquips(accountId, image.defaultEquips), version, last,
           RestoredTime(items, image.subscription, now), image.operations, image.eventFavorites - {0},
           if later == config then image.playerLevel else later.level, if later == config then image.playerXp else later.xp)
  }

  function RestoredTime(items: map<uint64, Item>, subscription: Option<uint32>, now: uint32): uint32 {
    if !HasDefinition(items, ITEM_STATS_SUBSCRIPTION) then 0
    else if subscription.Some? && subscription.value != 0 then subscription.value
    else now
  }

  lemma TreeIsReadBack(schema: Schema, accountId: uint32, image: Image, config: Config, o: Order, later: Config, version: uint64, now: uint32)
    requires Writable(schema, accountId, image) && IsOrder(image, o)
    ensures var ks := AbsorbAll([], FileTree(schema, config, image, o));
      && |SubkeysIn(ks, ITEMS)| <= USABLE
      && var read := ReadTree(schema, later, accountId, version, ks, now);
         && read == Restored(schema, accountId, image, config, later, version, read.lastHighItemId, now)
         && IsHighest(image.items.Keys, read.lastHighItemId)
  {
    PlayerNamesAreFields();
    hide FORMAT_VERSION, PLAYER_STATE, ITEMS, STATS_SUBSCRIPTION, SEASONAL_OPERATIONS, DEFAULT_EQUIPS, EVENT_FAVORITES, TIME_INITIATED, PLAYER_NUMBERS;
    hide NodesOf, ItemEntries, OperationEntries, EquipEntries, FavoriteEntries, SubscriptionKeys, Walks, PlayerNumbers, Fields, AbsorbAll, FileTree;
    hide ReadItems, ReadKeys, ReadOperations, ReadDefaultEquips, ReadFavorites, SurvivingItems, SurvivingEquips, Deduplicated, SameConfig, IsHighest;
    hide OwnItems, OwnSeasons, GetInt32, GetUint32, SubkeysIn, FieldNames, HasDefinition;
    var level, xp := if later == config then image.playerLevel else later.level, if later == config then image.playerXp else later.xp;
    var empty := Memory(map[], [], version, 0, 0, map[], {}, level, xp);
    PartsAreFound(schema, config, image, o);
    PlayerIsRead(config, image, later);
    AllItemsAreRead(schema, empty, accountId, image.items, o.items);
    SubscriptionIsRead(image.subscription);
    OperationsAreReadBack(image.operations, o.operations);
    EquipsAreReadBack(accountId, image.defaultEquips);
    FavoritesAreReadBack(image.eventFavorites, o.favorites);
  }

  /**
   Main result: reading a file that holds the image gives what is restored of it, whatever
   the order in which the items, operations and favorites were written.
   */
  lemma FileIsReadBack(schema: Schema, accountId: uint32, image: Image, config: Config, text: Text, later: Config, version: uint64, now: uint32)
    requires Writable(schema, accountId, image) && IsFileOf(schema, config, image, text)
    ensures text != [] && WithoutBom(text) == text && ParseText(text).Some? && |SubkeysIn(ParseText(text).value, ITEMS)| <= USABLE
    ensures var read := ReadTree(schema, later, accountId, version, ParseText(text).value, now);
      && read == Restored(schema, accountId, image, config, later, version, read.lastHighItemId, now)
      && IsHighest(image.items.Keys, read.lastHighItemId)
  {
    hide FileTree, AbsorbAll, Quotable, Writable, IsOrder, ReadTree, Restored, ITEMS, IsHighest, SubkeysIn;
    var o :| IsOrder(image, o) && text == PrintBody(FileTree(schema, config, image, o), 0);
    FileIsQuotable(schema, config, accountId, image, o);
    PrintedTreeReloads(FileTree(schema, config, image, o));
    PrintedStart(FileTree(schema, config, image, o));
    FileIsNotEmpty(schema, config, image, o);
    TreeIsReadBack(schema, accountId, image, config, o, later, version, now);
  }

  lemma FileIsNotEmpty(schema: Schema, config: Config, image: Image, o: Order)
    requires IsOrder(image, o)
    ensures Pruned(FileTree(schema, config, image, o)) != []
  {
    hide FORMAT_VERSION, PLAYER_STATE, ITEMS, STATS_SUBSCRIPTION, SEASONAL_OPERATIONS, DEFAULT_EQUIPS, EVENT_FAVORITES;
    hide NodesOf, ItemEntries, OperationEntries, EquipEntries, FavoriteEntries, SubscriptionKeys, Walks, PlayerNumbers, Fields;
    var tree := FileTree(schema, config, image, o);
    assert tree[0] == Field(FORMAT_VERSION, 1);
    assert PrunedKey(tree[0]) != [];
  }

  // --------------------------------------------------- what survives unchanged

  /** An attribute of the type the schema gives it: a float with six decimals at most, a uint32, or a string that is not empty. */
  predicate WholeAttribute(schema: Schema, a: Attribute) {
    && a.defIndex in schema.attributeTypes
    && match schema.attributeTypes[a.defIndex]
       case FloatType => a.value.Real? && Integral(a.value.x * 1_000_000.0)
       case Uint32Type => a.value.Number?
       case StringType => a.value.Str? && a.value.s != []
  }

  predicate DistinctDefinitions(attributes: seq<Attribute>) {
    forall i, j :: 0 <= i < j < |attributes| ==> attributes[i].defIndex != attributes[j].defIndex
  }

  predicate DistinctClasses(es: seq<Equipped>) {
    forall i, j :: 0 <= i < j < |es| ==> es[i].classId != es[j].classId
  }

  predicate WholeItem(schema: Schema, item: Item) {
    && item.quantity == 1 && !(item.quality == QUALITY_NORMAL && IsPainted(item.attributes))
    && (forall a <- item.attributes :: WholeAttribute(schema, a)) && DistinctDefinitions(item.attributes)
    && DistinctClasses(item.equipped)
  }

  lemma WholeValues(schema: Schema, a: Attribute)
    ensures WholeAttribute(schema, a) <==> IsWritten(schema, a) && SurvivingValue(schema, a) == a.value
    ensures IsWritten(schema, a) ==> WholeAttribute(schema, Attribute(a.defIndex, SurvivingValue(schema, a)))
  {
    hide SixDecimals, Integral;
    SixDecimalsMeaning(RealOf(schema, a));
    SixDecimalsMeaning(SixDecimals(RealOf(schema, a)));
  }

  lemma {:induction false} WrittenAreWhole(schema: Schema, attributes: seq<Attribute>)
    ensures SmallKeys(WrittenValues(schema, attributes))
    ensures forall e <- WrittenValues(schema, attributes) :: e.0 < 0x1_0000_0000 && WholeAttribute(schema, Attribute(e.0, e.1))
  {
    if attributes != [] {
      hide SurvivingValue, IsWritten, WholeAttribute;
      WholeValues(schema, attributes[0]);
      WrittenAreWhole(schema, attributes[1..]);
    }
  }

  lemma {:induction false} WholeAreWritten(schema: Schema, attributes: seq<Attribute>)
    requires forall a <- attributes :: WholeAttribute(schema, a)
    ensures WrittenValues(schema, attributes) == seq(|attributes|, i requires 0 <= i < |attributes| => (attributes[i].defIndex, attributes[i].value))
  {
    if attributes != [] {
      hide SurvivingValue, IsWritten, WholeAttribute;
      assert attributes[0] in attributes && forall a <- attributes[1..] :: a in attributes;
      WholeValues(schema, attributes[0]);
      WholeAreWritten(schema, attributes[1..]);
    }
  }

  lemma {:induction false} PutAllIsFrom<V(!new)>(acc: seq<(uint64, V)>, es: seq<(uint64, V)>)
    ensures forall i :: 0 <= i < |PutAll(acc, es)| ==> IsFrom(acc, es, PutAll(acc, es)[i])
    decreases es
  {
    if es == [] {
    } else {
      var more := Put(acc, es[0]);
      PutAllIsFrom(more, es[1..]);
      forall i | 0 <= i < |PutAll(acc, es)|
        ensures IsFrom(acc, es, PutAll(acc, es)[i])
      {
        var e := PutAll(more, es[1..])[i];
        assert PutAll(acc, es)[i] == e;
        assert IsFrom(more, es[1..], e);
        if exists k :: 0 <= k < |es[1..]| && es[1..][k] == e {
          var k :| 0 <= k < |es[1..]| && es[1..][k] == e;
          assert es[k + 1] == e;
        } else {
          var k :| 0 <= k < |more| && more[k] == e;
          assert e == es[0] || acc[k] == e;
        }
      }
    }
  }

  ghost predicate IsFrom<V>(acc: seq<(uint64, V)>, es: seq<(uint64, V)>, e: (uint64, V)) {
    (exists k :: 0 <= k < |acc| && acc[k] == e) || (exists k :: 0 <= k < |es| && es[k] == e)
  }

  lemma SurvivingAttributesAreWhole(schema: Schema, attributes: seq<Attribute>)
    ensures forall a <- SurvivingAttributes(schema, attributes) :: WholeAttribute(schema, a)
    ensures DistinctDefinitions(SurvivingAttributes(schema, attributes))
  {
    hide WholeAttribute, WrittenValues, Put, PutAll;
    var es := WrittenValues(schema, attributes);
    WrittenAreWhole(schema, attributes);
    PutAllIsFrom([], es);
    PutAllIsDistinct([], es);
    PutAllIsSmall([], es);
    var all := PutAll([], es);
    forall i | 0 <= i < |all|
      ensures WholeAttribute(schema, Attribute(all[i].0, all[i].1))
    {
      assert IsFrom([], es, all[i]);
    }
  }

  lemma WholeAttributesSurvive(schema: Schema, attributes: seq<Attribute>)
    requires (forall a <- attributes :: WholeAttribute(schema, a)) && DistinctDefinitions(attributes)
    ensures SurvivingAttributes(schema, attributes) == attributes
  {
    hide WholeAttribute, WrittenValues, Put, PutAll;
    WholeAreWritten(schema, attributes);
    WrittenKeysAreSmall(schema, attributes);
    NothingTwice(WrittenValues(schema, attributes));
  }

  lemma SurvivingEquippedMeaning(es: seq<Equipped>)
    ensures SurvivingEquipped(es) == es <==> DistinctClasses(es)
  {
    hide Put, PutAll;
    NothingTwice(SlotsOf(es));
    SlotKeysAreSmall(es);
    PutAllIsSmall([], SlotsOf(es));
    var all := PutAll([], SlotsOf(es));
    if SurvivingEquipped(es) == es {
      forall i | 0 <= i < |all|
        ensures all[i] == SlotsOf(es)[i]
      {
        assert es[i] == SurvivingEquipped(es)[i];
        assert all[i] in all;
      }
      assert all == SlotsOf(es);
    }
  }

  lemma WholeItemSurvives(schema: Schema, item: Item)
    ensures SurvivingItem(schema, item) == item <==> WholeItem(schema, item)
  {
    hide SurvivingAttributes, SurvivingEquipped, WholeAttribute, DistinctDefinitions, DistinctClasses;
    SurvivingAttributesAreWhole(schema, item.attributes);
    if (forall a <- item.attributes :: WholeAttribute(schema, a)) && DistinctDefinitions(item.attributes) {
      WholeAttributesSurvive(schema, item.attributes);
    }
    SurvivingEquippedMeaning(item.equipped);
  }

  predicate OneEach(es: seq<DefaultEquip>) {
    forall i, j :: 0 <= i < j < |es| ==> es[i].itemDefinition != es[j].itemDefinition
  }

  lemma EquipsSurvive(accountId: uint32, es: seq<DefaultEquip>)
    ensures SurvivingEquips(accountId, DefaultEntries(es)) == es <==> (OneEach(es) && forall e <- es :: e.accountId == accountId)
  {
    hide Put, PutAll;
    var entries := PlacesOf(DefaultEntries(es));
    NothingTwice(entries);
    PlaceKeysAreSmall(DefaultEntries(es));
    PutAllIsSmall([], entries);
    var all, survivors := PutAll([], entries), SurvivingEquips(accountId, DefaultEntries(es));
    if survivors == es {
      forall i | 0 <= i < |all|
        ensures all[i] == entries[i]
      {
        assert all[i] in all && es[i] == survivors[i];
      }
      assert all == entries;
      assert forall i :: 0 <= i < |es| ==> es[i] == survivors[i];
    }
    if OneEach(es) && forall e <- es :: e.accountId == accountId {
      assert forall i :: 0 <= i < |es| ==> survivors[i] == es[i];
    }
  }

  predicate OneSubscription(items: map<uint64, Item>) {
    forall a <- items, b <- items :: items[a].defIndex == ITEM_STATS_SUBSCRIPTION && items[b].defIndex == ITEM_STATS_SUBSCRIPTION ==> a == b
  }

  lemma ItemsSurvive(schema: Schema, items: map<uint64, Item>)
    ensures Deduplicated(SurvivingItems(schema, items)) == items <==>
      (OneSubscription(items) && forall id <- items :: WholeItem(schema, items[id]))
  {
    hide SurvivingItem, WholeItem;
    var surviving := SurvivingItems(schema, items);
    forall id | id in items
      ensures surviving[id] == items[id] <==> WholeItem(schema, items[id])
      ensures surviving[id].defIndex == items[id].defIndex
    {
      WholeItemSurvives(schema, items[id]);
      SameDefinition(schema, items[id]);
    }
    if Deduplicated(surviving) == items {
      assert forall id <- items :: id in Deduplicated(surviving);
    }
  }

  lemma SameDefinition(schema: Schema, item: Item)
    ensures SurvivingItem(schema, item).defIndex == item.defIndex
  {
  }

  /** What a restart keeps exactly as it is. */
  predicate Lossless(schema: Schema, accountId: uint32, m: Memory) {
    && (forall id <- m.items :: WholeItem(schema, m.items[id])) && OneSubscription(m.items)
    && (m.statsTimeInitiated != 0 <==> HasDefinition(m.items, ITEM_STATS_SUBSCRIPTION))
    && OneEach(m.defaultEquips) && (forall e <- m.defaultEquips :: e.accountId == accountId)
    && 0 !in m.eventFavorites
  }

  lemma LosslessMeaning(schema: Schema, accountId: uint32, m: Memory, config: Config, last: uint32, now: uint32)
    requires now != 0
    ensures Restored(schema, accountId, ImageOf(m), config, config, m.version, last, now) == m.(lastHighItemId := last)
      <==> Lossless(schema, accountId, m)
  {
    hide Deduplicated, SurvivingItems, SurvivingEquips, WholeItem, OneSubscription, OneEach, HasDefinition;
    ItemsSurvive(schema, m.items);
    EquipsSurvive(accountId, m.defaultEquips);
  }

  /**
   Main result: a restart from the file of a memory restores that memory, all but the id
   counter, if and only if nothing in it is lost on the way; and the counter is at the
   highest id in use.
   */
  lemma RestartRestoresExactlyWhen(schema: Schema, accountId: uint32, m: Memory, config: Config, text: Text, now: uint32)
    requires Writable(schema, accountId, ImageOf(m)) && IsFileOf(schema, config, ImageOf(m), text) && now != 0
    ensures ParseText(text).Some? && |SubkeysIn(ParseText(text).value, ITEMS)| <= USABLE
    ensures var read := ReadTree(schema, config, accountId, m.version, ParseText(text).value, now);
      && (read == m.(lastHighItemId := read.lastHighItemId) <==> Lossless(schema, accountId, m))
      && IsHighest(m.items.Keys, read.lastHighItemId)
  {
    hide Restored, ReadTree, Lossless, Writable, IsFileOf, IsHighest, SubkeysIn, ITEMS;
    FileIsReadBack(schema, accountId, ImageOf(m), config, text, config, m.version, now);
    LosslessMeaning(schema, accountId, m, config, ReadTree(schema, config, accountId, m.version, ParseText(text).value, now).lastHighItemId, now);
  }

  /** A wear comes back within half a millionth, and stays as it is from then on. */
  lemma FloatsAreNear(schema: Schema, a: Attribute, x: real)
    requires a.defIndex in schema.attributeTypes && schema.attributeTypes[a.defIndex] == FloatType && a.value == Real(x)
    ensures var y := SurvivingValue(schema, a);
      && y.Real? && -0.0000005 <= y.x - x <= 0.0000005
      && SurvivingValue(schema, a.(value := y)) == y
  {
    hide SixDecimals;
    SixDecimalsMeaning(x);
  }

  // ------------------------------------------------------- quotes in a string

  /** A string attribute with a quote in front of a character that cannot follow one. */
  predicate SpoilsAttribute(schema: Schema, a: Attribute, j: nat) {
    && a.defIndex in schema.attributeTypes && schema.attributeTypes[a.defIndex] == StringType
    && a.value.Str? && SpoilsAt(a.value.s, j)
  }

  lemma AttributesAreSpoiled(schema: Schema, attributes: seq<Attribute>, n: nat, j: nat)
    requires n < |attributes| && SpoilsAttribute(schema, attributes[n], j) && j < |StringOf(attributes[n])|
    requires forall i :: 0 <= i < n ==> Printable(schema, attributes[i])
    ensures |NodesOf(AttributeEntries(schema, attributes))| == |attributes|
    ensures Quotable(NodesOf(AttributeEntries(schema, attributes))[..n]) && Spoiled(NodesOf(AttributeEntries(schema, attributes))[n])
  {
    hide Printable, SpoilsAt, FormatInt;
    var ks := NodesOf(AttributeEntries(schema, attributes));
    AttributeEntriesAreQuotable(schema, attributes[..n]);
    assert ks[..n] == NodesOf(AttributeEntries(schema, attributes[..n]));
    IntIsClean(attributes[n].defIndex);
    assert ks[n].str == attributes[n].value.s;
  }

  lemma BranchIsSpoiled(node: Node, k: nat)
    requires node.str == [] && CleanText(node.name) && k < |node.subkeys| && Quotable(node.subkeys[..k]) && Spoiled(node.subkeys[k])
    ensures Spoiled(node)
  {
  }

  lemma ItemIsSpoiled(schema: Schema, item: Item, n: nat, j: nat)
    requires n < |item.attributes| && SpoilsAttribute(schema, item.attributes[n], j) && j < |StringOf(item.attributes[n])|
    requires forall i :: 0 <= i < n ==> Printable(schema, item.attributes[i])
    ensures |ItemKeys(schema, item)| == 10 && Quotable(ItemKeys(schema, item)[..8]) && Spoiled(ItemKeys(schema, item)[8])
  {
    ItemNamesAreFields();
    hide ITEM_NUMBERS, ATTRIBUTES, EQUIPPED_STATE, AttributeEntries, EquippedEntries, NodesOf, ItemNumbers, Fields, Printable, SpoilsAttribute, FieldNames;
    hide Quotable;
    ItemNumbersAreEight(item);
    FieldsAreQuotable(ITEM_NUMBERS, ItemNumbers(item));
    AttributesAreSpoiled(schema, item.attributes, n, j);
    EightFields(schema, item);
    assert ItemKeys(schema, item)[8] == Node(ATTRIBUTES, NodesOf(AttributeEntries(schema, item.attributes)), []);
    BranchIsSpoiled(ItemKeys(schema, item)[8], n);
  }

  lemma EightFields(schema: Schema, item: Item)
    requires |ITEM_NUMBERS| == |ItemNumbers(item)| == 8
    ensures |ItemKeys(schema, item)| == 10 && ItemKeys(schema, item)[..8] == Fields(ITEM_NUMBERS, ItemNumbers(item))
  {
    hide AttributeEntries, EquippedEntries, NodesOf, ItemNumbers, ITEM_NUMBERS, ATTRIBUTES, EQUIPPED_STATE;
  }

  /** The items that are written before the k-th can be read. */
  ghost predicate PrintableBefore(schema: Schema, items: map<uint64, Item>, order: seq<uint64>, k: nat) {
    forall i :: 0 <= i < k < |order| && order[i] in items ==> forall a <- items[order[i]].attributes :: Printable(schema, a)
  }

  lemma ItemsAreSpoiled(schema: Schema, items: map<uint64, Item>, order: seq<uint64>, k: nat, n: nat, j: nat)
    requires (forall id <- order :: id in items) && k < |order| && PrintableBefore(schema, items, order, k)
    requires var item := items[order[k]];
      n < |item.attributes| && SpoilsAttribute(schema, item.attributes[n], j) && j < |StringOf(item.attributes[n])|
      && forall i :: 0 <= i < n ==> Printable(schema, item.attributes[i])
    ensures var ks := NodesOf(ItemEntries(schema, items, order)); |ks| == |order| && Quotable(ks[..k]) && Spoiled(ks[k])
  {
    hide ItemKeys, Printable, SpoilsAttribute, FormatInt, Quotable;
    var ks, es := NodesOf(ItemEntries(schema, items, order)), ItemEntries(schema, items, order);
    forall i | 0 <= i < k
      ensures Quotable(es[i].1.subkeys)
    {
      ItemKeysAreQuotable(schema, items[order[i]]);
    }
    EntriesAreQuotable(es[..k]);
    assert ks[..k] == NodesOf(es[..k]);
    ItemIsSpoiled(schema, items[order[k]], n, j);
    IntIsClean(HighItemId(items[order[k]].id));
    assert ks[k].subkeys == ItemKeys(schema, items[order[k]]) && ks[k].str == [];
  }

  /**
   One custom name with a quote, followed by a letter for instance, makes the file that is
   saved unreadable: nothing of it is restored, and nothing is saved any more.
   */
  lemma QuoteSpoilsTheFile(schema: Schema, image: Image, config: Config, o: Order, k: nat, n: nat, j: nat)
    requires IsOrder(image, o) && k < |o.items| && PrintableBefore(schema, image.items, o.items, k)
    requires var item := image.items[o.items[k]];
      n < |item.attributes| && SpoilsAttribute(schema, item.attributes[n], j) && j < |StringOf(item.attributes[n])|
      && forall i :: 0 <= i < n ==> Printable(schema, item.attributes[i])
    ensures TreeIn(Contents(PrintBody(FileTree(schema, config, image, o), 0))) == None
  {
    TopNames();
    hide FORMAT_VERSION, PLAYER_STATE, ITEMS, STATS_SUBSCRIPTION, SEASONAL_OPERATIONS, DEFAULT_EQUIPS, EVENT_FAVORITES;
    hide NodesOf, ItemEntries, OperationEntries, EquipEntries, FavoriteEntries, SubscriptionKeys, Walks, CleanText, PlayerNumbers, Fields;
    hide Quotable, Printable, SpoilsAttribute, SpoilsAt, PrintBody, ParseText;
    WalkIsIn(image, o);
    ItemsAreSpoiled(schema, image.items, o.items, k, n, j);
    VersionIsQuotable();
    PlayerIsQuotable(config, image);
    var tree := FileTree(schema, config, image, o);
    AllQuotable(tree[..2]);
    PrintedStart(tree);
    BranchIsSpoiled(tree[2], k);
    SpoiledTreeIsUnreadable(tree, 2);
  }

  lemma WalkIsIn(image: Image, o: Order)
    requires IsOrder(image, o)
    ensures forall id <- o.items :: id in image.items
  {
  }

  // ------------------------------------------------------------------ all runs

  /** What a restart reads from the text of the file. */
  ghost function AfterRestart(schema: Schema, accountId: uint32, config: Config, version: uint64, text: Text, now: uint32): Option<Memory> {
    var ks := TreeIn(Contents(text));
    if ks.Some? && |SubkeysIn(ks.value, ITEMS)| <= USABLE then Some(ReadTree(schema, config, accountId, version, ks.value, now)) else None
  }

  /** The same but for the version and the id counter, which are not saved. */
  predicate SameContents(a: Memory, b: Memory) {
    a == b.(version := a.version, lastHighItemId := a.lastHighItemId)
  }

  lemma RestartRestores(schema: Schema, accountId: uint32, m: Memory, config: Config, version: uint64, text: Text, now: uint32)
    requires Writable(schema, accountId, ImageOf(m)) && IsFileOf(schema, config, ImageOf(m), text) && now != 0
    ensures var read := AfterRestart(schema, accountId, config, version, text, now);
      read.Some? && (SameContents(read.value, m) <==> Lossless(schema, accountId, m))
  {
    hide Restored, ReadTree, Lossless, Writable, IsFileOf, IsHighest, SubkeysIn, ITEMS, ParseText, WithoutBom;
    FileIsReadBack(schema, accountId, ImageOf(m), config, text, config, version, now);
    var read := ReadTree(schema, config, accountId, version, ParseText(text).value, now);
    RestoredSame(schema, accountId, m, config, version, read.lastHighItemId, now);
  }

  lemma RestoredSame(schema: Schema, accountId: uint32, m: Memory, config: Config, version: uint64, last: uint32, now: uint32)
    requires now != 0
    ensures SameContents(Restored(schema, accountId, ImageOf(m), config, config, version, last, now), m) <==> Lossless(schema, accountId, m)
  {
    hide Deduplicated, SurvivingItems, SurvivingEquips, Lossless, RestoredTime;
    LosslessMeaning(schema, accountId, m, config, last, now);
  }

  /**
   Over all runs with failing saves: restarting from the file that was saved last restores
   what the program holds, if and only if none of it is lost on the way.
   */
  lemma RestartLosesNothing(schema: Schema, accountId: uint32, states: seq<Persisted.Machine>, events: seq<Persisted.Event>, n: nat,
                            config: Config, version: uint64, text: Text, now: uint32)
    requires Persisted.IsRun(schema, accountId, states, events) && Persisted.InSync(states[0]) && n <= |events| && now != 0
    requires Writable(schema, accountId, ImageOf(states[n].memory)) && IsFileOf(schema, config, states[n].file, text)
    ensures var read := AfterRestart(schema, accountId, config, version, text, now);
      read.Some? && (SameContents(read.value, states[n].memory) <==> Lossless(schema, accountId, states[n].memory))
  {
    hide Writable, Lossless, IsFileOf, AfterRestart, ImageOf, Persisted.After, Persisted.Recoverable;
    Persisted.RunStaysInSync(schema, accountId, states, events, n);
    RestartRestores(schema, accountId, states[n].memory, config, version, text, now);
  }

  /**
   One attempt: after a change that is reported a restart gives the new contents, and after
   one that is not the file is what it was.
   */
  lemma AttemptSurvivesRestart(schema: Schema, accountId: uint32, s: Persisted.Machine, e: Persisted.Event,
                               config: Config, version: uint64, text: Text, now: uint32)
    requires |s.memory.items| < USABLE && now != 0 && IsFileOf(schema, config, Persisted.After(schema, accountId, s, e).file, text)
    requires Writable(schema, accountId, ImageOf(Persisted.After(schema, accountId, s, e).memory))
    ensures var s' := Persisted.After(schema, accountId, s, e);
      var reported := Persisted.Reports(schema, s.memory, e.op, e.chosen, e.diskTakesIt);
      && (!reported ==> s'.file == s.file)
      && (reported && s' != s ==>
            var read := AfterRestart(schema, accountId, config, version, text, now);
            read.Some? && (SameContents(read.value, s'.memory) <==> Lossless(schema, accountId, s'.memory)))
  {
    hide Writable, Lossless, IsFileOf, AfterRestart, ImageOf, Persisted.After, Persisted.Reports, Persisted.Recoverable;
    var s' := Persisted.After(schema, accountId, s, e);
    Persisted.AttemptIsAtomic(schema, accountId, s, e);
    if Persisted.Reports(schema, s.memory, e.op, e.chosen, e.diskTakesIt) && s' != s {
      RestartRestores(schema, accountId, s'.memory, config, version, text, now);
    }
  }
}
