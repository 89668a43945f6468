/**
 How the parts of the inventory file are read back: items with their attributes and slots,
 operations, default equips and favorites (inventory.cpp).
 */
module InventoryReading {
  import opened Prelude
  import opened Numbers
  import opened Items
  import opened ItemSchema
  import opened ItemIds
  import opened InventoryState
  import opened KeyValues
  import opened KeyValueRoundTrip
  import opened KeyValueRecords
  import opened InventoryFile

  // ---------------------------------------------------------- what survives

  /** A value as it is after a restart: floats have six decimals, and types are those of the schema. */
  function SurvivingValue(schema: Schema, a: Attribute): Value {
    if a.defIndex !in schema.attributeTypes then Unset
    else match schema.attributeTypes[a.defIndex]
      case FloatType => Real(SixDecimals(RealOf(schema, a)))
      case Uint32Type => Number(NumberOf(schema, a))
      case StringType => Str(StringOf(a))
  }

  /** Attributes the schema does not know and empty strings are not written. */
  predicate IsWritten(schema: Schema, a: Attribute) {
    a.defIndex in schema.attributeTypes && (schema.attributeTypes[a.defIndex] == StringType ==> StringOf(a) != [])
  }

  function WrittenValues(schema: Schema, attributes: seq<Attribute>): seq<(uint64, Value)> {
    if attributes == [] then []
    else
      (if IsWritten(schema, attributes[0]) then [(attributes[0].defIndex, SurvivingValue(schema, attributes[0]))] else [])
      + WrittenValues(schema, attributes[1..])
  }

  /** Entries whose keys are definitions. */
  ghost predicate SmallKeys<V>(es: seq<(uint64, V)>) {
    forall e <- es :: e.0 < 0x1_0000_0000
  }

  function AttributesOf(es: seq<(uint64, Value)>): seq<Attribute>
    requires SmallKeys(es)
  {
    seq(|es|, i requires 0 <= i < |es| => assert es[i] in es; Attribute(es[i].0, es[i].1))
  }

  lemma {:induction false} WrittenKeysAreSmall(schema: Schema, attributes: seq<Attribute>)
    ensures SmallKeys(WrittenValues(schema, attributes))
  {
    if attributes != [] {
      WrittenKeysAreSmall(schema, attributes[1..]);
    }
  }

  lemma {:induction false} PutAllIsSmall<V>(acc: seq<(uint64, V)>, es: seq<(uint64, V)>)
    requires SmallKeys(acc) && SmallKeys(es)
    ensures SmallKeys(PutAll(acc, es))
    decreases es
  {
    if es != [] {
      assert es[0] in es && forall e <- es[1..] :: e in es;
      assert forall e <- Put(acc, es[0]) :: e in acc || e == es[0];
      PutAllIsSmall(Put(acc, es[0]), es[1..]);
    }
  }

  /** One attribute for each definition: the last value in the place of the first. */
  function SurvivingAttributes(schema: Schema, attributes: seq<Attribute>): seq<Attribute> {
    WrittenKeysAreSmall(schema, attributes);
    PutAllIsSmall([], WrittenValues(schema, attributes));
    AttributesOf(PutAll([], WrittenValues(schema, attributes)))
  }

  function SlotsOf(es: seq<Equipped>): seq<(uint64, uint32)> {
    seq(|es|, i requires 0 <= i < |es| => (es[i].classId, es[i].slotId))
  }

  function EquippedOf(es: seq<(uint64, uint32)>): seq<Equipped>
    requires SmallKeys(es)
  {
    seq(|es|, i requires 0 <= i < |es| => assert es[i] in es; Equipped(es[i].0, es[i].1))
  }

  lemma SlotKeysAreSmall(es: seq<Equipped>)
    ensures SmallKeys(SlotsOf(es))
  {
  }

  /** One slot for each class. */
  function SurvivingEquipped(es: seq<Equipped>): seq<Equipped> {
    SlotKeysAreSmall(es);
    PutAllIsSmall([], SlotsOf(es));
    EquippedOf(PutAll([], SlotsOf(es)))
  }

  /** An item after a restart: one of its kind, and of unique quality if it is painted and was of normal. */
  function SurvivingItem(schema: Schema, item: Item): Item {
    var attributes := SurvivingAttributes(schema, item.attributes);
    item.(quantity := 1, quality := ReadQuality(item.quality, attributes), attributes := attributes,
          equipped := SurvivingEquipped(item.equipped))
  }

  // ------------------------------------------------- mapping over keyed lists

  function Mapped<V, W>(f: (uint64, V) -> W, es: seq<(uint64, V)>): seq<(uint64, W)> {
    seq(|es|, i requires 0 <= i < |es| => (es[i].0, f(es[i].0, es[i].1)))
  }

  lemma {:induction false} PlaceInMapped<V, W>(f: (uint64, V) -> W, es: seq<(uint64, V)>, key: uint64)
    ensures PlaceOf(Mapped(f, es), key) == PlaceOf(es, key)
  {
    if es != [] {
      PlaceInMapped(f, es[1..], key);
      assert Mapped(f, es)[1..] == Mapped(f, es[1..]);
    }
  }

  lemma MappedPut<V, W>(f: (uint64, V) -> W, es: seq<(uint64, V)>, e: (uint64, V))
    ensures Mapped(f, Put(es, e)) == Put(Mapped(f, es), (e.0, f(e.0, e.1)))
  {
    PlaceInMapped(f, es, e.0);
    assert Mapped(f, Put(es, e)) == Put(Mapped(f, es), (e.0, f(e.0, e.1)));
  }

  lemma {:induction false} MappedPutAll<V, W>(f: (uint64, V) -> W, acc: seq<(uint64, V)>, es: seq<(uint64, V)>)
    ensures Mapped(f, PutAll(acc, es)) == PutAll(Mapped(f, acc), Mapped(f, es))
    decreases es
  {
    if es != [] {
      hide Put;
      MappedPut(f, acc, es[0]);
      MappedPutAll(f, Put(acc, es[0]), es[1..]);
      assert Mapped(f, es)[0] == (es[0].0, f(es[0].0, es[0].1)) && Mapped(f, es)[1..] == Mapped(f, es[1..]);
    }
  }

  // ---------------------------------------------------------- one attribute

  /** Strings that the file format can hold. */
  predicate Printable(schema: Schema, a: Attribute) {
    a.value.Str? ==> CleanText(a.value.s)
  }

  lemma FixedIsClean(x: real)
    ensures CleanText(FormatFixed(x))
  {
  }

  lemma IntIsClean(n: int)
    ensures CleanText(FormatInt(n)) && CStr(FormatInt(n)) == FormatInt(n)
  {
  }

  lemma TextIsClean(schema: Schema, a: Attribute)
    requires Printable(schema, a)
    ensures CleanText(AttributeText(schema, a))
    ensures AttributeText(schema, a) != [] <==> IsWritten(schema, a)
  {
    FixedIsClean(RealOf(schema, a));
    IntIsClean(NumberOf(schema, a));
  }

  /** Its text reads as the surviving value. */
  lemma TextReadsBack(schema: Schema, a: Attribute)
    requires IsWritten(schema, a)
    ensures WithString(schema, Attribute(a.defIndex, Unset), AttributeText(schema, a)) == Attribute(a.defIndex, SurvivingValue(schema, a))
  {
    hide FormatFixed, FormatInt, LeadingReal, LeadingUint32, SixDecimals, RealOf, NumberOf;
    FixedReadsBack(RealOf(schema, a));
    LeadingFormat(NumberOf(schema, a));
  }

  // ----------------------------------------------------- lists of attributes

  /** The entries that are written. */
  function Kept(es: seq<(uint64, Content)>): seq<(uint64, Content)> {
    if es == [] then []
    else (if es[0].1.str == [] && es[0].1.subkeys == [] then [] else [es[0]]) + Kept(es[1..])
  }

  lemma {:induction false} OnlyKeptCount(acc: seq<Node>, es: seq<(uint64, Content)>)
    ensures AbsorbAll(acc, NodesOf(es)) == AbsorbAll(acc, NodesOf(Kept(es)))
    decreases es
  {
    if es != [] {
      hide Absorb, Skipped;
      var one, rest := NodeOf(es[0]), NodesOf(es[1..]);
      assert NodesOf(es)[0] == one && NodesOf(es)[1..] == rest;
      SkippedIsAbsorbed(acc, one);
      OnlyKeptCount(Absorb(acc, one), es[1..]);
      if es[0].1.str == [] && es[0].1.subkeys == [] {
        assert Kept(es) == Kept(es[1..]);
      } else {
        assert NodesOf(Kept(es))[0] == one && NodesOf(Kept(es))[1..] == NodesOf(Kept(es[1..]));
      }
    }
  }

  lemma SkippedIsAbsorbed(acc: seq<Node>, k: Node)
    ensures Skipped(k) <==> k.str == [] && k.subkeys == []
    ensures Skipped(k) ==> Absorb(acc, k) == acc
  {
  }

  function ValueReader(schema: Schema): (uint64, Content) -> Value {
    (key: uint64, c: Content) =>
      if key < 0x1_0000_0000 then WithString(schema, Attribute(key, Unset), c.str).value else Unset
  }

  lemma {:induction false} KeptValues(schema: Schema, attributes: seq<Attribute>)
    requires forall a <- attributes :: Printable(schema, a)
    ensures Mapped(ValueReader(schema), Kept(AttributeEntries(schema, attributes))) == WrittenValues(schema, attributes)
    ensures forall e <- Kept(AttributeEntries(schema, attributes)) ::
      e.0 < 0x1_0000_0000 && e.1.subkeys == [] && e.1.str != [] && CleanText(e.1.str)
  {
    if attributes != [] {
      hide AttributeText, WithString, SurvivingValue, IsWritten, Printable, CleanText, AttributeEntries, Kept, Mapped;
      var a, rest := attributes[0], AttributeEntries(schema, attributes[1..]);
      assert a in attributes && forall x <- attributes[1..] :: x in attributes;
      KeptValues(schema, attributes[1..]);
      FirstEntry(schema, attributes);
      TextIsClean(schema, a);
      if IsWritten(schema, a) {
        TextReadsBack(schema, a);
        FirstMapped(ValueReader(schema), (a.defIndex, Content([], AttributeText(schema, a))), Kept(rest));
      }
    } else {
      NoEntries(schema);
    }
  }

  lemma FirstEntry(schema: Schema, attributes: seq<Attribute>)
    requires attributes != []
    ensures var text, rest := AttributeText(schema, attributes[0]), AttributeEntries(schema, attributes[1..]);
      Kept(AttributeEntries(schema, attributes))
        == (if text == [] then [] else [(attributes[0].defIndex, Content([], text))]) + Kept(rest)
  {
    hide AttributeText;
    assert AttributeEntries(schema, attributes)[1..] == AttributeEntries(schema, attributes[1..]);
  }

  lemma FirstMapped<V, W>(f: (uint64, V) -> W, e: (uint64, V), es: seq<(uint64, V)>)
    ensures Mapped(f, [e] + es) == [(e.0, f(e.0, e.1))] + Mapped(f, es)
  {
  }

  lemma NoEntries(schema: Schema)
    ensures Kept(AttributeEntries(schema, [])) == [] && Mapped(ValueReader(schema), []) == []
  {
  }

  lemma ReadIsMapped(schema: Schema, es: seq<(uint64, Content)>)
    requires SmallKeys(es) && SmallKeys(Mapped(ValueReader(schema), es))
    ensures ReadAttributes(schema, NodesOf(es)) == AttributesOf(Mapped(ValueReader(schema), es))
  {
    forall i | 0 <= i < |es|
      ensures ReadAttribute(schema, NodesOf(es)[i]) == AttributesOf(Mapped(ValueReader(schema), es))[i]
    {
      assert es[i] in es;
      LeadingFormat(es[i].0);
      KeyStays(schema, Attribute(es[i].0, Unset), es[i].1.str);
    }
  }

  lemma KeyStays(schema: Schema, a: Attribute, s: Text)
    ensures WithString(schema, a, s).defIndex == a.defIndex
  {
  }

  lemma LeavesAreUniform(es: seq<(uint64, Content)>)
    requires forall e <- es :: e.1.subkeys == [] && e.1.str != [] && CleanText(e.1.str)
    ensures Uniform(es, es)
  {
  }

  lemma MappedIsSmall<V, W>(f: (uint64, V) -> W, es: seq<(uint64, V)>)
    requires SmallKeys(es)
    ensures SmallKeys(Mapped(f, es))
  {
    assert forall i :: 0 <= i < |es| ==> es[i] in es;
  }

  lemma AttributesAreReadBack(schema: Schema, attributes: seq<Attribute>)
    requires forall a <- attributes :: Printable(schema, a)
    ensures ReadAttributes(schema, AbsorbAll([], NodesOf(AttributeEntries(schema, attributes)))) == SurvivingAttributes(schema, attributes)
  {
    hide AttributeEntries, CleanText, Printable, ReadAttributes, AttributesOf, Absorb, Uniform, NodesOf, Mapped, Put;
    var es := Kept(AttributeEntries(schema, attributes));
    KeptValues(schema, attributes);
    OnlyKeptCount([], AttributeEntries(schema, attributes));
    LeavesAreUniform(es);
    ListIsReadBack(es);
    PutAllIsSmall([], es);
    MappedIsSmall(ValueReader(schema), PutAll([], es));
    ReadIsMapped(schema, PutAll([], es));
    MappedPutAll(ValueReader(schema), [], es);
    NothingMapped(schema);
    WrittenKeysAreSmall(schema, attributes);
  }

  lemma NothingMapped(schema: Schema)
    ensures Mapped(ValueReader(schema), []) == []
  {
  }

  // ------------------------------------------------------------ one item

  function SlotReader(): (uint64, Content) -> uint32 {
    (key: uint64, c: Content) => LeadingUint32(c.str)
  }

  lemma SlotsAreMapped(es: seq<Equipped>)
    ensures Mapped(SlotReader(), EquippedEntries(es)) == SlotsOf(es)
    ensures forall e <- EquippedEntries(es) :: e.0 < 0x1_0000_0000 && e.1.subkeys == [] && e.1.str != [] && CleanText(e.1.str)
  {
    forall i | 0 <= i < |es|
      ensures LeadingUint32(FormatInt(es[i].slotId)) == es[i].slotId && CleanText(FormatInt(es[i].slotId))
    {
      LeadingFormat(es[i].slotId);
      IntIsClean(es[i].slotId);
    }
  }

  lemma EquippedIsMapped(es: seq<(uint64, Content)>)
    requires SmallKeys(es) && SmallKeys(Mapped(SlotReader(), es))
    ensures ReadEquipped(NodesOf(es)) == EquippedOf(Mapped(SlotReader(), es))
  {
    forall i | 0 <= i < |es|
      ensures LeadingUint32(NodesOf(es)[i].name) == es[i].0
    {
      assert es[i] in es;
      LeadingFormat(es[i].0);
    }
  }

  lemma EquippedIsReadBack(es: seq<Equipped>)
    ensures ReadEquipped(AbsorbAll([], NodesOf(EquippedEntries(es)))) == SurvivingEquipped(es)
  {
    hide EquippedEntries, CleanText, ReadEquipped, EquippedOf, Absorb, Uniform, NodesOf, Mapped, Put, SlotsOf;
    var entries := EquippedEntries(es);
    SlotsAreMapped(es);
    LeavesAreUniform(entries);
    ListIsReadBack(entries);
    PutAllIsSmall([], entries);
    MappedIsSmall(SlotReader(), PutAll([], entries));
    EquippedIsMapped(PutAll([], entries));
    MappedPutAll(SlotReader(), [], entries);
    SlotKeysAreSmall(es);
    assert Mapped(SlotReader(), []) == [] by {
      NoSlotsMapped();
    }
  }

  lemma NoSlotsMapped()
    ensures Mapped(SlotReader(), []) == []
  {
  }

  // ---------------------------------------------------------------- the names

  lemma PlainBytes(s: string)
    requires s != "" && forall i :: 0 <= i < |s| ==> s[i] as int < 0x100 && s[i] != '\"' && s[i] as int != 0
    ensures |Bytes(s)| == |s| && Bytes(s)[0] as int == s[0] as int && CleanText(Bytes(s))
  {
  }

  /** Different by their length or their first byte. */
  predicate Differ(a: Text, b: Text) {
    |a| != |b| || (a != [] && b != [] && a[0] != b[0])
  }

  lemma NameByName(names: seq<Text>)
    requires forall i, j :: 0 <= i < j < |names| ==> Differ(names[i], names[j])
    requires forall i :: 0 <= i < |names| ==> CleanText(names[i])
    ensures FieldNames(names)
  {
  }

  lemma ItemNamesAreFields()
    ensures |ITEM_NUMBERS| == 8 && FieldNames(ITEM_NUMBERS)
    ensures CleanText(ATTRIBUTES) && CleanText(EQUIPPED_STATE) && |ATTRIBUTES| == 10 && |EQUIPPED_STATE| == 14 && |CUSTOM_NAME| == 11
    ensures forall name <- ITEM_NUMBERS :: |name| <= 9
  {
    hide Bytes, CleanText;
    PlainBytes("inventory");
    PlainBytes("def_index");
    PlainBytes("level");
    PlainBytes("quality");
    PlainBytes("flags");
    PlainBytes("origin");
    PlainBytes("in_use");
    PlainBytes("rarity");
    PlainBytes("attributes");
    PlainBytes("equipped_state");
    PlainBytes("custom_name");
    NameByName(ITEM_NUMBERS);
  }

  lemma OperationNamesAreFields()
    ensures |OPERATION_NUMBERS| == 6 && FieldNames(OPERATION_NUMBERS)
  {
    hide Bytes, CleanText;
    PlainBytes("tier_unlocked");
    PlainBytes("premium_tiers");
    PlainBytes("mission_id");
    PlainBytes("missions_completed");
    PlainBytes("redeemable_balance");
    PlainBytes("season_pass_time");
    NameByName(OPERATION_NUMBERS);
  }

  lemma PlayerNamesAreFields()
    ensures |PLAYER_NUMBERS| == 4 && FieldNames(PLAYER_NUMBERS)
  {
    hide Bytes, CleanText;
    PlainBytes("configured_level");
    PlainBytes("configured_xp");
    PlainBytes("level");
    PlainBytes("xp");
    NameByName(PLAYER_NUMBERS);
  }

  lemma EquipNamesAreFields()
    ensures |EQUIP_NUMBERS| == 2 && FieldNames(EQUIP_NUMBERS)
  {
    hide Bytes, CleanText;
    PlainBytes("class_id");
    PlainBytes("slot_id");
    NameByName(EQUIP_NUMBERS);
  }

  lemma TopNames()
    ensures |FORMAT_VERSION| == 14 && |PLAYER_STATE| == 12 && |ITEMS| == 5 && |STATS_SUBSCRIPTION| == 18
    ensures |SEASONAL_OPERATIONS| == 19 && |DEFAULT_EQUIPS| == 14 && |EVENT_FAVORITES| == 15
    ensures FORMAT_VERSION[0] == 102 && DEFAULT_EQUIPS[0] == 100
    ensures CleanText(FORMAT_VERSION) && CleanText(PLAYER_STATE) && CleanText(ITEMS) && CleanText(STATS_SUBSCRIPTION)
    ensures CleanText(SEASONAL_OPERATIONS) && CleanText(DEFAULT_EQUIPS) && CleanText(EVENT_FAVORITES) && CleanText(TIME_INITIATED)
  {
    hide Bytes, CleanText;
    PlainBytes("format_version");
    PlainBytes("player_state");
    PlainBytes("items");
    PlainBytes("stats_subscription");
    PlainBytes("seasonal_operations");
    PlainBytes("default_equips");
    PlainBytes("event_favorites");
    PlainBytes("time_initiated");
  }

  // -------------------------------------------------------------- item keys

  lemma ItemKeysHaveOwnNames(schema: Schema, item: Item)
    ensures OwnNames(ItemKeys(schema, item))
    ensures |ItemKeys(schema, item)| == 10 && forall k <- ItemKeys(schema, item) :: k.name != CUSTOM_NAME
  {
    hide ITEM_NUMBERS, ATTRIBUTES, EQUIPPED_STATE, CUSTOM_NAME, AttributeEntries, EquippedEntries, ItemNumbers;
    ItemNamesAreFields();
    ItemNumbersAreEight(item);
    var fields := Fields(ITEM_NUMBERS, ItemNumbers(item));
    FieldsHaveOwnNames(ITEM_NUMBERS, ItemNumbers(item));
    forall k | k in fields
      ensures |k.name| <= 9
    {
      var i :| 0 <= i < |fields| && fields[i] == k;
      assert ITEM_NUMBERS[i] in ITEM_NUMBERS;
    }
    TwoMore(fields, Node(ATTRIBUTES, NodesOf(AttributeEntries(schema, item.attributes)), []),
            Node(EQUIPPED_STATE, NodesOf(EquippedEntries(item.equipped)), []));
  }

  lemma ItemNumbersAreEight(item: Item)
    ensures |ItemNumbers(item)| == 8
  {
  }

  lemma TwoMore(ks: seq<Node>, a: Node, b: Node)
    requires OwnNames(ks) && NUL !in a.name && NUL !in b.name && a.name != b.name
    requires forall k <- ks :: k.name != a.name && k.name != b.name
    ensures OwnNames(ks + [a, b])
  {
    var all := ks + [a, b];
    assert forall i :: 0 <= i < |ks| ==> all[i] == ks[i] && all[i] in ks;
  }

  /** Each number of an item is read as it was. */
  lemma ItemNumberIsRead(schema: Schema, item: Item, i: nat)
    requires i < |ITEM_NUMBERS|
    ensures i < |ItemNumbers(item)|
    ensures 0 <= ItemNumbers(item)[i] < 0x1_0000_0000
    ensures GetUint32(AbsorbAll([], ItemKeys(schema, item)), ITEM_NUMBERS[i]) == ItemNumbers(item)[i]
    ensures GetSubkey(AbsorbAll([], ItemKeys(schema, item)), ITEM_NUMBERS[i]) == Some(Field(ITEM_NUMBERS[i], ItemNumbers(item)[i]))
  {
    ItemNumbersAreEight(item);
    ItemNamesAreFields();
    var n := ItemNumbers(item)[i];
    assert 0 <= n < 0x1_0000_0000;
    hide ITEM_NUMBERS, ItemNumbers, AttributeEntries, EquippedEntries, FormatInt, LeadingUint32, OwnNames, FieldNames;
    ItemKeysHaveOwnNames(schema, item);
    var ks := ItemKeys(schema, item);
    assert ks[i] == Field(ITEM_NUMBERS[i], n);
    FoundAgain(ks, i);
    IntIsClean(n);
    LeadingFormat(n);
  }

  lemma ItemListsAreRead(schema: Schema, item: Item)
    requires forall a <- item.attributes :: Printable(schema, a)
    ensures var ks := AbsorbAll([], ItemKeys(schema, item));
      && ReadAttributes(schema, SubkeysIn(ks, ATTRIBUTES)) == SurvivingAttributes(schema, item.attributes)
      && ReadEquipped(SubkeysIn(ks, EQUIPPED_STATE)) == SurvivingEquipped(item.equipped)
      && GetString(ks, CUSTOM_NAME) == []
  {
    hide ITEM_NUMBERS, ATTRIBUTES, EQUIPPED_STATE, CUSTOM_NAME, AttributeEntries, EquippedEntries, ItemNumbers, Printable, OwnNames;
    hide SurvivingAttributes, SurvivingEquipped, ReadAttributes, ReadEquipped, AbsorbAll, GetSubkey;
    ItemKeysHaveOwnNames(schema, item);
    ItemNumbersAreEight(item);
    ItemNamesAreFields();
    var ks := ItemKeys(schema, item);
    assert ks[8] == Node(ATTRIBUTES, NodesOf(AttributeEntries(schema, item.attributes)), []);
    assert ks[9] == Node(EQUIPPED_STATE, NodesOf(EquippedEntries(item.equipped)), []);
    FoundAgain(ks, 8);
    FoundAgain(ks, 9);
    NotFoundAgain(ks, CUSTOM_NAME);
    AttributesAreReadBack(schema, item.attributes);
    EquippedIsReadBack(item.equipped);
  }

  /** An item is read back as the item that survives. */
  lemma ItemIsReadBack(schema: Schema, item: Item, blank: Item)
    requires forall a <- item.attributes :: Printable(schema, a)
    ensures ReadItem(schema, AbsorbAll([], ItemKeys(schema, item)), blank)
      == SurvivingItem(schema, item).(id := blank.id, accountId := blank.accountId)
  {
    hide ITEM_NUMBERS, ATTRIBUTES, EQUIPPED_STATE, CUSTOM_NAME, AbsorbAll, ItemKeys, SurvivingAttributes, SurvivingEquipped, ReadAttributes, ReadEquipped, Printable;
    hide CustomName;
    ItemNamesAreFields();
    ItemListsAreRead(schema, item);
    ItemNumberIsRead(schema, item, 0);
    ItemNumberIsRead(schema, item, 1);
    ItemNumberIsRead(schema, item, 2);
    ItemNumberIsRead(schema, item, 3);
    ItemNumberIsRead(schema, item, 4);
    ItemNumberIsRead(schema, item, 5);
    ItemNumberIsRead(schema, item, 6);
    ItemNumberIsRead(schema, item, 7);
    LeadingFormatInt32(if item.inUse then 1 else 0);
  }

  // ------------------------------------------------- lists with own numbers

  function InnerOf(e: (uint64, Content)): (uint64, Content) {
    (e.0, Content(AbsorbAll([], e.1.subkeys), CStr(e.1.str)))
  }

  /** The entries with what is read of each. */
  function Inner(es: seq<(uint64, Content)>): seq<(uint64, Content)> {
    seq(|es|, i requires 0 <= i < |es| => InnerOf(es[i]))
  }

  lemma DistinctAreOwnNames(es: seq<(uint64, Content)>)
    requires DistinctKeys(es)
    ensures OwnNames(NodesOf(es))
  {
    var ks := NodesOf(es);
    forall i, j | 0 <= i < j < |ks|
      ensures ks[i].name != ks[j].name
    {
      FormatIsInjective(es[i].0, es[j].0);
    }
    forall k | k in ks
      ensures NUL !in k.name
    {
      var i :| 0 <= i < |ks| && ks[i] == k;
      FormatHasNoNul(es[i].0);
    }
  }

  lemma FirstNode(es: seq<(uint64, Content)>)
    requires es != []
    ensures NodesOf(es) == [NodeOf(es[0])] + NodesOf(es[1..])
    ensures Inner(es) == [InnerOf(es[0])] + Inner(es[1..])
  {
    hide NodeOf, InnerOf;
  }

  lemma RereadFirst(k: Node, ks: seq<Node>)
    requires !Skipped(k)
    ensures RereadAll([k] + ks) == [Reread(k)] + RereadAll(ks)
  {
    hide Reread;
    assert ([k] + ks)[1..] == ks;
  }

  lemma {:induction false} RereadEntries(es: seq<(uint64, Content)>)
    requires forall e <- es :: e.1.str == [] <==> e.1.subkeys != []
    ensures RereadAll(NodesOf(es)) == NodesOf(Inner(es))
  {
    if es != [] {
      hide Reread, InnerOf, NodeOf, NodesOf, Inner, RereadAll;
      FirstNode(es);
      FirstNode(Inner(es));
      assert es[0] in es && forall e <- es[1..] :: e in es;
      RereadEntries(es[1..]);
      EntryIsReread(es[0]);
      RereadFirst(NodeOf(es[0]), NodesOf(es[1..]));
      assert Inner(es)[1..] == Inner(es[1..]);
    } else {
      NoNodes();
    }
  }

  lemma NoNodes()
    ensures NodesOf([]) == [] == RereadAll([]) && Inner([]) == []
  {
  }

  lemma EntryIsReread(e: (uint64, Content))
    requires e.1.str == [] <==> e.1.subkeys != []
    ensures Reread(NodeOf(e)) == NodeOf(InnerOf(e)) && !Skipped(NodeOf(e))
  {
  }

  lemma OwnNumbersAreReadBack(es: seq<(uint64, Content)>)
    requires DistinctKeys(es) && forall e <- es :: e.1.str == [] <==> e.1.subkeys != []
    ensures AbsorbAll([], NodesOf(es)) == NodesOf(Inner(es))
  {
    DistinctAreOwnNames(es);
    AbsorbOwnNames([], NodesOf(es));
    RereadEntries(es);
    assert [] + RereadAll(NodesOf(es)) == RereadAll(NodesOf(es));
  }

  // ------------------------------------------------------------- the items

  /** Ids as they are given out to items of the account, except by a counter that has wrapped to zero. */
  predicate OwnId(accountId: uint32, id: uint64) {
    id == ComposeItemId(accountId, HighItemId(id)) && HighItemId(id) != 0 && !IsDefaultItemId(id)
  }

  predicate OwnItems(schema: Schema, accountId: uint32, items: map<uint64, Item>) {
    forall id <- items :: OwnId(accountId, id) && items[id].id == id && items[id].accountId == accountId
      && forall a <- items[id].attributes :: Printable(schema, a)
  }

  function SurvivingItems(schema: Schema, items: map<uint64, Item>): map<uint64, Item> {
    map id | id in items :: SurvivingItem(schema, items[id])
  }

  /** The counter is at the highest id that was read. */
  ghost predicate IsHighest(ids: set<uint64>, last: uint32) {
    (forall id <- ids :: HighItemId(id) <= last) && (last == 0 || exists id <- ids :: HighItemId(id) == last)
  }

  lemma ItemEntriesAreBranches(schema: Schema, items: map<uint64, Item>, order: seq<uint64>, accountId: uint32)
    requires Walks(order, items.Keys) && OwnItems(schema, accountId, items)
    ensures DistinctKeys(ItemEntries(schema, items, order))
    ensures forall e <- ItemEntries(schema, items, order) :: e.1.str == [] && e.1.subkeys != []
  {
    hide ItemKeys;
    forall i, j | 0 <= i < j < |order|
      ensures HighItemId(items[order[i]].id) != HighItemId(items[order[j]].id)
    {
      assert order[i] in order && order[j] in order;
    }
    forall i | 0 <= i < |order|
      ensures ItemKeys(schema, items[order[i]]) != []
    {
      ItemKeysHaveOwnNames(schema, items[order[i]]);
    }
  }

  lemma OwnIdIsTaken(ids: set<uint64>, accountId: uint32, id: uint64)
    requires |ids| < USABLE && OwnId(accountId, id) && id !in ids
    ensures FreshHigh(ids, accountId, HighItemId(id)) == HighItemId(id)
  {
    assert Distance(HighItemId(id), HighItemId(id)) == 0;
    assert FirstFree(ids, accountId, HighItemId(id), HighItemId(id));
    FirstFreeIsUnique(ids, accountId, HighItemId(id), FreshHigh(ids, accountId, HighItemId(id)), HighItemId(id));
  }

  /** One more item is read under the id it had. */
  lemma ItemIsReadUnderItsId(schema: Schema, m: Memory, accountId: uint32, id: uint64, item: Item, key: Node)
    requires |m.items| < USABLE && OwnId(accountId, id) && id !in m.items && item.id == id && item.accountId == accountId
    requires forall a <- item.attributes :: Printable(schema, a)
    requires key.name == FormatInt(HighItemId(id)) && key.subkeys == AbsorbAll([], ItemKeys(schema, item))
    ensures ReadOne(schema, m, accountId, key)
      == m.(items := m.items[id := SurvivingItem(schema, item)],
            lastHighItemId := if HighItemId(id) > m.lastHighItemId then HighItemId(id) else m.lastHighItemId)
  {
    hide ReadItem, SurvivingItem, ItemKeys, AbsorbAll, FormatInt, LeadingUint32, ComposeItemId, HighItemId, Printable;
    LeadingFormat(HighItemId(id));
    OwnIdIsTaken(m.items.Keys, accountId, id);
    ItemIsReadBack(schema, item, EmptyItem(id, accountId));
    SurvivesUnderItsId(schema, item);
  }

  lemma SurvivesUnderItsId(schema: Schema, item: Item)
    ensures SurvivingItem(schema, item).(id := item.id, accountId := item.accountId) == SurvivingItem(schema, item)
  {
  }

  /** The entries of the first n items. */
  function SomeItems(schema: Schema, items: map<uint64, Item>, order: seq<uint64>, n: nat): map<uint64, Item>
    requires n <= |order| && forall id <- order :: id in items
  {
    map id | id in order[..n] :: SurvivingItem(schema, items[id])
  }

  /** The first n items have been read, and nothing else. */
  ghost predicate ReadSoFar(schema: Schema, m: Memory, items: map<uint64, Item>, order: seq<uint64>, n: nat, read: Memory)
    requires n <= |order| && forall id <- order :: id in items
  {
    && read == m.(items := SomeItems(schema, items, order, n), lastHighItemId := read.lastHighItemId)
    && IsHighest(read.items.Keys, read.lastHighItemId)
  }

  function ReadKeys(schema: Schema, items: map<uint64, Item>, order: seq<uint64>): (keys: seq<Node>)
    requires forall id <- order :: id in items
    ensures |keys| == |order|
  {
    NodesOf(Inner(ItemEntries(schema, items, order)))
  }

  lemma ReadKeyAt(schema: Schema, items: map<uint64, Item>, order: seq<uint64>, i: nat)
    requires i < |order| && forall id <- order :: id in items
    ensures var key := ReadKeys(schema, items, order)[i];
      key.name == FormatInt(HighItemId(items[order[i]].id)) && key.subkeys == AbsorbAll([], ItemKeys(schema, items[order[i]]))
  {
    hide AbsorbAll, ItemKeys, FormatInt;
  }

  lemma NextIsRead(schema: Schema, m: Memory, accountId: uint32, items: map<uint64, Item>, order: seq<uint64>, n: nat, before: Memory, key: Node)
    requires Walks(order, items.Keys) && OwnItems(schema, accountId, items) && n < |order| <= USABLE
    requires ReadSoFar(schema, m, items, order, n, before)
    requires key.name == FormatInt(HighItemId(items[order[n]].id)) && key.subkeys == AbsorbAll([], ItemKeys(schema, items[order[n]]))
    ensures |before.items| < USABLE && ReadSoFar(schema, m, items, order, n + 1, ReadOne(schema, before, accountId, key))
  {
    hide ReadOne, SurvivingItem, AbsorbAll, ItemKeys, FormatInt, OwnId, OwnItems, Walks, SomeItems, Printable, HighItemId, IsHighest;
    var id := order[n];
    ItsOwnItem(schema, accountId, items, order, n);
    SizeOfSome(schema, items, order, n);
    SomeNext(schema, items, order, n);
    ItemIsReadUnderItsId(schema, before, accountId, id, items[id], key);
    KeysWith(before.items, id, SurvivingItem(schema, items[id]));
    HigherIsHighest(before.items.Keys, before.lastHighItemId, id);
  }

  lemma KeysWith<K, V>(m: map<K, V>, k: K, v: V)
    ensures m[k := v].Keys == m.Keys + {k}
  {
  }

  lemma ItsOwnItem(schema: Schema, accountId: uint32, items: map<uint64, Item>, order: seq<uint64>, n: nat)
    requires Walks(order, items.Keys) && OwnItems(schema, accountId, items) && n < |order|
    ensures var id := order[n];
      && (forall other <- order :: other in items)
      && id in items && id !in SomeItems(schema, items, order, n)
      && OwnId(accountId, id) && items[id].id == id && items[id].accountId == accountId
      && forall a <- items[id].attributes :: Printable(schema, a)
  {
    hide SurvivingItem, OwnId, Printable;
    assert order[n] in order && order[n] !in order[..n];
  }

  lemma SomeNext(schema: Schema, items: map<uint64, Item>, order: seq<uint64>, n: nat)
    requires n < |order| && forall id <- order :: id in items
    ensures order[n] in items
    ensures SomeItems(schema, items, order, n + 1) == SomeItems(schema, items, order, n)[order[n] := SurvivingItem(schema, items[order[n]])]
  {
    hide SurvivingItem;
    assert order[n] in order;
    assert order[..n + 1] == order[..n] + [order[n]];
  }

  lemma {:induction false} ItemsAreRead(schema: Schema, m: Memory, accountId: uint32, items: map<uint64, Item>, order: seq<uint64>, n: nat)
    requires Walks(order, items.Keys) && OwnItems(schema, accountId, items) && n <= |order| <= USABLE
    requires m.items == map[] && m.lastHighItemId == 0
    ensures ReadSoFar(schema, m, items, order, n, ReadItems(schema, m, accountId, ReadKeys(schema, items, order)[..n]))
    decreases n
  {
    hide ReadSoFar, ReadOne, ReadKeys, OwnItems, AbsorbAll, ItemKeys, HighItemId, FormatInt;
    var keys := ReadKeys(schema, items, order);
    if n == 0 {
      assert keys[..0] == [];
      NothingRead(schema, m, items, order);
    } else {
      ItemsAreRead(schema, m, accountId, items, order, n - 1);
      assert keys[..n][..n - 1] == keys[..n - 1] && keys[..n][n - 1] == keys[n - 1];
      ReadKeyAt(schema, items, order, n - 1);
      NextIsRead(schema, m, accountId, items, order, n - 1, ReadItems(schema, m, accountId, keys[..n - 1]), keys[n - 1]);
    }
  }

  lemma NothingRead(schema: Schema, m: Memory, items: map<uint64, Item>, order: seq<uint64>)
    requires m.items == map[] && m.lastHighItemId == 0 && forall id <- order :: id in items
    ensures ReadSoFar(schema, m, items, order, 0, m)
  {
    hide SurvivingItem;
    assert SomeItems(schema, items, order, 0) == map[];
  }

  lemma SizeOfSome(schema: Schema, items: map<uint64, Item>, order: seq<uint64>, n: nat)
    requires n <= |order| && forall id <- order :: id in items
    ensures |SomeItems(schema, items, order, n)| <= n
  {
    hide SurvivingItem;
    var some := SomeItems(schema, items, order, n);
    SizeOfSet(some.Keys, order[..n]);
    assert |some| == |some.Keys|;
  }

  lemma HigherIsHighest(ids: set<uint64>, last: uint32, id: uint64)
    requires IsHighest(ids, last)
    ensures IsHighest(ids + {id}, if HighItemId(id) > last then HighItemId(id) else last)
  {
    assert id in ids + {id};
    assert forall other <- ids :: other in ids + {id};
  }

  lemma AllItemsAreRead(schema: Schema, m: Memory, accountId: uint32, items: map<uint64, Item>, order: seq<uint64>)
    requires Walks(order, items.Keys) && OwnItems(schema, accountId, items) && |items| <= USABLE
    requires m.items == map[] && m.lastHighItemId == 0
    ensures AbsorbAll([], NodesOf(ItemEntries(schema, items, order))) == ReadKeys(schema, items, order)
    ensures |order| == |items|
    ensures var read := ReadItems(schema, m, accountId, ReadKeys(schema, items, order));
      && read == m.(items := SurvivingItems(schema, items), lastHighItemId := read.lastHighItemId)
      && IsHighest(items.Keys, read.lastHighItemId)
  {
    hide OwnItems, IsHighest, ItemEntries, AbsorbAll, Inner, NodesOf, SomeItems, SurvivingItems, ReadItems;
    ItemEntriesAreBranches(schema, items, order, accountId);
    OwnNumbersAreReadBack(ItemEntries(schema, items, order));
    WalkLength(order, items.Keys);
    ItemsAreRead(schema, m, accountId, items, order, |order|);
    assert ReadKeys(schema, items, order)[..|order|] == ReadKeys(schema, items, order);
    SomeOfAll(schema, items, order);
  }

  lemma SomeOfAll(schema: Schema, items: map<uint64, Item>, order: seq<uint64>)
    requires Walks(order, items.Keys)
    ensures SomeItems(schema, items, order, |order|) == SurvivingItems(schema, items)
    ensures SurvivingItems(schema, items).Keys == items.Keys
  {
    hide SurvivingItem;
    assert order[..|order|] == order;
  }

  lemma {:induction false} WalkLength<K>(order: seq<K>, keys: set<K>)
    requires Walks(order, keys)
    ensures |order| == |keys|
    decreases |order|
  {
    if order == [] {
      assert keys == {};
    } else {
      var n := |order| - 1;
      assert order[n] in order && order[n] !in order[..n];
      assert order == order[..n] + [order[n]];
      assert Walks(order[..n], keys - {order[n]});
      WalkLength(order[..n], keys - {order[n]});
    }
  }

  // --------------------------------------------------------- the operations

  /** Operations are kept under their season. */
  predicate OwnSeasons(operations: map<uint32, SeasonalOperation>) {
    forall season <- operations :: operations[season].seasonValue == season
  }

  lemma NumberIsRead(names: seq<Text>, values: seq<int>, i: nat, otherwise: uint32)
    requires |names| == |values| && FieldNames(names) && i < |names| && 0 <= values[i] < 0x1_0000_0000
    ensures ReadNumber(Fields(names, values), names[i], otherwise) == values[i] == GetUint32(Fields(names, values), names[i])
  {
    hide FormatInt, LeadingUint32, FieldNames;
    FieldsAreFound(names, values, i);
    LeadingFormat(values[i]);
  }

  lemma OperationIsRead(o: SeasonalOperation, blank: SeasonalOperation)
    requires blank.seasonValue == o.seasonValue
    ensures ReadOperation(blank, Fields(OPERATION_NUMBERS, OperationNumbers(o))) == o
  {
    OperationNamesAreFields();
    hide OPERATION_NUMBERS;
    var n := OperationNumbers(o);
    NumberIsRead(OPERATION_NUMBERS, n, 0, blank.tierUnlocked);
    NumberIsRead(OPERATION_NUMBERS, n, 1, blank.premiumTiers);
    NumberIsRead(OPERATION_NUMBERS, n, 2, blank.missionId);
    NumberIsRead(OPERATION_NUMBERS, n, 3, blank.missionsCompleted);
    NumberIsRead(OPERATION_NUMBERS, n, 4, blank.redeemableBalance);
    NumberIsRead(OPERATION_NUMBERS, n, 5, blank.seasonPassTime);
  }

  lemma OperationFieldsAreRead(o: SeasonalOperation)
    ensures var fields := Fields(OPERATION_NUMBERS, OperationNumbers(o)); AbsorbAll([], fields) == fields && fields != []
  {
    OperationNamesAreFields();
    FieldsAreRead(OPERATION_NUMBERS, OperationNumbers(o));
  }

  function SomeOperations(operations: map<uint32, SeasonalOperation>, order: seq<uint32>, n: nat): map<uint32, SeasonalOperation>
    requires n <= |order| && forall season <- order :: season in operations
  {
    map season | season in order[..n] :: operations[season]
  }

  /** What is read of the operations: the entries as they were written. */
  lemma OperationsAreReadBack(operations: map<uint32, SeasonalOperation>, order: seq<uint32>)
    requires Walks(order, operations.Keys) && OwnSeasons(operations)
    ensures ReadOperations(AbsorbAll([], NodesOf(OperationEntries(operations, order)))) == operations
  {
    hide ReadOperations, AbsorbAll, NodesOf, OperationNumbers;
    var es := OperationEntries(operations, order);
    OperationEntriesAreBranches(operations, order);
    OwnNumbersAreReadBack(es);
    OperationsInner(operations, order);
    OperationsAreRead(operations, order, |order|);
    assert NodesOf(es)[..|order|] == NodesOf(es) by {
      LengthOfNodes(es);
    }
    assert order[..|order|] == order;
    assert SomeOperations(operations, order, |order|) == operations;
  }

  lemma LengthOfNodes(es: seq<(uint64, Content)>)
    ensures |NodesOf(es)| == |es|
  {
  }

  lemma OperationEntriesAreBranches(operations: map<uint32, SeasonalOperation>, order: seq<uint32>)
    requires Walks(order, operations.Keys)
    ensures DistinctKeys(OperationEntries(operations, order))
    ensures forall e <- OperationEntries(operations, order) :: e.1.str == [] && e.1.subkeys != []
  {
    forall i | 0 <= i < |order|
      ensures Fields(OPERATION_NUMBERS, OperationNumbers(operations[order[i]])) != []
    {
      OperationFieldsAreRead(operations[order[i]]);
    }
  }

  lemma OperationsInner(operations: map<uint32, SeasonalOperation>, order: seq<uint32>)
    requires forall season <- order :: season in operations
    ensures Inner(OperationEntries(operations, order)) == OperationEntries(operations, order)
  {
    hide AbsorbAll;
    forall i | 0 <= i < |order|
      ensures InnerOf(OperationEntries(operations, order)[i]) == OperationEntries(operations, order)[i]
    {
      OperationFieldsAreRead(operations[order[i]]);
    }
  }

  lemma {:induction false} OperationsAreRead(operations: map<uint32, SeasonalOperation>, order: seq<uint32>, n: nat)
    requires Walks(order, operations.Keys) && OwnSeasons(operations) && n <= |order|
    ensures |NodesOf(OperationEntries(operations, order))| == |order|
    ensures ReadOperations(NodesOf(OperationEntries(operations, order))[..n]) == SomeOperations(operations, order, n)
    decreases n
  {
    hide ReadOperation, OperationNumbers, FormatInt, LeadingUint32, OPERATION_NUMBERS, Fields, NodesOf, OperationEntries, ReadOperations;
    OperationKeys(operations, order);
    var keys := NodesOf(OperationEntries(operations, order));
    NextOperation(keys, n);
    if n > 0 {
      OperationsAreRead(operations, order, n - 1);
      var season := order[n - 1];
      assert season in order && season !in order[..n - 1];
      SixNumbers(operations[season]);
      assert keys[n - 1] == Node(FormatInt(season), Fields(OPERATION_NUMBERS, OperationNumbers(operations[season])), []);
      LeadingFormat(season);
      OperationIsRead(operations[season], SeasonalOperation(season, 0, 0, 0, 0, 0, 0));
      assert order[..n] == order[..n - 1] + [season];
    }
  }

  lemma OperationKeys(operations: map<uint32, SeasonalOperation>, order: seq<uint32>)
    requires forall season <- order :: season in operations
    ensures var keys := NodesOf(OperationEntries(operations, order));
      && |keys| == |order|
      && forall i :: 0 <= i < |order| ==>
           |OPERATION_NUMBERS| == |OperationNumbers(operations[order[i]])|
           && keys[i] == Node(FormatInt(order[i]), Fields(OPERATION_NUMBERS, OperationNumbers(operations[order[i]])), [])
  {
    hide Fields, FormatInt;
  }

  lemma NextOperation(keys: seq<Node>, n: nat)
    requires n <= |keys|
    ensures ReadOperations(keys[..0]) == map[]
    ensures n > 0 ==>
      var before, key := ReadOperations(keys[..n - 1]), keys[n - 1];
      var season := LeadingUint32(key.name);
      ReadOperations(keys[..n]) == before[season :=
        ReadOperation(if season in before then before[season] else SeasonalOperation(season, 0, 0, 0, 0, 0, 0), key.subkeys)]
  {
    hide ReadOperation, LeadingUint32;
    if n > 0 {
      assert keys[..n][..n - 1] == keys[..n - 1];
    }
  }

  // ------------------------------------------------ default equips, favorites

  function PlacesOf(es: seq<(uint32, uint32, uint32)>): seq<(uint64, (uint32, uint32))> {
    seq(|es|, i requires 0 <= i < |es| => (es[i].0, (es[i].1, es[i].2)))
  }

  function EquipsOf(accountId: uint32, es: seq<(uint64, (uint32, uint32))>): seq<DefaultEquip>
    requires SmallKeys(es)
  {
    seq(|es|, i requires 0 <= i < |es| => assert es[i] in es; DefaultEquip(accountId, es[i].0, es[i].1.0, es[i].1.1))
  }

  lemma PlaceKeysAreSmall(es: seq<(uint32, uint32, uint32)>)
    ensures SmallKeys(PlacesOf(es))
  {
  }

  /** One default equip for each definition: the class and slot of the last in the place of the first. */
  function SurvivingEquips(accountId: uint32, es: seq<(uint32, uint32, uint32)>): seq<DefaultEquip> {
    PlaceKeysAreSmall(es);
    PutAllIsSmall([], PlacesOf(es));
    EquipsOf(accountId, PutAll([], PlacesOf(es)))
  }

  function EquipReader(): (uint64, Content) -> (uint32, uint32) {
    (key: uint64, c: Content) => (GetUint32(c.subkeys, EQUIP_NUMBERS[0]), GetUint32(c.subkeys, EQUIP_NUMBERS[1]))
  }

  lemma EquipFieldsAreRead(class0: uint32, slot0: uint32, classId: uint32, slotId: uint32)
    ensures var fields := Fields(EQUIP_NUMBERS, [classId, slotId]);
      && fields != [] && AbsorbAll([], fields) == fields && AbsorbAll(Fields(EQUIP_NUMBERS, [class0, slot0]), fields) == fields
      && GetUint32(fields, EQUIP_NUMBERS[0]) == classId && GetUint32(fields, EQUIP_NUMBERS[1]) == slotId
  {
    EquipNamesAreFields();
    hide EQUIP_NUMBERS, AbsorbAll, FieldNames;
    var values: seq<int> := [classId, slotId];
    var previous: seq<int> := [class0, slot0];
    FieldsAreRead(EQUIP_NUMBERS, values);
    FieldsReplace(EQUIP_NUMBERS, previous, values, 0);
    assert values[..0] + previous[0..] == previous && values[0..] == values && EQUIP_NUMBERS[0..] == EQUIP_NUMBERS;
    NumberIsRead(EQUIP_NUMBERS, values, 0, 0);
    NumberIsRead(EQUIP_NUMBERS, values, 1, 0);
  }

  lemma EquipsAreUniform(es: seq<(uint32, uint32, uint32)>)
    ensures Uniform(EquipEntries(es), EquipEntries(es)) && SmallKeys(EquipEntries(es))
    ensures Mapped(EquipReader(), EquipEntries(es)) == PlacesOf(es)
  {
    hide AbsorbAll, EQUIP_NUMBERS, GetUint32;
    var entries := EquipEntries(es);
    forall c, d | c in entries && d in entries
      ensures Replaces(c.1, d.1)
    {
      var i :| 0 <= i < |es| && entries[i] == c;
      var j :| 0 <= j < |es| && entries[j] == d;
      EquipFieldsAreRead(es[i].1, es[i].2, es[j].1, es[j].2);
    }
    forall i | 0 <= i < |es|
      ensures EquipReader()(entries[i].0, entries[i].1) == (es[i].1, es[i].2)
    {
      EquipFieldsAreRead(0, 0, es[i].1, es[i].2);
    }
  }

  lemma EquipsAreMapped(accountId: uint32, es: seq<(uint64, Content)>)
    requires SmallKeys(es) && SmallKeys(Mapped(EquipReader(), es))
    ensures ReadDefaultEquips(accountId, NodesOf(es)) == EquipsOf(accountId, Mapped(EquipReader(), es))
  {
    hide GetUint32, EQUIP_NUMBERS;
    forall i | 0 <= i < |es|
      ensures LeadingUint32(NodesOf(es)[i].name) == es[i].0
    {
      assert es[i] in es;
      LeadingFormat(es[i].0);
    }
  }

  lemma EquipsAreReadBack(accountId: uint32, es: seq<(uint32, uint32, uint32)>)
    ensures ReadDefaultEquips(accountId, AbsorbAll([], NodesOf(EquipEntries(es)))) == SurvivingEquips(accountId, es)
  {
    hide EquipEntries, ReadDefaultEquips, EquipsOf, Absorb, Uniform, NodesOf, Mapped, Put, PlacesOf;
    var entries := EquipEntries(es);
    EquipsAreUniform(es);
    ListIsReadBack(entries);
    PutAllIsSmall([], entries);
    MappedIsSmall(EquipReader(), PutAll([], entries));
    EquipsAreMapped(accountId, PutAll([], entries));
    MappedPutAll(EquipReader(), [], entries);
    PlaceKeysAreSmall(es);
    assert Mapped(EquipReader(), []) == [] by {
      NoEquipsMapped();
    }
  }

  lemma NoEquipsMapped()
    ensures Mapped(EquipReader(), []) == []
  {
  }

  lemma FavoritesAreReadBack(favorites: set<uint64>, order: seq<uint64>)
    requires Walks(order, favorites)
    ensures ReadFavorites(AbsorbAll([], NodesOf(FavoriteEntries(order)))) == favorites - {0}
  {
    hide AbsorbAll, FormatInt, LeadingUint64;
    var es := FavoriteEntries(order);
    IntIsClean(1);
    OwnNumbersAreReadBack(es);
    var keys := NodesOf(Inner(es));
    forall i | 0 <= i < |order|
      ensures LeadingUint64(keys[i].name) == order[i] && order[i] in favorites
    {
      LeadingFormat64(order[i]);
      assert order[i] in order;
    }
    assert forall k <- keys :: exists i :: 0 <= i < |order| && keys[i] == k;
    forall id | id in favorites && id != 0
      ensures id in ReadFavorites(keys)
    {
      var i :| 0 <= i < |order| && order[i] == id;
      assert keys[i] in keys;
    }
  }
}
