/**
 The inventory: the items, the default equips and the player state, updated in place
 by every operation of the coordinator (inventory.cpp).
 */
module Inventory {
  import opened Prelude
  import opened Items
  import opened Loadout
  import opened LoadoutTheorems
  import opened ItemSchema
  import opened ItemIds
  import opened InventoryState
  import opened Persisted
  import opened Purchases
  import opened TradeUp
  import Storage
  import Sprays
  import StorageCheck
  import InventoryFile
  import KV = KeyValues
  import KR = KeyValueRecords
  import Numbers

  lemma StampedTwice(v0: uint64, u0: MultipleObjects, v1: uint64, u1: MultipleObjects, v2: uint64, u2: MultipleObjects)
    requires Stamped(v0, u0, v1, u1) && Stamped(v1, u1, v2, u2)
    ensures Stamped(v0, u0, v2, u2)
  {
    if u2.objects == u0.objects {
      assert u1.objects == u0.objects;
    }
  }

  /** The text of the file, and what was saved with it. */
  datatype SavedFile = SavedFile(text: Text, image: Image)

  class Inventory {
    const schema: Schema
    const steamId: uint64

    var items: map<uint64, Item>
    var defaultEquips: seq<DefaultEquip>
    var version: uint64
    var lastHighItemId: uint32
    var statsTimeInitiated: uint32
    var operations: map<uint32, SeasonalOperation>
    var eventFavorites: set<uint64>
    var playerLevel: int32
    var playerXp: int32

    /** Clear when an unreadable file is to be preserved. */
    var saveEnabled: bool
    /** Whether the disk takes the next file; the environment's business. */
    var diskWorks: bool
    var file: SavedFile

    /** What the configuration gives a new inventory. */
    const config: InventoryFile.Config

    /** A new inventory, without a file or with one that does not parse. */
    constructor (schema: Schema, steamId: uint64, version: uint64, level: int32, xp: int32, saveEnabled: bool)
      ensures this.schema == schema && this.steamId == steamId && this.saveEnabled == saveEnabled
      ensures config == InventoryFile.Config(level, xp)
      ensures Current() == Memory(map[], [], version, 0, 0, map[], {}, level, xp)
    {
      this.schema, this.steamId, this.version := schema, steamId, version;
      items, defaultEquips, lastHighItemId, statsTimeInitiated := map[], [], 0, 0;
      operations, eventFavorites, playerLevel, playerXp := map[], {}, level, xp;
      config := InventoryFile.Config(level, xp);
      this.saveEnabled := saveEnabled;
    }

    ghost function Current(): Memory
      reads this
    {
      Memory(items, defaultEquips, version, lastHighItemId, statsTimeInitiated, operations, eventFavorites,
             playerLevel, playerXp)
    }

    ghost function Equips(): Loadout
      reads this
    {
      Loadout(items, defaultEquips)
    }

    ghost function Both(): Machine
      reads this
    {
      Machine(Current(), file.image)
    }

    predicate DiskTakesIt()
      reads this
    {
      saveEnabled && diskWorks
    }

    function AccountId(): uint32 {
      steamId % WORD
    }

    // ---------------------------------------------------------- publishing

    method AdvanceVersion()
      modifies `version
      ensures version == NextVersion(old(version))
    {
      version := if version == 0xffff_ffff_ffff_ffff then 0 else version + 1;
      if version == 0 {
        version := version + 1;
      }
    }

    method AddToMultipleObjects(update: MultipleObjects, so: SharedObject) returns (update': MultipleObjects)
      modifies `version
      ensures update'.objects == update.objects + [so]
      ensures Stamped(old(version), update, version, update')
    {
      update' := update;
      if update'.version.None? {
        AdvanceVersion();
        update' := update'.(version := Some(version));
      }
      update' := update'.(objects := update'.objects + [so]);
      assert update'.objects != update.objects by {
        assert |update'.objects| == |update.objects| + 1;
      }
    }

    method ToSingleObject(so: SharedObject) returns (message: SingleObject)
      modifies `version
      ensures version == NextVersion(old(version))
      ensures message == SingleObject(version, so)
    {
      AdvanceVersion();
      message := SingleObject(version, so);
    }

    // ------------------------------------------------------------- equipping

    method RemoveEquippedSlot(es: seq<Equipped>, e: Equipped) returns (modified: bool, left: seq<Equipped>)
      ensures left == WithoutSlot(es, e)
      ensures modified <==> e in es
    {
      modified, left := false, [];
      for i := 0 to |es|
        invariant left + WithoutSlot(es[i..], e) == WithoutSlot(es, e)
        invariant modified <==> e in es[..i]
      {
        assert es[i..][1..] == es[i + 1..];
        if es[i] == e {
          modified := true;
        } else {
          left := left + [es[i]];
        }
      }
      assert es[|es|..] == [] && es[..|es|] == es;
    }

    method RemoveEquippedClass(es: seq<Equipped>, c: uint32) returns (modified: bool, left: seq<Equipped>)
      ensures left == WithoutClass(es, c)
      ensures modified <==> SlotForClass(es, c).Some?
    {
      modified, left := false, [];
      for i := 0 to |es|
        invariant left + WithoutClass(es[i..], c) == WithoutClass(es, c)
        invariant SlotForClass(es, c).Some? <==> modified || SlotForClass(es[i..], c).Some?
      {
        assert es[i..][1..] == es[i + 1..];
        if es[i].classId == c {
          modified := true;
        } else {
          left := left + [es[i]];
        }
      }
      assert es[|es|..] == [] && es[..|es|] == es;
    }

    method SetEquippedStateForClass(item: Item, c: uint32, s: uint32) returns (item': Item)
      ensures item' == PutIn(item, c, s)
    {
      var _, left := RemoveEquippedClass(item.equipped, c);
      item' := item.(equipped := left + [Equipped(c, s)]);
    }

    /** The loops that erase default equips: each erased entry is published with definition 0. */
    method DropDefaults(w: Which, update: MultipleObjects)
      returns (update': MultipleObjects, last: Option<DefaultEquip>)
      modifies `defaultEquips, `version
      ensures defaultEquips == Without(old(defaultEquips), w)
      ensures last == LastPicked(old(defaultEquips), w)
      ensures last.Some? <==> exists d <- old(defaultEquips) :: Picks(w, d)
      ensures update'.objects == update.objects + Clearing(old(defaultEquips), w)
      ensures Stamped(old(version), update, version, update')
    {
      var es := defaultEquips;
      var left: seq<DefaultEquip> := [];
      update', last := update, None;
      for i := 0 to |es|
        invariant es == old(defaultEquips)
        invariant left == Without(es[..i], w)
        invariant last == LastPicked(es[..i], w)
        invariant last.Some? <==> exists d <- es[..i] :: Picks(w, d)
        invariant update'.objects == update.objects + Clearing(es[..i], w)
        invariant Stamped(old(version), update, version, update')
      {
        ghost var v, u := version, update';
        DroppedNext(es, i, w);
        if Picks(w, es[i]) {
          last := Some(es[i]);
          update' := AddToMultipleObjects(update', Cleared(es[i]));
          StampedTwice(old(version), update, v, u, version, update');
        } else {
          left := left + [es[i]];
        }
      }
      assert es[..|es|] == es;
      defaultEquips := left;
    }

    /** The items' half of UnequipSlotForClass, in whatever order the map is walked. */
    method VacateItems(c: uint32, s: uint32, update: MultipleObjects) returns (update': MultipleObjects)
      modifies `items, `version
      ensures items == Vacated(old(Equips()), c, s).items
      ensures Valid(old(Equips())) ==>
        update'.objects == update.objects + TakenOutObjects(old(Equips()), c, s, {})
      ensures Stamped(old(version), update, version, update')
    {
      ghost var before := Equips();
      var todo := items.Keys;
      update' := update;
      hide WithoutSlot, Valid;
      while todo != {}
        invariant todo <= items.Keys == before.items.Keys
        invariant forall id <- items ::
          items[id] == if id in todo then before.items[id] else TakenOut(before.items[id], c, s)
        invariant Valid(before) ==> update'.objects == update.objects + TakenOutObjects(before, c, s, todo)
        invariant Stamped(old(version), update, version, update')
      {
        var id :| id in todo;
        ghost var v, u := version, update';
        var modified, left := RemoveEquippedSlot(items[id].equipped, Equipped(c, s));
        TakenOutNext(before, c, s, todo, id);
        todo := todo - {id};
        if modified {
          items := items[id := items[id].(equipped := left)];
          update' := AddToMultipleObjects(update', ItemObject(items[id]));
          StampedTwice(old(version), update, v, u, version, update');
        }
      }
      assert items == Vacated(before, c, s).items;
    }

    method UnequipSlotForClass(c: uint32, s: uint32, update: MultipleObjects) returns (update': MultipleObjects)
      modifies `items, `defaultEquips, `version
      ensures Equips() == Vacated(old(Equips()), c, s)
      ensures Valid(old(Equips())) ==> update'.objects == update.objects + VacateDelta(old(Equips()), c, s)
      ensures Stamped(old(version), update, version, update')
    {
      hide Valid, Vacated;
      var vacated := VacateItems(c, s, update);
      ghost var v := version;
      VacatedDefaults(old(Equips()), c, s);
      TakenOutAll(old(Equips()), c, s);
      var last;
      update', last := DropDefaults(InSlot(c, s), vacated);
      StampedTwice(old(version), update, v, vacated, version, update');
      assert update.objects + TakenOutObjects(old(Equips()), c, s, {}) + Clearing(old(defaultEquips), InSlot(c, s))
        == update.objects + (TakenOutObjects(old(Equips()), c, s, {}) + Clearing(old(defaultEquips), InSlot(c, s)));
    }

    method UnequipItemForClass(itemId: uint64, c: uint32, update: MultipleObjects)
      returns (changed: bool, update': MultipleObjects)
      modifies `items, `defaultEquips, `version
      ensures changed <==> Changes(old(Equips()), Request(itemId, c, SLOT_UNEQUIP, false))
      ensures var ch := Equip(old(Equips()), AccountId(), Request(itemId, c, SLOT_UNEQUIP, false));
        Equips() == ch.after && update'.objects == update.objects + ch.delta
      ensures !changed ==> Equips() == old(Equips()) && version == old(version) && update' == update
      ensures items.Keys == old(items.Keys)
      ensures Stamped(old(version), update, version, update')
    {
      if IsDefaultItemId(itemId) {
        NonePicked(defaultEquips, OfDefinition(DefaultDefIndex(itemId), c));
        var last;
        update', last := DropDefaults(OfDefinition(DefaultDefIndex(itemId), c), update);
        return last.Some?, update';
      }
      if itemId !in items {
        return false, update;
      }
      var modified, left := RemoveEquippedClass(items[itemId].equipped, c);
      SlotForClassMeaning(items[itemId].equipped, c);
      if !modified {
        return false, update;
      }
      items := items[itemId := items[itemId].(equipped := left)];
      update' := AddToMultipleObjects(update, ItemObject(items[itemId]));
      return true, update';
    }

    /** The first item met whose slot for the class is this one. */
    method FindItemInSlot(c: uint32, s: uint32) returns (found: Option<uint64>)
      ensures found.Some? ==> found.value in items && SlotForClass(items[found.value].equipped, c) == Some(s)
      ensures Valid(Equips()) ==> found == Occupant(Equips(), c, s)
    {
      found := None;
      var todo := items.Keys;
      while todo != {}
        invariant todo <= items.Keys
        invariant forall id <- items.Keys - todo :: SlotForClass(items[id].equipped, c) != Some(s)
      {
        var id :| id in todo;
        if SlotForClass(items[id].equipped, c) == Some(s) {
          OccupantIsFound(Equips(), c, s, Some(id));
          return Some(id);
        }
        todo := todo - {id};
      }
      OccupantIsFound(Equips(), c, s, None);
    }

    method FindDefault(w: Which) returns (i: nat)
      ensures i == FirstPicked(defaultEquips, w)
    {
      i := 0;
      while i < |defaultEquips| && !Picks(w, defaultEquips[i])
        invariant i <= |defaultEquips|
        invariant forall j :: 0 <= j < i ==> !Picks(w, defaultEquips[j])
      {
        i := i + 1;
      }
    }

    /**
     The swap branch of EquipItem: the occupant of the slot, an item or else another
     default, moves to the slot the definition leaves.  With neither, the slot is vacated.
     */
    method SwapOut(def: uint32, c: uint32, s: uint32, previous: uint32, update: MultipleObjects)
      returns (moved: Option<DefaultEquip>, update': MultipleObjects)
      requires var i := FirstPicked(defaultEquips, OfDefinition(def, c));
        i < |defaultEquips| && defaultEquips[i].slotId == previous != s
      modifies `items, `defaultEquips, `version
      ensures items.Keys == old(items.Keys)
      ensures Valid(old(Equips())) ==>
        (var (room, m) := MakeRoom(old(Equips()), def, c, s, true);
         Equips() == room.after && update'.objects == update.objects + room.delta && moved == m)
      ensures Stamped(old(version), update, version, update')
    {
      hide Valid, Vacated, VacateDelta, PutIn, SlotForClass;
      moved := None;
      var found := FindItemInSlot(c, s);
      if found.Some? {
        var item := SetEquippedStateForClass(items[found.value], c, previous);
        items := items[found.value := item];
        update' := AddToMultipleObjects(update, ItemObject(item));
        return;
      }
      var j := FindDefault(OthersInSlot(def, c, s));
      if j < |defaultEquips| {
        update' := AddToMultipleObjects(update, Cleared(defaultEquips[j]));
        defaultEquips := defaultEquips[j := defaultEquips[j].(slotId := previous)];
        moved := Some(defaultEquips[j]);
        return;
      }
      update' := UnequipSlotForClass(c, s, update);
      VacatedKeys(old(Equips()), c, s);
    }

    /** The end of EquipItem for a definition: its old entry goes, a moved default and then the definition appear. */
    method PlaceDefault(def: uint32, c: uint32, s: uint32, moved: Option<DefaultEquip>, update: MultipleObjects)
      returns (update': MultipleObjects)
      modifies `defaultEquips, `version
      ensures var target := Target(old(defaultEquips), AccountId(), def, c, s);
        && defaultEquips == Without(old(defaultEquips), OfDefinition(def, c)) + [target]
        && update'.objects == update.objects + Clearing(old(defaultEquips), OfDefinition(def, c))
             + Moved(moved) + [DefaultEquipObject(target)]
      ensures Stamped(old(version), update, version, update')
    {
      hide Picks, Without, Clearing, LastPicked;
      var u2, last := DropDefaults(OfDefinition(def, c), update);
      ghost var v2 := version;
      var u3 := u2;
      if moved.Some? {
        u3 := AddToMultipleObjects(u2, DefaultEquipObject(moved.value));
        StampedTwice(old(version), update, v2, u2, version, u3);
      }
      ghost var v3 := version;
      var target := if last.Some? then last.value.(slotId := s) else DefaultEquip(AccountId(), def, c, s);
      defaultEquips := defaultEquips + [target];
      update' := AddToMultipleObjects(u3, DefaultEquipObject(target));
      StampedTwice(old(version), update, v3, u3, version, update');
    }

    /** EquipItem for a definition in the default range. */
    method EquipDefaultItem(def: uint32, c: uint32, s: uint32, swap: bool, update: MultipleObjects)
      returns (update': MultipleObjects)
      modifies `items, `defaultEquips, `version
      ensures items.Keys == old(items.Keys)
      ensures Valid(old(Equips())) ==>
        (var ch := EquipDefault(old(Equips()), AccountId(), def, c, s, swap);
         Equips() == ch.after && update'.objects == update.objects + ch.delta)
      ensures Stamped(old(version), update, version, update')
    {
      hide Valid, Vacated, VacateDelta, Target, Clearing, Without, Moved, Stamped;
      var i := FindDefault(OfDefinition(def, c));
      var moved := None;
      var u1 := update;
      if swap && i < |defaultEquips| && defaultEquips[i].slotId != s {
        moved, u1 := SwapOut(def, c, s, defaultEquips[i].slotId, update);
      } else {
        u1 := UnequipSlotForClass(c, s, update);
        VacatedKeys(old(Equips()), c, s);
      }
      ghost var v1 := version;
      update' := PlaceDefault(def, c, s, moved, u1);
      StampedTwice(old(version), update, v1, u1, version, update');
      JoinDeltas(update.objects, old(Equips()), AccountId(), def, c, s, swap);
    }

    /** Equips, unequips or swaps; false when nothing was modified. */
    method EquipItem(itemId: uint64, c: uint32, s: uint32, swap: bool, update: MultipleObjects)
      returns (changed: bool, update': MultipleObjects)
      modifies `items, `defaultEquips, `version
      ensures changed <==> Changes(old(Equips()), Request(itemId, c, s, swap))
      ensures !changed ==> Equips() == old(Equips()) && version == old(version) && update' == update
      ensures items.Keys == old(items.Keys)
      ensures Valid(old(Equips())) ==>
        (var ch := Equip(old(Equips()), AccountId(), Request(itemId, c, s, swap));
         Equips() == ch.after && update'.objects == update.objects + ch.delta)
      ensures Stamped(old(version), update, version, update')
    {
      hide Valid, Vacated, VacateDelta, EquipDefault;
      if s == SLOT_UNEQUIP {
        changed, update' := UnequipItemForClass(itemId, c, update);
        return;
      }
      if itemId == 0 {
        update' := UnequipSlotForClass(c, s, update);
        VacatedKeys(old(Equips()), c, s);
        return true, update';
      }
      if IsDefaultItemId(itemId) {
        update' := EquipDefaultItem(DefaultDefIndex(itemId), c, s, swap, update);
        return true, update';
      }
      if itemId !in items {
        return false, update;
      }
      var u1 := UnequipSlotForClass(c, s, update);
      VacatedKeys(old(Equips()), c, s);
      ghost var v1 := version;
      var item := SetEquippedStateForClass(items[itemId], c, s);
      items := items[itemId := item];
      update' := AddToMultipleObjects(u1, ItemObject(item));
      StampedTwice(old(version), update, v1, u1, version, update');
      assert update.objects + VacateDelta(old(Equips()), c, s) + [ItemObject(item)]
        == update.objects + (VacateDelta(old(Equips()), c, s) + [ItemObject(item)]);
      return true, update';
    }

    // ------------------------------------------------- creating and destroying

    /** Probes from the wanted id, or the next one, to the first that can be used. */
    method AllocateItem(requested: uint32) returns (id: uint64)
      requires |items| < USABLE
      modifies `items, `lastHighItemId
      ensures id == ComposeItemId(AccountId(), NextHigh(old(Current()), AccountId(), requested))
      ensures Current() == Allocated(old(Current()), AccountId(), requested)
    {
      hide FirstFree;
      var high: uint32 := requested;
      if high == 0 {
        lastHighItemId := Successor(lastHighItemId);
        high := lastHighItemId;
      }
      ghost var counted, target := lastHighItemId, FreshHigh(items.Keys, AccountId(), high);
      id := ComposeItemId(AccountId(), high);
      while IsDefaultItemId(id) || id in items
        invariant items == old(items) && lastHighItemId == counted && id == ComposeItemId(AccountId(), high)
        invariant FirstFree(items.Keys, AccountId(), high, target)
        decreases Distance(high, target)
      {
        RejectedIsFurther(items.Keys, AccountId(), high, target);
        high := Successor(high);
        id := ComposeItemId(AccountId(), high);
      }
      AcceptedIsTarget(items.Keys, AccountId(), high, target);
      if high > lastHighItemId {
        lastHighItemId := high;
      }
      items := items[id := EmptyItem(id, AccountId())];
    }

    method CreateItem(defIndex: uint32, origin: uint32, unacknowledged: uint32) returns (id: uint64)
      requires |items| < USABLE && unacknowledged < 32
      modifies `items, `lastHighItemId
      ensures id == NextId(old(Current()), AccountId())
      ensures Current() == Creating(schema, old(Current()), AccountId(), defIndex, origin, unacknowledged)
    {
      id := AllocateItem(0);
      items := items[id := Created(schema, items[id], defIndex, origin, unacknowledged)];
    }

    method DestroyItem(id: uint64) returns (message: SingleObject)
      requires id in items && items[id].id == id
      modifies `items, `statsTimeInitiated, `version
      ensures Current() == Destroying(old(Current()), id)
      ensures message == DestroyMessage(version, id)
    {
      if items[id].defIndex == ITEM_STATS_SUBSCRIPTION {
        statsTimeInitiated := 0;
      }
      message := ToSingleObject(ItemObject(EmptyItem(items[id].id, 0)));
      items := items - {id};
    }

    // --------------------------------------------------------- save or take back

    /** Prints the tree of the inventory, whatever order the containers are walked in. */
    method WriteToFile() returns (ok: bool)
      modifies `file
      ensures ok <==> DiskTakesIt()
      ensures file.image == if ok then ImageOf(Current()) else old(file.image)
      ensures if ok then InventoryFile.IsFileOf(schema, config, file.image, file.text) else file == old(file)
    {
      if !saveEnabled {
        return false;
      }
      var tree, image;
      ghost var o;
      tree, image, o := WriteTree();
      if diskWorks {
        var output := new KV.OutputFile();
        output.Write(KV.Node(Numbers.Bytes("inventory"), tree, []), 0);
        file := SavedFile(output.written, image);
        assert [] + KV.PrintBody(tree, 0) == KV.PrintBody(tree, 0);
      }
      return diskWorks;
    }

    method WriteTree() returns (tree: seq<KV.Node>, image: Image, ghost o: InventoryFile.Order)
      ensures image == ImageOf(Current())
      ensures InventoryFile.IsOrder(ImageOf(Current()), o) && tree == InventoryFile.FileTree(schema, config, ImageOf(Current()), o)
    {
      var itemKeys := WriteItems();
      ghost var itemOrder :| InventoryFile.Walks(itemOrder, items.Keys)
        && itemKeys == KR.NodesOf(InventoryFile.ItemEntries(schema, items, itemOrder));
      var operationKeys := WriteOperations();
      ghost var operationOrder :| InventoryFile.Walks(operationOrder, operations.Keys)
        && operationKeys == KR.NodesOf(InventoryFile.OperationEntries(operations, operationOrder));
      var favoriteKeys := WriteFavorites();
      ghost var favoriteOrder :| InventoryFile.Walks(favoriteOrder, eventFavorites)
        && favoriteKeys == KR.NodesOf(InventoryFile.FavoriteEntries(favoriteOrder));
      var equipKeys := WriteDefaultEquips();
      var found := HasItemDefinition(ITEM_STATS_SUBSCRIPTION);
      var subscription := if statsTimeInitiated != 0 && found then Some(statsTimeInitiated) else None;
      image := Image(items, subscription, operations, DefaultEntries(defaultEquips), eventFavorites, playerLevel, playerXp);
      var numbers := [config.level, config.xp, playerLevel, playerXp];
      tree := [KR.Field(InventoryFile.FORMAT_VERSION, 1),
               KV.Node(InventoryFile.PLAYER_STATE, KR.Fields(InventoryFile.PLAYER_NUMBERS, numbers), []),
               KV.Node(InventoryFile.ITEMS, itemKeys, []),
               KV.Node(InventoryFile.STATS_SUBSCRIPTION, InventoryFile.SubscriptionKeys(subscription), []),
               KV.Node(InventoryFile.SEASONAL_OPERATIONS, operationKeys, []),
               KV.Node(InventoryFile.DEFAULT_EQUIPS, equipKeys, []),
               KV.Node(InventoryFile.EVENT_FAVORITES, favoriteKeys, [])];
      o := InventoryFile.Order(itemOrder, operationOrder, favoriteOrder);
    }

    method WriteItems() returns (keys: seq<KV.Node>)
      ensures exists order ::
        InventoryFile.Walks(order, items.Keys) && keys == KR.NodesOf(InventoryFile.ItemEntries(schema, items, order))
    {
      hide InventoryFile.ItemKeys, Numbers.FormatInt;
      keys := [];
      ghost var order: seq<uint64> := [];
      var todo := items.Keys;
      while todo != {}
        invariant todo <= items.Keys && InventoryFile.Walks(order, items.Keys - todo)
        invariant keys == KR.NodesOf(InventoryFile.ItemEntries(schema, items, order))
      {
        var id :| id in todo;
        todo := todo - {id};
        var itemKeys := WriteItem(items[id]);
        order, keys := order + [id], keys + [KV.Node(Numbers.FormatInt(HighItemId(items[id].id)), itemKeys, [])];
      }
      assert items.Keys - todo == items.Keys;
    }

    method WriteItem(item: Item) returns (keys: seq<KV.Node>)
      ensures keys == InventoryFile.ItemKeys(schema, item)
    {
      assert |InventoryFile.ITEM_NUMBERS| == |InventoryFile.ItemNumbers(item)|;
      hide InventoryFile.AttributeText, Numbers.FormatInt, KR.Fields, InventoryFile.ITEM_NUMBERS, InventoryFile.ItemNumbers;
      var attributes: seq<KV.Node> := [];
      for i := 0 to |item.attributes|
        invariant attributes == KR.NodesOf(InventoryFile.AttributeEntries(schema, item.attributes[..i]))
      {
        var a := item.attributes[i];
        attributes := attributes + [KV.Node(Numbers.FormatInt(a.defIndex), [], InventoryFile.AttributeText(schema, a))];
      }
      assert item.attributes[..|item.attributes|] == item.attributes;
      var equipped: seq<KV.Node> := [];
      for i := 0 to |item.equipped|
        invariant equipped == KR.NodesOf(InventoryFile.EquippedEntries(item.equipped[..i]))
      {
        var e := item.equipped[i];
        equipped := equipped + [KR.Field(Numbers.FormatInt(e.classId), e.slotId)];
      }
      assert item.equipped[..|item.equipped|] == item.equipped;
      keys := KR.Fields(InventoryFile.ITEM_NUMBERS, InventoryFile.ItemNumbers(item))
        + [KV.Node(InventoryFile.ATTRIBUTES, attributes, []), KV.Node(InventoryFile.EQUIPPED_STATE, equipped, [])];
    }

    method WriteOperations() returns (keys: seq<KV.Node>)
      ensures exists order ::
        InventoryFile.Walks(order, operations.Keys) && keys == KR.NodesOf(InventoryFile.OperationEntries(operations, order))
    {
      hide InventoryFile.OperationNumbers, Numbers.FormatInt, KR.Fields;
      keys := [];
      ghost var order: seq<uint32> := [];
      var todo := operations.Keys;
      while todo != {}
        invariant todo <= operations.Keys && InventoryFile.Walks(order, operations.Keys - todo)
        invariant keys == KR.NodesOf(InventoryFile.OperationEntries(operations, order))
      {
        var season :| season in todo;
        todo := todo - {season};
        InventoryFile.SixNumbers(operations[season]);
        var fields := KR.Fields(InventoryFile.OPERATION_NUMBERS, InventoryFile.OperationNumbers(operations[season]));
        order, keys := order + [season], keys + [KV.Node(Numbers.FormatInt(season), fields, [])];
      }
      assert operations.Keys - todo == operations.Keys;
    }

    method WriteDefaultEquips() returns (keys: seq<KV.Node>)
      ensures keys == KR.NodesOf(InventoryFile.EquipEntries(DefaultEntries(defaultEquips)))
    {
      hide Numbers.FormatInt, KR.Fields;
      keys := [];
      for i := 0 to |defaultEquips|
        invariant keys == KR.NodesOf(InventoryFile.EquipEntries(DefaultEntries(defaultEquips[..i])))
      {
        var d := defaultEquips[i];
        keys := keys + [KV.Node(Numbers.FormatInt(d.itemDefinition), KR.Fields(InventoryFile.EQUIP_NUMBERS, [d.classId, d.slotId]), [])];
      }
      assert defaultEquips[..|defaultEquips|] == defaultEquips;
    }

    method WriteFavorites() returns (keys: seq<KV.Node>)
      ensures exists order ::
        InventoryFile.Walks(order, eventFavorites) && keys == KR.NodesOf(InventoryFile.FavoriteEntries(order))
    {
      hide Numbers.FormatInt;
      keys := [];
      ghost var order: seq<uint64> := [];
      var todo := eventFavorites;
      while todo != {}
        invariant todo <= eventFavorites && InventoryFile.Walks(order, eventFavorites - todo)
        invariant keys == KR.NodesOf(InventoryFile.FavoriteEntries(order))
      {
        var eventId :| eventId in todo;
        todo := todo - {eventId};
        order, keys := order + [eventId], keys + [KR.Field(Numbers.FormatInt(eventId), 1)];
      }
      assert eventFavorites - todo == eventFavorites;
    }

    /** Reads the file into a new inventory; a file that is there but cannot be used stops all saving. */
    method ReadFromFile(read: KV.FileRead, now: uint32)
      requires Current() == Memory(map[], [], version, 0, 0, map[], {}, config.level, config.xp)
      requires var ks := InventoryFile.TreeIn(read); ks.Some? ==> |KV.SubkeysIn(ks.value, InventoryFile.ITEMS)| <= USABLE
      modifies `items, `defaultEquips, `lastHighItemId, `statsTimeInitiated, `operations, `eventFavorites, `playerLevel, `playerXp
      modifies `saveEnabled
      ensures var ks := InventoryFile.TreeIn(read);
        if ks.Some? then
          Current() == InventoryFile.ReadTree(schema, config, AccountId(), version, ks.value, now) && saveEnabled == old(saveEnabled)
        else Current() == old(Current()) && saveEnabled == (old(saveEnabled) && read.NotFound?)
    {
      hide InventoryFile.ReadTree, InventoryFile.ITEMS, KV.SubkeysIn, KV.ParseText, Numbers.Bytes;
      var inventoryKey := new KV.KeyValue(Numbers.Bytes("inventory"));
      var result := inventoryKey.ParseFromFileDetailed(read);
      if result == KV.FileNotFound {
        return;
      }
      if result != KV.Success {
        saveEnabled := false;
        return;
      }
      ReadKeys(inventoryKey.root.subkeys, now);
    }

    method ReadKeys(ks: seq<KV.Node>, now: uint32)
      requires Current() == Memory(map[], [], version, 0, 0, map[], {}, config.level, config.xp)
      requires |KV.SubkeysIn(ks, InventoryFile.ITEMS)| <= USABLE
      modifies `items, `defaultEquips, `lastHighItemId, `statsTimeInitiated, `operations, `eventFavorites, `playerLevel, `playerXp
      ensures Current() == InventoryFile.ReadTree(schema, config, AccountId(), version, ks, now)
    {
      hide KV.SubkeysIn, InventoryFile.ITEMS, InventoryFile.PLAYER_STATE, InventoryFile.SEASONAL_OPERATIONS, InventoryFile.DEFAULT_EQUIPS;
      hide InventoryFile.EVENT_FAVORITES, InventoryFile.STATS_SUBSCRIPTION, InventoryFile.TIME_INITIATED, InventoryFile.PLAYER_NUMBERS;
      hide InventoryFile.ReadItems, InventoryFile.Deduplicated, InventoryFile.ReadOperations, InventoryFile.ReadDefaultEquips;
      hide InventoryFile.ReadFavorites, InventoryFile.GetUint32, InventoryFile.ReadLevel, InventoryFile.ReadXp, HasDefinition;
      ReadPlayer(KV.SubkeysIn(ks, InventoryFile.PLAYER_STATE));
      ReadItems(KV.SubkeysIn(ks, InventoryFile.ITEMS));
      DeduplicateStatsSubscriptions();
      var found := HasItemDefinition(ITEM_STATS_SUBSCRIPTION);
      if found {
        statsTimeInitiated := InventoryFile.GetUint32(KV.SubkeysIn(ks, InventoryFile.STATS_SUBSCRIPTION), InventoryFile.TIME_INITIATED);
        if statsTimeInitiated == 0 {
          statsTimeInitiated := now;
        }
      }
      ReadSeasonalOperations(KV.SubkeysIn(ks, InventoryFile.SEASONAL_OPERATIONS));
      ReadDefaultEquips(KV.SubkeysIn(ks, InventoryFile.DEFAULT_EQUIPS));
      ReadFavorites(KV.SubkeysIn(ks, InventoryFile.EVENT_FAVORITES));
    }

    method ReadPlayer(player: seq<KV.Node>)
      requires playerLevel == config.level && playerXp == config.xp
      modifies `playerLevel, `playerXp
      ensures playerLevel == InventoryFile.ReadLevel(config, player) && playerXp == InventoryFile.ReadXp(config, player)
    {
      hide InventoryFile.GetInt32, InventoryFile.SameConfig, Numbers.Bytes;
      if InventoryFile.SameConfig(config, player) {
        playerLevel := InventoryFile.GetInt32(player, InventoryFile.PLAYER_NUMBERS[2]);
        playerXp := InventoryFile.GetInt32(player, InventoryFile.PLAYER_NUMBERS[3]);
      }
    }

    /** The items one by one, each in a place that is allocated for it. */
    method ReadItems(keys: seq<KV.Node>)
      requires |items| + |keys| <= USABLE
      modifies `items, `lastHighItemId
      ensures Current() == InventoryFile.ReadItems(schema, old(Current()), AccountId(), keys)
    {
      hide InventoryFile.ReadItem, NextHigh, RaisedLast, Numbers.LeadingUint32;
      ghost var m := Current();
      for i := 0 to |keys|
        invariant |items| <= |m.items| + i
        invariant Current() == InventoryFile.ReadItems(schema, m, AccountId(), keys[..i])
      {
        assert keys[..i + 1][..i] == keys[..i];
        ghost var before := Current();
        var id := AllocateItem(Numbers.LeadingUint32(keys[i].name));
        var item := ReadItem(keys[i].subkeys, items[id]);
        items := items[id := item];
        assert items == before.items[id := item];
      }
      assert keys[..|keys|] == keys;
    }

    method ReadItem(ks: seq<KV.Node>, blank: Item) returns (item: Item)
      ensures item == InventoryFile.ReadItem(schema, ks, blank)
    {
      hide InventoryFile.GetUint32, InventoryFile.GetInt32, InventoryFile.WithString, InventoryFile.Migrated, Numbers.LeadingUint32;
      hide InventoryFile.ITEM_NUMBERS, KV.SubkeysIn;
      var attributes: seq<Attribute> := [];
      var attributeKeys := KV.SubkeysIn(ks, InventoryFile.ATTRIBUTES);
      for i := 0 to |attributeKeys|
        invariant attributes == InventoryFile.ReadAttributes(schema, attributeKeys[..i])
      {
        var a := Attribute(Numbers.LeadingUint32(attributeKeys[i].name), Unset);
        attributes := attributes + [InventoryFile.WithString(schema, a, attributeKeys[i].str)];
      }
      assert attributeKeys[..|attributeKeys|] == attributeKeys;
      attributes := InventoryFile.Migrated(schema, attributes, InventoryFile.GetString(ks, InventoryFile.CUSTOM_NAME));
      var equipped: seq<Equipped> := [];
      var equippedKeys := KV.SubkeysIn(ks, InventoryFile.EQUIPPED_STATE);
      for i := 0 to |equippedKeys|
        invariant equipped == InventoryFile.ReadEquipped(equippedKeys[..i])
      {
        equipped := equipped + [Equipped(Numbers.LeadingUint32(equippedKeys[i].name), Numbers.LeadingUint32(equippedKeys[i].str))];
      }
      assert equippedKeys[..|equippedKeys|] == equippedKeys;
      item := InventoryFile.ItemFrom(ks, blank, attributes, equipped);
    }

    /** Keeps the newest of several stats subscriptions. */
    method DeduplicateStatsSubscriptions()
      modifies `items
      ensures items == InventoryFile.Deduplicated(old(items))
    {
      ghost var before := items;
      var latest: uint64 := 0;
      var todo := items.Keys;
      while todo != {}
        invariant todo <= items.Keys
        invariant forall id <- items.Keys - todo :: items[id].defIndex == ITEM_STATS_SUBSCRIPTION ==> id <= latest
        invariant latest != 0 ==> latest in items.Keys && items[latest].defIndex == ITEM_STATS_SUBSCRIPTION
      {
        var id :| id in todo;
        todo := todo - {id};
        if items[id].defIndex == ITEM_STATS_SUBSCRIPTION && id > latest {
          latest := id;
        }
      }
      todo := items.Keys;
      if latest == 0 {
        assert items == InventoryFile.Deduplicated(before);
        return;
      }
      while todo != {}
        invariant todo <= items.Keys <= before.Keys && before.Keys - todo >= before.Keys - items.Keys
        invariant forall id <- items :: items[id] == before[id]
        invariant forall id <- before.Keys - todo ::
          id in items <==> !(before[id].defIndex == ITEM_STATS_SUBSCRIPTION && id != latest)
      {
        var id :| id in todo;
        todo := todo - {id};
        if items[id].defIndex == ITEM_STATS_SUBSCRIPTION && id != latest {
          items := items - {id};
        }
      }
      assert items == InventoryFile.Deduplicated(before);
    }

    method ReadSeasonalOperations(keys: seq<KV.Node>)
      requires operations == map[]
      modifies `operations
      ensures operations == InventoryFile.ReadOperations(keys)
    {
      hide InventoryFile.ReadOperation, Numbers.LeadingUint32;
      for i := 0 to |keys|
        invariant operations == InventoryFile.ReadOperations(keys[..i])
      {
        assert keys[..i + 1][..i] == keys[..i];
        var season := Numbers.LeadingUint32(keys[i].name);
        var operation := if season in operations then operations[season] else SeasonalOperation(season, 0, 0, 0, 0, 0, 0);
        operations := operations[season := InventoryFile.ReadOperation(operation, keys[i].subkeys)];
      }
      assert keys[..|keys|] == keys;
    }

    method ReadDefaultEquips(keys: seq<KV.Node>)
      requires defaultEquips == []
      modifies `defaultEquips
      ensures defaultEquips == InventoryFile.ReadDefaultEquips(AccountId(), keys)
    {
      hide InventoryFile.GetUint32, Numbers.LeadingUint32;
      for i := 0 to |keys|
        invariant defaultEquips == InventoryFile.ReadDefaultEquips(AccountId(), keys[..i])
      {
        var ks := keys[i].subkeys;
        defaultEquips := defaultEquips + [DefaultEquip(AccountId(), Numbers.LeadingUint32(keys[i].name),
          InventoryFile.GetUint32(ks, InventoryFile.EQUIP_NUMBERS[0]), InventoryFile.GetUint32(ks, InventoryFile.EQUIP_NUMBERS[1]))];
      }
      assert keys[..|keys|] == keys;
    }

    method ReadFavorites(keys: seq<KV.Node>)
      requires eventFavorites == {}
      modifies `eventFavorites
      ensures eventFavorites == InventoryFile.ReadFavorites(keys)
    {
      hide Numbers.LeadingUint64;
      for i := 0 to |keys|
        invariant eventFavorites == InventoryFile.ReadFavorites(keys[..i])
      {
        assert keys[..i + 1] == keys[..i] + [keys[i]];
        var eventId := Numbers.LeadingUint64(keys[i].name);
        if eventId != 0 {
          eventFavorites := eventFavorites + {eventId};
        }
      }
      assert keys[..|keys|] == keys;
    }

    method HasItemDefinition(defIndex: uint32) returns (found: bool)
      ensures found <==> HasDefinition(items, defIndex)
    {
      var id := FindByDefinition(defIndex);
      found := id.Some?;
    }

    method FindByDefinition(defIndex: uint32) returns (found: Option<uint64>)
      ensures found.Some? ==> found.value in items && items[found.value].defIndex == defIndex
      ensures found.None? ==> !HasDefinition(items, defIndex)
    {
      found := None;
      var todo := items.Keys;
      while todo != {}
        invariant todo <= items.Keys
        invariant forall id <- items.Keys - todo :: items[id].defIndex != defIndex
      {
        var id :| id in todo;
        if items[id].defIndex == defIndex {
          return Some(id);
        }
        todo := todo - {id};
      }
    }

    method SetEventFavorite(eventId: uint64, favorite: bool) returns (ok: bool)
      requires |items| < USABLE
      modifies `eventFavorites, `file
      ensures Refines(schema, AccountId(), old(Both()), Event(Favorite(eventId, favorite), None, DiskTakesIt()), ok, Both())
    {
      hide InventoryFile.IsFileOf, Refines, ImageOf, NextVersion;
      ghost var e := Event(Favorite(eventId, favorite), None, DiskTakesIt());
      var wasFavorite := eventId in eventFavorites;
      if eventId == 0 || wasFavorite == favorite {
        Declines(schema, AccountId(), Both(), e);
        return eventId != 0;
      }
      eventFavorites := if favorite then eventFavorites + {eventId} else eventFavorites - {eventId};
      Saves(schema, AccountId(), old(Both()), e, Current());
      ok := WriteToFile();
      if !ok {
        eventFavorites := if wasFavorite then eventFavorites + {eventId} else eventFavorites - {eventId};
        assert eventFavorites == old(eventFavorites);
      }
    }

    method SelectSeasonalMissionCard(season: uint32, card: uint32) returns (ok: bool, update: SingleObject)
      requires |items| < USABLE
      modifies `operations, `version, `file
      ensures Refines(schema, AccountId(), old(Both()), Event(SelectMission(season, card), None, DiskTakesIt()), ok, Both())
      ensures update == if version == old(version) then NoObject else SingleObject(version, OperationObject(operations[season]))
    {
      hide InventoryFile.IsFileOf, Refines, ImageOf;
      ghost var e := Event(SelectMission(season, card), None, DiskTakesIt());
      update := NoObject;
      if season !in operations || (season, card) !in schema.missionCards {
        Declines(schema, AccountId(), Both(), e);
        return false, update;
      }
      if operations[season].missionId == card {
        Declines(schema, AccountId(), Both(), e);
        return true, update;
      }
      var previousVersion, previous := version, operations[season];
      operations := operations[season := previous.(missionId := card)];
      update := ToSingleObject(OperationObject(operations[season]));
      Saves(schema, AccountId(), old(Both()), e, Current());
      ok := WriteToFile();
      if !ok {
        operations := operations[season := previous];
        version := previousVersion;
        update := NoObject;
        assert operations == old(operations);
      }
    }

    /** Lets the client store one thing: the graffiti of a tournament journal. */
    method ModifyItemAttribute(itemId: uint64, defIndex: uint32, value: uint32) returns (ok: bool, update: SingleObject)
      requires |items| < USABLE
      modifies `items, `version, `file
      ensures Refines(schema, AccountId(), old(Both()),
                Event(Op.ModifyAttribute(itemId, defIndex, value), None, DiskTakesIt()), ok, Both())
      ensures if ok then itemId in items && update == SingleObject(version, ItemObject(items[itemId])) else update == NoObject
    {
      hide InventoryFile.IsFileOf, Refines, UnsetWith, SetOrAdd, FindAttribute, HasAttribute, ImageOf, NextVersion, Performed, TakenBack, Accepts, Idle;
      ghost var e := Event(Op.ModifyAttribute(itemId, defIndex, value), None, DiskTakesIt());
      update := NoObject;
      ModifyPerformed(schema, Current(), AccountId(), itemId, defIndex, value);
      if itemId !in items || defIndex != ATTRIBUTE_STICKER_ID_0 || items[itemId].defIndex !in schema.journals
        || defIndex !in schema.attributeTypes
      {
        Declines(schema, AccountId(), Both(), e);
        return false, update;
      }
      var previousVersion := version;
      var existing := HasAttribute(items[itemId].attributes, defIndex);
      var previous, attributes := SetAttribute(items[itemId].attributes, defIndex, value);
      items := items[itemId := items[itemId].(attributes := attributes)];
      update := ToSingleObject(ItemObject(items[itemId]));
      Saves(schema, AccountId(), old(Both()), e, Current());
      ok := WriteToFile();
      if !ok {
        version := previousVersion;
        attributes := UnsetAttribute(attributes, defIndex, if existing then Some(previous) else None);
        items := items[itemId := items[itemId].(attributes := attributes)];
        update := NoObject;
        assert items == old(items);
      }
    }

    /** FindOrAddAttribute and SetAttributeUint32; a new attribute has no value before. */
    method SetAttribute(attributes: seq<Attribute>, defIndex: uint32, value: uint32) returns (previous: Value, changed: seq<Attribute>)
      ensures changed == SetOrAdd(schema, attributes, defIndex, value) && HasAttribute(changed, defIndex)
      ensures UnsetWith(changed, defIndex,
                if HasAttribute(attributes, defIndex) then Some(previous) else None) == attributes
    {
      var i := FindAttribute(attributes, defIndex);
      changed := attributes;
      if i == |attributes| {
        changed := changed + [Attribute(defIndex, Unset)];
      }
      previous := changed[i].value;
      changed := changed[i := WithNumber(schema, changed[i], value)];
      SetOrAddFinds(schema, attributes, defIndex, value);
    }

    /** The way back: the old value bytes, or one attribute less. */
    method UnsetAttribute(attributes: seq<Attribute>, defIndex: uint32, previous: Option<Value>) returns (restored: seq<Attribute>)
      requires HasAttribute(attributes, defIndex)
      ensures restored == UnsetWith(attributes, defIndex, previous)
    {
      var i := FindAttribute(attributes, defIndex);
      restored := if previous.Some? then attributes[i := attributes[i].(value := previous.value)]
        else attributes[..|attributes| - 1];
    }

    /** A kill counter in uint32 arithmetic. */
    method IncrementKillCountAttribute(itemId: uint64, amount: uint32) returns (ok: bool, update: SingleObject)
      requires |items| < USABLE
      modifies `items, `version, `file
      ensures Refines(schema, AccountId(), old(Both()), Event(AddKills(itemId, amount), None, DiskTakesIt()), ok, Both())
      ensures if ok then itemId in items && update == SingleObject(version, ItemObject(items[itemId])) else update == NoObject
    {
      hide InventoryFile.IsFileOf, Refines, WithNumber, NumberOf, ImageOf, NextVersion, FindAttribute, HasAttribute, Performed, TakenBack, Accepts, Idle;
      hide WithKills;
      ghost var before, e := Both(), Event(AddKills(itemId, amount), None, DiskTakesIt());
      update := NoObject;
      KillsPerformed(schema, Current(), AccountId(), itemId, amount);
      if itemId !in items || !HasAttribute(items[itemId].attributes, ATTRIBUTE_KILL_EATER) {
        Declines(schema, AccountId(), before, e);
        return false, update;
      }
      var i, previousVersion := FindAttribute(items[itemId].attributes, ATTRIBUTE_KILL_EATER), version;
      var previousCount := NumberOf(schema, items[itemId].attributes[i]);
      var item := SetKills(items[itemId], i, (previousCount + amount) % WORD);
      items := items[itemId := item];
      update := ToSingleObject(ItemObject(items[itemId]));
      Saves(schema, AccountId(), before, e, Current());
      ok := WriteToFile();
      if !ok {
        item := SetKills(item, i, previousCount);
        items := items[itemId := item];
        version := previousVersion;
        update := NoObject;
      }
    }

    method SetKills(item: Item, i: nat, count: uint32) returns (changed: Item)
      requires i < |item.attributes|
      ensures changed == WithKills(schema, item, i, count)
    {
      changed := item.(attributes := item.attributes[i := WithNumber(schema, item.attributes[i], count)]);
    }

    method GetPrestigeMedalPlan(year: uint32) returns (plan: Option<Plan>)
      ensures plan.Some? ==> IsPlan(items, Medals(schema, year), plan.value)
      ensures plan.None? ==> forall p :: !IsPlan(items, Medals(schema, year), p)
    {
      var medals := Medals(schema, year);
      if medals == [] {
        return None;
      }
      var current: Option<uint64> := None;
      var level := 0;
      var todo := items.Keys;
      while todo != {}
        invariant todo <= items.Keys
        invariant current.None? ==> forall id <- items.Keys - todo :: items[id].defIndex !in medals
        invariant current.Some? ==> BestMedal(items, items.Keys - todo, medals, current.value)
        invariant current.Some? ==> level == LevelOf(medals, items[current.value].defIndex)
      {
        var id :| id in todo;
        todo := todo - {id};
        var medalLevel := LevelOf(medals, items[id].defIndex);
        if medalLevel < |medals| && (current.None? || medalLevel > level) {
          current, level := Some(id), medalLevel;
        }
      }
      if current.None? {
        return Some(Plan(medals[0], None));
      }
      if level + 1 >= |medals| {
        return None;
      }
      return Some(Plan(medals[level + 1], current));
    }

    method ClaimPrestigeMedal(year: uint32, expected: uint32) returns (ok: bool, claim: PrestigeMedalClaim, ghost chosen: Option<uint64>)
      requires |items| < USABLE
      modifies `items, `lastHighItemId, `version, `playerLevel, `playerXp, `file
      ensures Refines(schema, AccountId(), old(Both()), Event(ClaimMedal(year, expected), chosen, DiskTakesIt()), ok, Both())
      ensures if ok then IsClaim(schema, old(Current()), AccountId(), chosen, Current(), claim) else claim == NoClaim
      ensures !ok && DiskTakesIt() ==> forall c :: !Accepts(schema, old(Current()), ClaimMedal(year, expected), c)
    {
      hide InventoryFile.IsFileOf, Refines, IsPlan, Accepts, IsClaim;
      claim, chosen := NoClaim, None;
      var plan := GetPrestigeMedalPlan(year);
      PlannedOrNot(items, Medals(schema, year), plan, expected);
      ClaimPerformed(schema, Current(), AccountId(), year, expected);
      if playerLevel < MAX_PLAYER_LEVEL || plan.None? || plan.value.defIndex != expected {
        Declines(schema, AccountId(), Both(), Event(ClaimMedal(year, expected), chosen, DiskTakesIt()));
        return false, claim, chosen;
      }
      chosen := plan.value.upgrade;
      ok, claim := GrantAndSave(year, expected, plan.value.upgrade);
    }

    method GrantAndSave(year: uint32, expected: uint32, upgrade: Option<uint64>) returns (ok: bool, claim: PrestigeMedalClaim)
      requires |items| < USABLE && Accepts(schema, Current(), ClaimMedal(year, expected), upgrade)
      modifies `items, `lastHighItemId, `version, `playerLevel, `playerXp, `file
      ensures ok == DiskTakesIt()
      ensures Refines(schema, AccountId(), old(Both()), Event(ClaimMedal(year, expected), upgrade, DiskTakesIt()), ok, Both())
      ensures if ok then IsClaim(schema, old(Current()), AccountId(), upgrade, Current(), claim) else claim == NoClaim
    {
      hide InventoryFile.IsFileOf, Refines, ImageOf, NextVersion, Claimed, NextId, Accepts, Performed, Idle, TakenBack, IsClaim, Unclaimed;
      ghost var before, disk := Both(), DiskTakesIt();
      ClaimPerformed(schema, Current(), AccountId(), year, expected);
      var previousLevel, previousXp, previousVersion, previousLast := playerLevel, playerXp, version, lastHighItemId;
      var previousDef;
      claim, previousDef := PublishClaim(expected, upgrade);
      Saves(schema, AccountId(), before, Event(ClaimMedal(year, expected), upgrade, disk), Current());
      ok := WriteToFile();
      if !ok {
        UndoClaim(claim, previousDef, previousLevel, previousXp, previousVersion, previousLast);
        claim := NoClaim;
      }
    }

    /** Makes the changes of a claim and fills in what is to be published. */
    method PublishClaim(expected: uint32, upgrade: Option<uint64>) returns (claim: PrestigeMedalClaim, previousDef: uint32)
      requires |items| < USABLE && (upgrade.Some? ==> upgrade.value in items)
      modifies `items, `lastHighItemId, `version, `playerLevel, `playerXp
      ensures Current() == Claimed(schema, old(Current()), AccountId(), expected, upgrade)
      ensures IsClaim(schema, old(Current()), AccountId(), upgrade, Current(), claim)
      ensures claim.itemId in items && Unclaimed(items, claim, previousDef) == old(items)
      ensures !claim.created ==> lastHighItemId == old(lastHighItemId)
    {
      hide Granted, NextId, NextVersion, AdvancedBy;
      var id;
      id, previousDef := GrantMedal(expected, upgrade);
      GrantedItems(schema, old(Current()), AccountId(), expected, upgrade);
      AdvancedTwice(version);
      var itemData := ToSingleObject(ItemObject(items[id]));
      playerLevel, playerXp := 1, 0;
      var personaData := ToSingleObject(PersonaObject(playerLevel));
      claim := PrestigeMedalClaim(itemData, personaData, id, upgrade.None?);
    }

    method UndoClaim(claim: PrestigeMedalClaim, previousDef: uint32, level: int32, xp: int32, version: uint64, last: uint32)
      requires claim.itemId in items
      modifies `items, `lastHighItemId, `version, `playerLevel, `playerXp
      ensures items == Unclaimed(old(items), claim, previousDef)
      ensures lastHighItemId == if claim.created then last else old(lastHighItemId)
      ensures playerLevel == level && playerXp == xp && this.version == version
    {
      if claim.created {
        items := items - {claim.itemId};
        lastHighItemId := last;
      } else {
        items := items[claim.itemId := items[claim.itemId].(defIndex := previousDef)];
      }
      playerLevel, playerXp, this.version := level, xp, version;
    }

    /** Upgrades the medal in place or creates the first one. */
    method GrantMedal(defIndex: uint32, upgrade: Option<uint64>) returns (id: uint64, previousDef: uint32)
      requires |items| < USABLE && (upgrade.Some? ==> upgrade.value in items)
      modifies `items, `lastHighItemId
      ensures Current() == Granted(schema, old(Current()), AccountId(), defIndex, upgrade)
      ensures id == (if upgrade.Some? then upgrade.value else NextId(old(Current()), AccountId()))
      ensures upgrade.Some? ==> previousDef == old(items[id].defIndex)
    {
      previousDef := 0;
      if upgrade.Some? {
        id := upgrade.value;
        previousDef := items[id].defIndex;
        items := items[id := items[id].(defIndex := defIndex)];
      } else {
        id := CreateItem(defIndex, ORIGIN_LEVEL_UP_REWARD, UNACKNOWLEDGED_LEVEL_UP_REWARD);
      }
    }

    // ----------------------------------------------------------- using an item

    /** Passes, tokens and sealed graffiti. */
    method UseItem(itemId: uint64, now: uint32) returns (ok: bool, result: UseItemResult, ghost chosen: Option<uint64>)
      requires |items| < USABLE && Valid(Equips()) && AccessSchema(schema)
      modifies `items, `lastHighItemId, `version, `statsTimeInitiated, `operations, `defaultEquips, `file
      ensures if Sprays.IsSpray(schema, old(items), itemId) then
          && ok && Current() == Sprays.Sprayed(schema, old(Current()), AccountId(), itemId) && file == old(file)
          && Sprays.IsSprayResult(old(Current()), AccountId(), itemId, result)
        else
          && Refines(schema, AccountId(), old(Both()), Event(Use(itemId, now), chosen, DiskTakesIt()), ok, Both())
          && if ok then UseResult(schema, old(Current()), AccountId(), itemId, chosen, Current(), result) else result == NotUsed
    {
      hide InventoryFile.IsFileOf, Refines, UseResult, Sprays.Sprayed, Sprays.IsSprayResult, Valid;
      ValidIsKeyed(Equips());
      chosen := None;
      if itemId in items && items[itemId].defIndex in schema.tournamentAccess {
        ok, result, chosen := ActivateTournamentAccess(itemId, now);
        return;
      }
      if itemId in items && items[itemId].defIndex in schema.seasonPasses {
        ok, result := ActivateSeasonPass(itemId, now);
        return;
      }
      if itemId !in items || items[itemId].defIndex != ITEM_SPRAY {
        Declines(schema, AccountId(), Both(), Event(Use(itemId, now), None, DiskTakesIt()));
        return false, NotUsed, None;
      }
      result := UnsealSpray(itemId);
      ok := true;
    }

    /** Nothing is saved, and the number of uses is set on the item after it has been published. */
    method UnsealSpray(itemId: uint64) returns (result: UseItemResult)
      requires |items| < USABLE && Valid(Equips()) && itemId in items && items[itemId].id == itemId
      modifies `items, `lastHighItemId, `version, `statsTimeInitiated, `defaultEquips
      ensures Current() == Sprays.Sprayed(schema, old(Current()), AccountId(), itemId)
      ensures Sprays.IsSprayResult(old(Current()), AccountId(), itemId, result)
    {
      hide NextId, NextVersion, Valid, Equip, Adding, Changes;
      AdvancedTwice(version);
      AddingItems(Current(), AccountId(), items[itemId].(defIndex := ITEM_SPRAY_PAINT));
      Sprays.UnsealedIsValid(Current(), AccountId(), itemId);
      Sprays.SprayStays(Current(), AccountId(), itemId);
      ghost var delta := Sprays.SprayEquip(Current(), AccountId(), itemId).delta;
      var madeId := CreateItemFrom(items[itemId].(defIndex := ITEM_SPRAY_PAINT));
      var destroy := DestroyItem(itemId);
      var _, update := EquipItem(madeId, 0, SLOT_GRAFFITI, false, NoUpdates);
      assert [] + delta == delta;
      items := items[madeId := Sprays.WithSprays(schema, items[madeId])];
      result := UseItemResult(destroy, NoObject, NoObject, NoChange, NoChange, update, [madeId]);
    }

    method ActivateSeasonPass(itemId: uint64, now: uint32) returns (ok: bool, result: UseItemResult)
      requires |items| < USABLE && itemId in items && items[itemId].id == itemId
      requires items[itemId].defIndex in schema.seasonPasses && items[itemId].defIndex !in schema.tournamentAccess
      modifies `items, `lastHighItemId, `version, `statsTimeInitiated, `operations, `file
      ensures Refines(schema, AccountId(), old(Both()), Event(Use(itemId, now), None, DiskTakesIt()), ok, Both())
      ensures if ok then UseResult(schema, old(Current()), AccountId(), itemId, None, Current(), result) else result == NotUsed
    {
      hide InventoryFile.IsFileOf, Refines, ImageOf, PassUsed, IsPassResult, Accepts, Performed, TakenBack, Idle, AdvancedBy, NextId, Undone;
      ghost var before, disk := Both(), DiskTakesIt();
      var pass := schema.seasonPasses[items[itemId].defIndex];
      PassPerformed(schema, Current(), AccountId(), itemId, now);
      var found := HasItemDefinition(pass.coinDefIndex);
      if pass.seasonValue in operations || found {
        Declines(schema, AccountId(), before, Event(Use(itemId, now), None, disk));
        return false, NotUsed;
      }
      var previousVersion, previousLast, previousPass := version, lastHighItemId, items[itemId];
      result := PublishPass(itemId, pass, now);
      Saves(schema, AccountId(), before, Event(Use(itemId, now), None, disk), Current());
      ok := SaveUse(itemId, previousPass, result.notified[0], None, previousVersion, previousLast, Some(pass.seasonValue), before.memory);
      result := if ok then result else NotUsed;
    }

    /** Creates the coin and the operation and destroys the pass. */
    method PublishPass(itemId: uint64, pass: SeasonPass, now: uint32) returns (result: UseItemResult)
      requires |items| < USABLE && itemId in items && items[itemId].id == itemId
      requires CanUsePass(Current(), pass)
      modifies `items, `lastHighItemId, `version, `statsTimeInitiated, `operations
      ensures Current() == PassUsed(schema, old(Current()), AccountId(), itemId, pass, now)
      ensures IsPassResult(old(Current()), AccountId(), itemId, pass, Current(), result)
      ensures |result.notified| == 1 && Undone(items, itemId, old(items)[itemId], result.notified[0], None) == old(items)
      ensures operations - {pass.seasonValue} == old(operations)
    {
      hide NextId, Created, NextVersion, AdvancedBy, Undone;
      AdvancedTwice(version);
      NewIdIsFresh(Current(), AccountId());
      UsedPassCanReturn(schema, Current(), AccountId(), itemId, pass, now);
      var coinId := CreateItem(pass.coinDefIndex, ORIGIN_PURCHASED, UNACKNOWLEDGED_PURCHASED);
      operations := operations[pass.seasonValue := NewOperation(pass.seasonValue, now)];
      var destroy := DestroyItem(itemId);
      var itemData := ToSingleObject(ItemObject(items[coinId]));
      var operationData := ToSingleObject(OperationObject(operations[pass.seasonValue]));
      result := UseItemResult(destroy, itemData, operationData, CreateObject, CreateObject, NoUpdates, [coinId]);
    }

    /** Saves a use, or takes it back: the items, a season it opened, the version and the id counter. */
    method SaveUse(itemId: uint64, previous: Item, madeId: uint64, changed: Option<Item>, previousVersion: uint64, previousLast: uint32,
                   season: Option<uint32>, ghost m: Memory) returns (ok: bool)
      requires Undone(items, itemId, previous, madeId, changed) == m.items
      requires operations - (if season.Some? then {season.value} else {}) == m.operations
      requires Current() == m.(items := items, operations := operations, version := version,
                               lastHighItemId := lastHighItemId, statsTimeInitiated := statsTimeInitiated)
      requires previousVersion == m.version && previousLast == m.lastHighItemId
      modifies `items, `operations, `version, `lastHighItemId, `file
      ensures ok <==> DiskTakesIt()
      ensures file.image == if ok then ImageOf(Current()) else old(file.image)
      ensures Current() == if ok then old(Current()) else m.(statsTimeInitiated := statsTimeInitiated)
    {
      hide InventoryFile.IsFileOf, ImageOf, Undone;
      ok := WriteToFile();
      if !ok {
        UndoUse(itemId, previous, madeId, changed);
        operations := operations - (if season.Some? then {season.value} else {});
        version, lastHighItemId := previousVersion, previousLast;
      }
    }

    /** Takes a new item away, or puts a changed one back, and restores the item that was used. */
    method UndoUse(itemId: uint64, item: Item, madeId: uint64, changed: Option<Item>)
      modifies `items
      ensures items == Undone(old(items), itemId, item, madeId, changed)
    {
      if changed.None? {
        items := items - {madeId};
      }
      items := Emplaced(items, itemId, item);
      if changed.Some? {
        items := items[madeId := changed.value];
      }
    }

    method ActivateTournamentAccess(itemId: uint64, now: uint32)
      returns (ok: bool, result: UseItemResult, ghost chosen: Option<uint64>)
      requires |items| < USABLE && itemId in items && Keyed(items) && AccessSchema(schema)
      requires items[itemId].defIndex in schema.tournamentAccess
      modifies `items, `lastHighItemId, `version, `statsTimeInitiated, `operations, `file
      ensures Refines(schema, AccountId(), old(Both()), Event(Use(itemId, now), chosen, DiskTakesIt()), ok, Both())
      ensures if ok then UseResult(schema, old(Current()), AccountId(), itemId, chosen, Current(), result) else result == NotUsed
    {
      hide InventoryFile.IsFileOf, Refines, ImageOf, IsAccessResult, Accepts, Performed, TakenBack, Idle, AdvancedBy, NextId, Undone;
      hide AccessUsed;
      ghost var before, disk := Both(), DiskTakesIt();
      var access := schema.tournamentAccess[items[itemId].defIndex];
      var journal := FindByDefinition(access.journalDefIndex);
      var usable := CheckAccess(access, journal);
      chosen := if usable then journal else if access.isToken then Some(if journal.Some? then journal.value else 0) else None;
      AccessPerformed(schema, Current(), AccountId(), itemId, now, chosen);
      if !usable {
        Declines(schema, AccountId(), before, Event(Use(itemId, now), chosen, disk));
        return false, NotUsed, chosen;
      }
      var previousVersion, previousLast, previousAccess := version, lastHighItemId, items[itemId];
      var previousJournal := if journal.Some? then Some(items[journal.value]) else None;
      result := PublishAccess(itemId, access, journal);
      Saves(schema, AccountId(), before, Event(Use(itemId, now), chosen, disk), Current());
      ok := SaveUse(itemId, previousAccess, result.notified[0], previousJournal, previousVersion, previousLast, None, before.memory);
      result := if ok then result else NotUsed;
    }

    /** No journal yet for a pass; a journal with room for a token. */
    method CheckAccess(access: TournamentAccess, journal: Option<uint64>) returns (usable: bool)
      requires journal.Some? ==> IsJournal(schema, items, access, journal.value)
      requires journal.None? ==> !HasDefinition(items, access.journalDefIndex)
      ensures usable <==> CanUseAccess(schema, Current(), access, if journal.Some? then journal.value else 0)
      ensures usable ==> (journal.Some? <==> access.isToken)
    {
      if journal.None? {
        return !access.isToken;
      }
      if !access.isToken {
        return false;
      }
      var attributes := items[journal.value].attributes;
      var i := FindAttribute(attributes, ATTRIBUTE_DROPS_AWARDED_PURCHASED);
      return i == |attributes| || NumberOf(schema, attributes[i]) != 0xffff_ffff;
    }

    /** Creates the journal or adds a token to it, and destroys the pass or token. */
    method PublishAccess(itemId: uint64, access: TournamentAccess, journal: Option<uint64>) returns (result: UseItemResult)
      requires |items| < USABLE && itemId in items && Keyed(items)
      requires journal.Some? ==> journal.value in items && journal.value != itemId
      modifies `items, `lastHighItemId, `version, `statsTimeInitiated
      ensures Current() == AccessUsed(schema, old(Current()), AccountId(), itemId, access, journal)
      ensures IsAccessResult(old(Current()), AccountId(), itemId, journal, Current(), result)
      ensures |result.notified| == 1
      ensures Undone(items, itemId, old(items)[itemId], result.notified[0],
                if journal.Some? then Some(old(items)[journal.value]) else None) == old(items)
    {
      hide NextId, NextVersion, AdvancedBy, JournalStored;
      AdvancedTwice(version);
      var journalId := StoreJournal(access, journal);
      StoredJournalCanGo(schema, old(Current()), AccountId(), itemId, access, journal);
      var destroy := DestroyItem(itemId);
      var itemData := ToSingleObject(ItemObject(items[journalId]));
      result := UseItemResult(destroy, itemData, NoObject, if journal.Some? then UpdateObject else CreateObject,
                              NoChange, NoUpdates, [journalId]);
    }

    method StoreJournal(access: TournamentAccess, journal: Option<uint64>) returns (journalId: uint64)
      requires |items| < USABLE && (journal.Some? ==> journal.value in items)
      modifies `items, `lastHighItemId
      ensures Current() == JournalStored(schema, old(Current()), AccountId(), access, journal)
      ensures journalId == if journal.Some? then journal.value else NextId(old(Current()), AccountId())
    {
      hide NextId, Created;
      if journal.None? {
        journalId := CreateItem(access.journalDefIndex, ORIGIN_PURCHASED, UNACKNOWLEDGED_PURCHASED);
        if access.includedTokens != 0 {
          items := items[journalId := WithAttribute(schema, items[journalId], ATTRIBUTE_DROPS_AWARDED_PURCHASED, access.includedTokens)];
        }
      } else {
        journalId := journal.value;
        var tokens := FirstNumber(schema, items[journalId].attributes, ATTRIBUTE_DROPS_AWARDED_PURCHASED);
        items := items[journalId := WithAttribute(schema, items[journalId], ATTRIBUTE_DROPS_AWARDED_PURCHASED, OneMoreToken(tokens))];
      }
    }

    // ---------------------------------------------------------------- purchases

    method PurchaseItem(defIndex: uint32, now: uint32) returns (id: Option<uint64>, update: seq<SingleObject>)
      requires |items| < USABLE
      modifies `items, `lastHighItemId, `version, `statsTimeInitiated
      ensures id.Some? <==> CanBuy(schema, old(items), defIndex)
      ensures id.None? ==> Current() == old(Current()) && update == []
      ensures id.Some? ==>
        && Current() == Bought(schema, old(Current()), AccountId(), defIndex, now)
        && id.value == NextId(old(Current()), AccountId()) && id.value in items
        && update == BoughtMessages(old(Current()), Current(), AccountId(), defIndex)
    {
      hide NextId, Created, NextVersion, AdvancedBy;
      update := [];
      if defIndex !in schema.creatable {
        return None, update;
      }
      if defIndex == ITEM_STATS_SUBSCRIPTION {
        var found := HasItemDefinition(defIndex);
        if found {
          return None, update;
        }
      }
      AdvancedTwice(version);
      var made := CreateItem(defIndex, ORIGIN_PURCHASED, UNACKNOWLEDGED_PURCHASED);
      var single := ToSingleObject(ItemObject(items[made]));
      update := [single];
      if defIndex == ITEM_STATS_SUBSCRIPTION {
        statsTimeInitiated := now;
        single := ToSingleObject(SubscriptionObject(now));
        update := update + [single];
      }
      return Some(made), update;
    }

    method RemoveItem(itemId: uint64) returns (removed: bool, response: SingleObject)
      requires Keyed(items)
      modifies `items, `statsTimeInitiated, `version
      ensures removed <==> itemId in old(items)
      ensures Current() == if removed then Destroying(old(Current()), itemId) else old(Current())
      ensures response == if removed then DestroyMessage(version, itemId) else NoObject
    {
      if itemId !in items {
        return false, NoObject;
      }
      response := DestroyItem(itemId);
      removed := true;
    }

    // -------------------------------------------------------------- storage units

    /** What is published of a storage operation that went through. */
    ghost predicate IsTransaction(storageId: uint64, itemId: uint64, before: uint64, itemData: SingleObject, containerData: SingleObject)
      reads this
    {
      && storageId in items && itemId in items
      && itemData == SingleObject(AdvancedBy(before, 1), ItemObject(items[itemId]))
      && containerData == SingleObject(AdvancedBy(before, 2), ItemObject(items[storageId]))
      && version == AdvancedBy(before, 2)
    }

    method DepositItemToStorage(storageId: uint64, itemId: uint64, now: uint32)
      returns (outcome: Storage.StorageResult, itemData: SingleObject, containerData: SingleObject)
      modifies `items, `version
      ensures outcome == Storage.DepositResult(schema, old(items), storageId, itemId, now)
      ensures items == Storage.Step(schema, old(items), Storage.Deposit(storageId, itemId, now))
      ensures if outcome.Success? then IsTransaction(storageId, itemId, old(version), itemData, containerData)
        else version == old(version) && itemData == containerData == NoObject
    {
      hide Storage.Counted, Storage.Embedded, Storage.Reference, NextVersion, AdvancedBy;
      itemData, containerData := NoObject, NoObject;
      if storageId == itemId {
        return Storage.InvalidContainerType, itemData, containerData;
      }
      if storageId !in items {
        return Storage.ContainerNotFound, itemData, containerData;
      }
      if itemId !in items {
        return Storage.ItemNotFound, itemData, containerData;
      }
      if items[storageId].defIndex != ITEM_CASKET || items[itemId].defIndex == ITEM_CASKET {
        return Storage.InvalidContainerType, itemData, containerData;
      }
      var reference := StorageCheck.StorageReference(schema, items[itemId]);
      if reference.Some? {
        return Storage.InternalError, itemData, containerData;
      }
      var counted, casket := StorageCheck.ModifyStorageCounter(schema, items[storageId], 1, now);
      if !counted {
        return Storage.CapacityExceeded, itemData, containerData;
      }
      var stored := StorageCheck.EmbedStorageReference(schema, items[itemId], storageId);
      items := items[storageId := casket][itemId := stored];
      AdvancedTwice(version);
      itemData := ToSingleObject(ItemObject(items[itemId]));
      containerData := ToSingleObject(ItemObject(items[storageId]));
      outcome := Storage.Success;
    }

    method WithdrawItemFromStorage(storageId: uint64, itemId: uint64, now: uint32)
      returns (outcome: Storage.StorageResult, itemData: SingleObject, containerData: SingleObject)
      modifies `items, `version
      ensures outcome == Storage.WithdrawResult(schema, old(items), storageId, itemId, now)
      ensures items == Storage.Step(schema, old(items), Storage.Withdraw(storageId, itemId, now))
      ensures if outcome.Success? then IsTransaction(storageId, itemId, old(version), itemData, containerData)
        else version == old(version) && itemData == containerData == NoObject
    {
      hide Storage.Counted, Storage.Stripped, Storage.Reference, NextVersion, AdvancedBy;
      itemData, containerData := NoObject, NoObject;
      if storageId !in items {
        return Storage.ContainerNotFound, itemData, containerData;
      }
      if itemId !in items {
        return Storage.ItemNotFound, itemData, containerData;
      }
      if items[storageId].defIndex != ITEM_CASKET {
        return Storage.InvalidContainerType, itemData, containerData;
      }
      var storedIn := StorageCheck.StorageReference(schema, items[itemId]);
      if storedIn != Some(storageId) {
        return Storage.ItemNotFound, itemData, containerData;
      }
      var counted, casket := StorageCheck.ModifyStorageCounter(schema, items[storageId], -1, now);
      if !counted {
        return Storage.InternalError, itemData, containerData;
      }
      items := items[storageId := casket];
      var attributes := StorageCheck.StripStorageReference(items[itemId].attributes);
      items := items[itemId := items[itemId].(attributes := attributes)];
      AdvancedTwice(version);
      itemData := ToSingleObject(ItemObject(items[itemId]));
      containerData := ToSingleObject(ItemObject(items[storageId]));
      outcome := Storage.Success;
    }

    /** NameItem without a name tag: the casket's own naming action. */
    method NameCasket(itemId: uint64, name: Text, now: uint32) returns (ok: bool, update: SingleObject)
      modifies `items, `version
      ensures ok <==>
        (itemId in old(items) && old(items)[itemId].defIndex == ITEM_CASKET
         && Storage.CanPrepare(schema, old(items)[itemId].attributes))
      ensures items == Storage.Step(schema, old(items), Storage.NameCasket(itemId, name, now))
      ensures if ok then itemId in items && update == SingleObject(version, ItemObject(items[itemId])) && version == NextVersion(old(version))
        else update == NoObject && version == old(version)
    {
      hide Storage.Prepared, Storage.PartlyPrepared, Storage.Named, Storage.CanPrepare, NextVersion;
      if itemId !in items || items[itemId].defIndex != ITEM_CASKET {
        return false, NoObject;
      }
      var attributes;
      ok, attributes := PrepareCasketForNaming(items[itemId].attributes, now);
      if !ok {
        items := items[itemId := items[itemId].(attributes := attributes)];
        return false, NoObject;
      }
      items := items[itemId := items[itemId].(attributes := Storage.Named(schema, attributes, name))];
      update := ToSingleObject(ItemObject(items[itemId]));
    }

    /** Fails halfway when the schema does not have one of the attributes. */
    method PrepareCasketForNaming(attributes: seq<Attribute>, now: uint32) returns (ok: bool, prepared: seq<Attribute>)
      ensures ok <==> Storage.CanPrepare(schema, attributes)
      ensures prepared == if ok then Storage.Prepared(schema, attributes, now) else Storage.PartlyPrepared(schema, attributes)
    {
      prepared := attributes;
      if FindAttribute(prepared, ATTRIBUTE_CASKET_ITEMS_COUNT) == |prepared| {
        prepared := prepared + [WithNumber(schema, Attribute(ATTRIBUTE_CASKET_ITEMS_COUNT, Unset), 0)];
        if ATTRIBUTE_CASKET_ITEMS_COUNT !in schema.attributeTypes {
          return false, prepared;
        }
      }
      var date := FindAttribute(prepared, ATTRIBUTE_CASKET_MODIFICATION_DATE);
      if date == |prepared| {
        prepared := prepared + [Attribute(ATTRIBUTE_CASKET_MODIFICATION_DATE, Unset)];
      }
      prepared := prepared[date := WithNumber(schema, prepared[date], now)];
      ok := ATTRIBUTE_CASKET_MODIFICATION_DATE in schema.attributeTypes;
    }

    // ------------------------------------------------------------------ trade-ups

    /** False leaves everything as it was; true has made the exchange that was drawn. */
    method TradeUp(ids: seq<uint64>)
      returns (ok: bool, destroyed: seq<SingleObject>, created: SingleObject, recipe: int, draw: Draw)
      requires |items| < USABLE && Keyed(items)
      modifies `items, `lastHighItemId, `version, `statsTimeInitiated
      ensures !ok ==> Current() == old(Current()) && destroyed == [] && created == NoObject
      ensures !ok ==> !Certain(schema, old(items), ids)
      ensures ok ==>
        && Decided(schema, old(items), ids, draw)
        && Current() == Traded(old(Current()), AccountId(), DrawnOutput(schema, draw), ids)
        && recipe == RecipeIndex(draw.contract)
      ensures ok ==>
        && destroyed == DestroyMessages(old(version), ids)
        && NextId(old(Current()), AccountId()) in items
        && created == SingleObject(version, ItemObject(items[NextId(old(Current()), AccountId())]))
    {
      hide Decided, Certain, Traded, NextId, DestroyMessages;
      draw := DrawTrade(schema, items, ids);
      if draw.NoDraw? {
        return false, [], NoObject, 0, draw;
      }
      DecidedMeaning(schema, items, ids, draw);
      ok := true;
      destroyed, created := Exchange(ids, DrawnOutput(schema, draw));
      recipe := RecipeIndex(draw.contract);
    }

    /** Allocates the output, destroys the inputs and publishes both. */
    method Exchange(ids: seq<uint64>, output: Item) returns (destroyed: seq<SingleObject>, created: SingleObject)
      requires |items| < USABLE && Keyed(items) && Distinct(ids) && forall id <- ids :: id in items
      modifies `items, `lastHighItemId, `version, `statsTimeInitiated
      ensures Current() == Traded(old(Current()), AccountId(), output, ids)
      ensures destroyed == DestroyMessages(old(version), ids)
      ensures NextId(old(Current()), AccountId()) in items
      ensures created == SingleObject(version, ItemObject(items[NextId(old(Current()), AccountId())]))
    {
      hide NextId, Adding, NextVersion, RemoveAll, DestroyMessages;
      AddingItems(Current(), AccountId(), output);
      var newId := CreateItemFrom(output);
      RemoveAllRemoves(Current(), ids);
      destroyed := DestroyAll(ids);
      created := ToSingleObject(ItemObject(items[newId]));
    }

    /** A copy of an item under an id of its own. */
    method CreateItemFrom(item: Item) returns (id: uint64)
      requires |items| < USABLE
      modifies `items, `lastHighItemId
      ensures id == NextId(old(Current()), AccountId())
      ensures Current() == Adding(old(Current()), AccountId(), item)
    {
      hide NextHigh;
      id := AllocateItem(0);
      items := items[id := item.(id := id, accountId := AccountId())];
    }

    method DestroyAll(ids: seq<uint64>) returns (destroyed: seq<SingleObject>)
      requires Keyed(items) && Distinct(ids) && forall id <- ids :: id in items
      modifies `items, `version, `statsTimeInitiated
      ensures Current() == RemoveAll(old(Current()), ids)
      ensures destroyed == DestroyMessages(old(version), ids)
    {
      hide NextVersion, RemoveAll, DestroyMessages, Destroying, DestroyMessage, AdvancedBy;
      ghost var before := Current();
      destroyed := [];
      RemoveNothing(before);
      for i := 0 to |ids|
        invariant Current() == RemoveAll(before, ids[..i])
        invariant destroyed == DestroyMessages(before.version, ids[..i])
      {
        RemoveNext(before, ids, i);
        var message := DestroyItem(ids[i]);
        destroyed := destroyed + [message];
      }
      assert ids[..|ids|] == ids;
    }
  }

  lemma RejectedIsFurther(ids: set<uint64>, accountId: uint32, high: uint32, target: uint32)
    requires FirstFree(ids, accountId, high, target) && !Free(ids, accountId, high)
    ensures FirstFree(ids, accountId, Successor(high), target)
    ensures Distance(Successor(high), target) < Distance(high, target)
  {
    StepCloser(high, target);
    forall h: uint32 | Distance(Successor(high), h) < Distance(Successor(high), target)
      ensures !Free(ids, accountId, h)
    {
      if h != high {
        StepCloser(high, h);
      }
    }
  }

  lemma AcceptedIsTarget(ids: set<uint64>, accountId: uint32, high: uint32, target: uint32)
    requires FirstFree(ids, accountId, high, target) && Free(ids, accountId, high)
    ensures high == target
  {
    assert Distance(high, high) == 0;
  }

  lemma PlannedOrNot(items: map<uint64, Item>, medals: seq<uint32>, plan: Option<Plan>, expected: uint32)
    requires match plan
      case None => forall p :: !IsPlan(items, medals, p)
      case Some(p) => IsPlan(items, medals, p)
    ensures plan.Some? && plan.value.upgrade.Some? ==> plan.value.upgrade.value in items
    ensures match plan
      case None => forall c :: !IsPlan(items, medals, Plan(expected, c))
      case Some(p) => p.defIndex != expected ==> forall c :: !IsPlan(items, medals, Plan(expected, c))
  {
    if plan.Some? {
      forall c | IsPlan(items, medals, Plan(expected, c))
        ensures plan.value.defIndex == expected
      {
        PlansAgree(items, medals, plan.value, Plan(expected, c));
      }
    }
  }

  lemma ClaimPerformed(schema: Schema, m: Memory, accountId: uint32, year: uint32, d: uint32)
    requires |m.items| < USABLE
    ensures var op := ClaimMedal(year, d);
      && TakenBack(schema, m, op) == m && !Idle(m, op)
      && forall c :: (Accepts(schema, m, op, c) <==>
                        m.playerLevel >= MAX_PLAYER_LEVEL && IsPlan(m.items, Medals(schema, year), Plan(d, c)))
           && (Accepts(schema, m, op, c) ==>
                 && (c.Some? ==> c.value in m.items)
                 && Performed(schema, m, accountId, op, c) == Claimed(schema, m, accountId, d, c))
  {
  }

  lemma PassPerformed(schema: Schema, m: Memory, accountId: uint32, id: uint64, now: uint32)
    requires |m.items| < USABLE && id in m.items
    requires m.items[id].defIndex in schema.seasonPasses && m.items[id].defIndex !in schema.tournamentAccess
    ensures var op, pass := Use(id, now), schema.seasonPasses[m.items[id].defIndex];
      var after := PassUsed(schema, m, accountId, id, pass, now);
      && !Idle(m, op)
      && (Accepts(schema, m, op, None) <==> CanUsePass(m, pass))
      && (Accepts(schema, m, op, None) ==> Performed(schema, m, accountId, op, None) == after)
      && TakenBack(schema, m, op) == m.(statsTimeInitiated := after.statsTimeInitiated)
      && after == m.(items := after.items, operations := after.operations, version := after.version,
                     lastHighItemId := after.lastHighItemId, statsTimeInitiated := after.statsTimeInitiated)
  {
    NewIdIsFresh(m, accountId);
  }

  lemma AccessPerformed(schema: Schema, m: Memory, accountId: uint32, id: uint64, now: uint32, c: Option<uint64>)
    requires |m.items| < USABLE && id in m.items && AccessSchema(schema)
    requires m.items[id].defIndex in schema.tournamentAccess
    ensures var op, access := Use(id, now), schema.tournamentAccess[m.items[id].defIndex];
      && !Idle(m, op)
      && (Accepts(schema, m, op, c) <==>
            ((c.Some? <==> access.isToken) && CanUseAccess(schema, m, access, if c.Some? then c.value else 0)))
      && (Accepts(schema, m, op, c) ==>
            var after := AccessUsed(schema, m, accountId, id, access, c);
            && (c.Some? ==> c.value != id)
            && Performed(schema, m, accountId, op, c) == after
            && TakenBack(schema, m, op) == m.(statsTimeInitiated := after.statsTimeInitiated)
            && after == m.(items := after.items, version := after.version,
                           lastHighItemId := after.lastHighItemId, statsTimeInitiated := after.statsTimeInitiated))
  {
    if Accepts(schema, m, Use(id, now), c) {
      StoredJournalCanGo(schema, m, accountId, id, schema.tournamentAccess[m.items[id].defIndex], c);
    }
  }

  lemma ModifyPerformed(schema: Schema, m: Memory, accountId: uint32, id: uint64, d: uint32, n: uint32)
    requires |m.items| < USABLE
    ensures var op := Op.ModifyAttribute(id, d, n);
      && TakenBack(schema, m, op) == m && !Idle(m, op)
      && (Accepts(schema, m, op, None) <==>
            (id in m.items && d == ATTRIBUTE_STICKER_ID_0
             && m.items[id].defIndex in schema.journals && d in schema.attributeTypes))
      && (Accepts(schema, m, op, None) ==>
            (Performed(schema, m, accountId, op, None) ==
             m.(items := m.items[id := m.items[id].(attributes := SetOrAdd(schema, m.items[id].attributes, d, n))],
                version := NextVersion(m.version))))
  {
  }

  function WithKills(schema: Schema, item: Item, i: nat, count: uint32): Item
    requires i < |item.attributes|
    ensures |WithKills(schema, item, i, count).attributes| == |item.attributes|
  {
    item.(attributes := item.attributes[i := WithNumber(schema, item.attributes[i], count)])
  }

  lemma KillsPerformed(schema: Schema, m: Memory, accountId: uint32, id: uint64, amount: uint32)
    requires |m.items| < USABLE
    ensures var op := AddKills(id, amount);
      && !Idle(m, op)
      && (Accepts(schema, m, op, None) <==> (id in m.items && HasAttribute(m.items[id].attributes, ATTRIBUTE_KILL_EATER)))
      && (Accepts(schema, m, op, None) ==>
            var i := FindAttribute(m.items[id].attributes, ATTRIBUTE_KILL_EATER);
            && i < |m.items[id].attributes|
            && var n := NumberOf(schema, m.items[id].attributes[i]);
               var item := WithKills(schema, m.items[id], i, (n + amount) % WORD);
               && Performed(schema, m, accountId, op, None) == m.(items := m.items[id := item], version := NextVersion(m.version))
               && TakenBack(schema, m, op) == m.(items := m.items[id := item][id := WithKills(schema, item, i, n)]))
  {
    if id in m.items && HasAttribute(m.items[id].attributes, ATTRIBUTE_KILL_EATER) {
      var a := m.items[id].attributes;
      var i := FindAttribute(a, ATTRIBUTE_KILL_EATER);
      var n := NumberOf(schema, a[i]);
      var b := a[i := WithNumber(schema, a[i], (n + amount) % WORD)];
      assert b[i := WithNumber(schema, b[i], n)] == a[i := WithNumber(schema, a[i], n)];
    }
  }

  function UnsetWith(attributes: seq<Attribute>, defIndex: uint32, previous: Option<Value>): seq<Attribute> {
    var i := FindAttribute(attributes, defIndex);
    if i == |attributes| then attributes
    else if previous.Some? then attributes[i := attributes[i].(value := previous.value)]
    else attributes[..|attributes| - 1]
  }

  lemma {:induction false} SetOrAddFinds(schema: Schema, attributes: seq<Attribute>, defIndex: uint32, n: uint32)
    ensures FindAttribute(SetOrAdd(schema, attributes, defIndex, n), defIndex) == FindAttribute(attributes, defIndex)
    ensures |SetOrAdd(schema, attributes, defIndex, n)| > FindAttribute(attributes, defIndex)
  {
    var i := FindAttribute(attributes, defIndex);
    var changed := SetOrAdd(schema, attributes, defIndex, n);
    var j := FindAttribute(changed, defIndex);
    assert changed[i].defIndex == defIndex;
    assert j <= i;
    assert forall k :: 0 <= k < i ==> changed[k].defIndex != defIndex;
  }

  lemma JoinDeltas(objects: seq<SharedObject>, l: Loadout, accountId: uint32, def: uint32, c: uint32, s: uint32, swap: bool)
    ensures var (room, moved) := MakeRoom(l, def, c, s, swap);
      var cleared := Clearing(room.after.defaults, OfDefinition(def, c));
      var target := [DefaultEquipObject(Target(room.after.defaults, accountId, def, c, s))];
      objects + EquipDefault(l, accountId, def, c, s, swap).delta
        == objects + room.delta + cleared + Moved(moved) + target
  {
    hide MakeRoom, Clearing, Target, Moved;
    var (room, moved) := MakeRoom(l, def, c, s, swap);
    var cleared := Clearing(room.after.defaults, OfDefinition(def, c));
    var target := [DefaultEquipObject(Target(room.after.defaults, accountId, def, c, s))];
    assert objects + (room.delta + cleared + Moved(moved) + target)
      == objects + room.delta + cleared + Moved(moved) + target;
  }

  lemma {:induction false} DroppedNext(es: seq<DefaultEquip>, i: nat, w: Which)
    requires i < |es|
    ensures Without(es[..i + 1], w) == Without(es[..i], w) + if Picks(w, es[i]) then [] else [es[i]]
    ensures Clearing(es[..i + 1], w) == Clearing(es[..i], w) + if Picks(w, es[i]) then [Cleared(es[i])] else []
    ensures LastPicked(es[..i + 1], w) == if Picks(w, es[i]) then Some(es[i]) else LastPicked(es[..i], w)
    ensures (exists d <- es[..i + 1] :: Picks(w, d)) <==> Picks(w, es[i]) || exists d <- es[..i] :: Picks(w, d)
  {
    assert es[..i + 1] == es[..i] + [es[i]];
    DroppedJoin(es[..i], es[i], w);
    assert es[..i + 1][..i] == es[..i];
    assert es[i] in es[..i + 1];
  }

  lemma {:induction false} DroppedJoin(es: seq<DefaultEquip>, e: DefaultEquip, w: Which)
    ensures Without(es + [e], w) == Without(es, w) + if Picks(w, e) then [] else [e]
    ensures Clearing(es + [e], w) == Clearing(es, w) + if Picks(w, e) then [Cleared(e)] else []
  {
    hide Picks, Cleared;
    WithoutJoin(es, e, w);
    ClearingJoin(es, e, w);
  }

  lemma {:induction false} WithoutJoin(es: seq<DefaultEquip>, e: DefaultEquip, w: Which)
    ensures Without(es + [e], w) == Without(es, w) + if Picks(w, e) then [] else [e]
  {
    hide Picks;
    if es == [] {
      assert es + [e] == [e] && [e][1..] == [];
    } else {
      assert (es + [e])[1..] == es[1..] + [e];
      WithoutJoin(es[1..], e, w);
    }
  }

  lemma {:induction false} ClearingJoin(es: seq<DefaultEquip>, e: DefaultEquip, w: Which)
    ensures Clearing(es + [e], w) == Clearing(es, w) + if Picks(w, e) then [Cleared(e)] else []
  {
    hide Picks, Cleared;
    TailOfJoin(es, [e]);
    if es == [] {
      assert [e][1..] == [];
    } else {
      ClearingJoin(es[1..], e, w);
      AppendAssociates(if Picks(w, es[0]) then [Cleared(es[0])] else [], Clearing(es[1..], w), if Picks(w, e) then [Cleared(e)] else []);
    }
  }

  /** The item published when the slot's items have been walked except those in `todo`. */
  ghost function TakenOutObjects(l: Loadout, c: uint32, s: uint32, todo: set<uint64>): seq<SharedObject> {
    match Occupant(l, c, s)
    case None => []
    case Some(id) => if id in todo then [] else [ItemObject(TakenOut(l.items[id], c, s))]
  }

  lemma TakenOutNext(l: Loadout, c: uint32, s: uint32, todo: set<uint64>, id: uint64)
    requires id in l.items && id in todo
    ensures Valid(l) ==>
      (TakenOutObjects(l, c, s, todo - {id}) == TakenOutObjects(l, c, s, todo)
       + if Equipped(c, s) in l.items[id].equipped then [ItemObject(TakenOut(l.items[id], c, s))] else [])
    ensures Equipped(c, s) !in l.items[id].equipped ==> TakenOut(l.items[id], c, s) == l.items[id]
  {
    WithoutSlotMembers(l.items[id].equipped, Equipped(c, s));
    var o := Occupant(l, c, s);
    assert Occupies(l, id, c, s) <==> Equipped(c, s) in l.items[id].equipped;
    if Valid(l) && Occupies(l, id, c, s) {
      assert o.Some? && Equipped(c, s) in l.items[o.value].equipped;
    }
  }

  lemma TakenOutAll(l: Loadout, c: uint32, s: uint32)
    ensures VacateDelta(l, c, s) == TakenOutObjects(l, c, s, {}) + Clearing(l.defaults, InSlot(c, s))
  {
  }

  lemma VacatedDefaults(l: Loadout, c: uint32, s: uint32)
    ensures Vacated(l, c, s) == Loadout(Vacated(l, c, s).items, Without(l.defaults, InSlot(c, s)))
  {
  }

  lemma OccupantIsFound(l: Loadout, c: uint32, s: uint32, found: Option<uint64>)
    requires match found
      case None => forall id <- l.items :: SlotForClass(l.items[id].equipped, c) != Some(s)
      case Some(id) => id in l.items && SlotForClass(l.items[id].equipped, c) == Some(s)
    ensures Valid(l) ==> found == Occupant(l, c, s)
  {
    var o := Occupant(l, c, s);
    if o.Some? {
      SlotForClassMeaning(l.items[o.value].equipped, c);
    }
    if found.Some? {
      SlotForClassMeaning(l.items[found.value].equipped, c);
      assert Occupies(l, found.value, c, s);
    }
    if Valid(l) && o.Some? && found.Some? {
      assert Equipped(c, s) in l.items[o.value].equipped && Equipped(c, s) in l.items[found.value].equipped;
    }
  }
}
