/**
 What the coordinator publishes after each change of the inventory, and that it keeps the
 game and the game server up to date (gc_client.cpp, the handlers).
 */
module InventoryPublishing {
  import opened Prelude
  import opened Items
  import opened Loadout
  import opened LoadoutTheorems
  import opened ItemSchema
  import opened ItemIds
  import opened InventoryState
  import opened ServerView
  import opened InventoryRuns
  import Persisted
  import Purchases
  import TradeUp
  import Storage
  import Sprays

  type Change = InventoryRuns.Change

  // -------------------------------------------------------------- the handlers

  function ClaimMessages(claim: Persisted.PrestigeMedalClaim): seq<Message> {
    (if claim.created then CreateMessages([claim.itemData]) else UpdateMessage(claim.itemData)) + UpdateMessage(claim.personaData)
  }

  function ChangeMessages(change: Persisted.UseItemChange, so: SingleObject): seq<Message> {
    match change
    case NoChange => []
    case CreateObject => CreateMessages([so])
    case UpdateObject => UpdateMessage(so)
  }

  function UseMessages(r: Persisted.UseItemResult): seq<Message> {
    ServerView.DestroyMessages([r.destroy]) + ChangeMessages(r.itemChange, r.itemData) + ChangeMessages(r.operationChange, r.operationData)
    + if r.updateMultiple.objects == [] then [] else [UpdateMultiple(r.updateMultiple)]
  }

  /** The inputs, the output, and a text that tells of it. */
  function TradeMessages(destroyed: seq<SingleObject>, created: SingleObject): seq<Message> {
    ServerView.DestroyMessages(destroyed) + (CreateMessages([created]) + [Unrelated])
  }

  /** The item a storage operation moves. */
  function Moved(op: Storage.Op): uint64 {
    if op.NameCasket? then op.casketId else op.itemId
  }

  /** The casket. */
  function Casket(op: Storage.Op): uint64 {
    if op.NameCasket? then op.casketId else op.storageId
  }

  function StorageMessages(schema: Schema, m: Memory, op: Storage.Op): seq<Message> {
    var items, told := Storage.Step(schema, m.items, op), Storage.Told(schema, m.items, op);
    if told == 0 || Moved(op) !in items || Casket(op) !in items then []
    else if told == 1 then [Update(NextVersion(m.version), ItemObject(items[Casket(op)]))]
    else [Update(AdvancedBy(m.version, 1), ItemObject(items[Moved(op)])), Update(AdvancedBy(m.version, 2), ItemObject(items[Casket(op)]))]
  }

  ghost predicate PersistedMessages(schema: Schema, m: Memory, accountId: uint32, e: Persisted.Event, after: Memory, ms: seq<Message>)
    requires |m.items| < USABLE
  {
    if !Persisted.Reports(schema, m, e.op, e.chosen, e.diskTakesIt) then ms == []
    else
      match e.op
      case ClaimMedal(_, _) =>
        exists claim :: Persisted.IsClaim(schema, m, accountId, e.chosen, after, claim) && ms == ClaimMessages(claim)
      case Use(id, _) =>
        exists r :: Persisted.UseResult(schema, m, accountId, id, e.chosen, after, r) && ms == UseMessages(r)
      case SelectMission(season, _) =>
        ms == if !Persisted.Idle(m, e.op) && season in after.operations then [Update(after.version, OperationObject(after.operations[season]))] else []
      case ModifyAttribute(id, _, _) => id in after.items && ms == [Update(after.version, ItemObject(after.items[id]))]
      case AddKills(id, _) => id in after.items && ms == [Update(after.version, ItemObject(after.items[id]))]
      case Favorite(_, _) => ms == []
  }

  /** What the handlers publish of a change, to the game and to the game server. */
  ghost predicate Publishes(schema: Schema, m: Memory, accountId: uint32, c: Change, ms: seq<Message>)
    requires Possible(schema, m, c)
  {
    var after := After(schema, m, accountId, c);
    match c
    case Equips(r) =>
      EquipMessage(LoadoutOf(m), accountId, r, ms)
    case Persists(e) => PersistedMessages(schema, m, accountId, e, after, ms)
    case Unseals(id) => exists r :: Sprays.IsSprayResult(m, accountId, id, r) && ms == UseMessages(r)
    case Orders(defs, now) =>
      var p := Purchases.BuyAll(schema, m, accountId, defs, now);
      ms == if p.ok then CreateMessages(p.messages) else []
    case Removes(id) => ms == [Destroy(after.version, ItemObject(EmptyItem(id, 0)))]
    case Trades(ids, _) =>
      && NextId(m, accountId) in after.items
      && ms == TradeMessages(TradeUp.DestroyMessages(m.version, ids), SingleObject(after.version, ItemObject(after.items[NextId(m, accountId)])))
    case Stores(op) => ms == StorageMessages(schema, m, op)
  }

  // ------------------------------------------------------- when all is told

  /**
   The changes nobody hears of: a kill counter that a failed save rewrites, attributes that
   a naming adds before it fails, and the number of uses that a new spray is given after
   it has been published.
   */
  predicate Heard(schema: Schema, m: Memory, c: Change) {
    match c
    case Persists(e) => e.op.AddKills? ==> Persisted.Recoverable(schema, m, e)
    case Unseals(_) => false
    case Stores(op) => op.NameCasket? ==> NamedOrAsBefore(schema, m.items, op.casketId)
    case _ => true
  }

  /** The casket can be named, or it has both of the attributes that naming adds. */
  predicate NamedOrAsBefore(schema: Schema, items: map<uint64, Item>, id: uint64) {
    id in items && items[id].defIndex == ITEM_CASKET && !Storage.CanPrepare(schema, items[id].attributes) ==>
      && Persisted.HasAttribute(items[id].attributes, ATTRIBUTE_CASKET_ITEMS_COUNT)
      && Persisted.HasAttribute(items[id].attributes, ATTRIBUTE_CASKET_MODIFICATION_DATE)
  }

  function Shown(m: Memory): Cache {
    Snapshot(LoadoutOf(m))
  }

  /** The game's cache of the inventory after the messages is the inventory after the change. */
  ghost predicate Reaches(schema: Schema, m: Memory, accountId: uint32, c: Change, ms: seq<Message>)
    requires Possible(schema, m, c)
  {
    ReceiveAll(Shown(m), ms) == Shown(After(schema, m, accountId, c))
  }

  // ------------------------------------------------------ what the handlers know

  /** Everything that is to be sent is there. */
  predicate Presentable(r: Persisted.UseItemResult) {
    && r.destroy.SingleObject?
    && (!r.itemChange.NoChange? ==> r.itemData.SingleObject?)
    && (!r.operationChange.NoChange? ==> r.operationData.SingleObject?)
  }

  lemma UsedIsPresentable(schema: Schema, m: Memory, accountId: uint32, id: uint64, chosen: Option<uint64>, after: Memory, r: Persisted.UseItemResult)
    requires |m.items| < USABLE && Persisted.UseResult(schema, m, accountId, id, chosen, after, r)
    ensures Presentable(r)
  {
    hide NextId, AdvancedBy;
  }

  lemma SprayIsChange(schema: Schema, m: Memory, accountId: uint32, id: uint64, r: Persisted.UseItemResult)
    requires |m.items| < USABLE && Sprays.IsSpray(schema, m.items, id) && Sprays.IsSprayResult(m, accountId, id, r)
    ensures var c := InventoryRuns.Unseals(id);
      && Possible(schema, m, c) && After(schema, m, accountId, c) == Sprays.Sprayed(schema, m, accountId, id)
      && Publishes(schema, m, accountId, c, UseMessages(r)) && Presentable(r)
  {
    hide Sprays.SprayEquip, Sprays.Sprayed, NextId, UseMessages;
  }

  lemma ClaimIsPresentable(schema: Schema, m: Memory, accountId: uint32, upgrade: Option<uint64>, after: Memory, claim: Persisted.PrestigeMedalClaim)
    requires |m.items| < USABLE && Persisted.IsClaim(schema, m, accountId, upgrade, after, claim)
    ensures claim.itemData.SingleObject? && claim.personaData.SingleObject?
  {
    hide NextId, NextVersion;
  }

  lemma TransactionMessages(schema: Schema, m: Memory, op: Storage.Op, itemData: SingleObject, containerData: SingleObject)
    requires !op.NameCasket?
    requires var items := Storage.Step(schema, m.items, op);
      if Storage.Told(schema, m.items, op) == 0 then itemData == containerData == NoObject
      else
        && Moved(op) in items && Casket(op) in items
        && itemData == SingleObject(AdvancedBy(m.version, 1), ItemObject(items[Moved(op)]))
        && containerData == SingleObject(AdvancedBy(m.version, 2), ItemObject(items[Casket(op)]))
    ensures UpdateMessage(itemData) + UpdateMessage(containerData) == StorageMessages(schema, m, op)
  {
    hide Storage.Step, AdvancedBy;
  }

  lemma {:induction false} AllDestroyed(version: uint64, ids: seq<uint64>)
    ensures forall d <- TradeUp.DestroyMessages(version, ids) :: d.SingleObject?
    decreases |ids|
  {
    hide AdvancedBy;
    if ids != [] {
      AllDestroyed(version, ids[..|ids| - 1]);
    }
  }

  /** The messages of an attempt are those of a change, whatever the file held. */
  lemma AttemptIsChange(schema: Schema, s: Persisted.Machine, accountId: uint32, e: Persisted.Event, ok: bool, s': Persisted.Machine, ms: seq<Message>)
    requires |s.memory.items| < USABLE && Persisted.Refines(schema, accountId, s, e, ok, s')
    requires PersistedMessages(schema, s.memory, accountId, e, s'.memory, ms)
    ensures var c := InventoryRuns.Persists(e);
      && Possible(schema, s.memory, c) && s'.memory == After(schema, s.memory, accountId, c)
      && Publishes(schema, s.memory, accountId, c, ms)
  {
    hide Persisted.Accepts, Persisted.Performed, Persisted.Idle, Persisted.TakenBack, PersistedMessages, ImageOf;
  }

  // ------------------------------------------------------------- single messages

  lemma ReceiveItem(cache: Cache, version: uint64, item: Item)
    ensures Receive(cache, Create(version, ItemObject(item))) == cache.(items := cache.items[item.id := item])
    ensures Receive(cache, Update(version, ItemObject(item))) == cache.(items := cache.items[item.id := item])
    ensures Receive(cache, Destroy(version, ItemObject(item))) == cache.(items := cache.items - {item.id})
  {
  }

  lemma ReceiveOther(cache: Cache, version: uint64, so: SharedObject)
    requires so.OperationObject? || so.PersonaObject? || so.SubscriptionObject?
    ensures Receive(cache, Create(version, so)) == Receive(cache, Update(version, so)) == cache
  {
  }

  lemma OneCreated(so: SingleObject)
    ensures CreateMessages([so]) == if so.SingleObject? then [Create(so.version, so.so)] else []
    ensures ServerView.DestroyMessages([so]) == if so.SingleObject? then [Destroy(so.version, so.so)] else []
  {
    assert [so][..0] == [];
  }

  lemma ReceiveTwo(cache: Cache, a: Message, b: Message)
    ensures ReceiveAll(cache, [a, b]) == Receive(Receive(cache, a), b)
  {
    hide Receive, ReceiveAll;
    assert [a, b] == [a] + [b];
    ReceiveJoin(cache, [a], [b]);
    ReceiveOne(cache, a);
    ReceiveOne(Receive(cache, a), b);
  }

  // ------------------------------------------------------------- each operation

  ghost predicate EquipMessage(l: Loadout, accountId: uint32, r: Request, ms: seq<Message>) {
    if !Changes(l, r) then ms == []
    else |ms| == 1 && ms[0].UpdateMultiple? && ms[0].update.objects == Equip(l, accountId, r).delta
  }

  lemma EquipReaches(l: Loadout, accountId: uint32, r: Request, ms: seq<Message>)
    requires Valid(l) && EquipMessage(l, accountId, r, ms)
    ensures ReceiveAll(Snapshot(l), ms) == Snapshot(Equip(l, accountId, r).after)
  {
    hide Equip, Valid, Changes, Snapshot;
    if Changes(l, r) {
      DeltaReplaysToSnapshot(l, accountId, r);
      ReceiveOne(Snapshot(l), ms[0]);
    } else {
      UnchangedEquip(l, accountId, r);
    }
  }

  /** What is not reported as a change is none. */
  lemma UnchangedEquip(l: Loadout, accountId: uint32, r: Request)
    requires Valid(l) && !Changes(l, r)
    ensures Equip(l, accountId, r).after == l
  {
    if r.slotId == SLOT_UNEQUIP && IsDefaultItemId(r.itemId) {
      NonePicked(l.defaults, OfDefinition(DefaultDefIndex(r.itemId), r.classId));
    }
  }

  // ................ persisted

  lemma ClaimReaches(schema: Schema, m: Memory, accountId: uint32, d: uint32, upgrade: Option<uint64>, claim: Persisted.PrestigeMedalClaim)
    requires |m.items| < USABLE && Keyed(m.items) && (upgrade.Some? ==> upgrade.value in m.items)
    requires Persisted.IsClaim(schema, m, accountId, upgrade, Persisted.Claimed(schema, m, accountId, d, upgrade), claim)
    ensures ReceiveAll(Shown(m), ClaimMessages(claim)) == Shown(Persisted.Claimed(schema, m, accountId, d, upgrade))
  {
    hide Adding, NextId, NextVersion, AdvancedBy, Receive, ReceiveAll, CreateMessages, Created;
    var after := Persisted.Claimed(schema, m, accountId, d, upgrade);
    var item := after.items[claim.itemId];
    ClaimedItem(schema, m, accountId, d, upgrade);
    OneCreated(claim.itemData);
    var first := if claim.created then Create(claim.itemData.version, ItemObject(item)) else Update(claim.itemData.version, ItemObject(item));
    var second := Update(claim.personaData.version, PersonaObject(1));
    assert ClaimMessages(claim) == [first, second];
    ReceiveTwo(Shown(m), first, second);
    ReceiveItem(Shown(m), claim.itemData.version, item);
    ReceiveOther(Shown(after), claim.personaData.version, PersonaObject(1));
  }

  lemma ClaimedItem(schema: Schema, m: Memory, accountId: uint32, d: uint32, upgrade: Option<uint64>)
    requires |m.items| < USABLE && Keyed(m.items) && (upgrade.Some? ==> upgrade.value in m.items)
    ensures var after := Persisted.Claimed(schema, m, accountId, d, upgrade);
      var id := if upgrade.Some? then upgrade.value else NextId(m, accountId);
      && id in after.items && after.items[id].id == id
      && after.items == m.items[id := after.items[id]] && after.defaultEquips == m.defaultEquips
  {
    hide NextId;
    if upgrade.None? {
      AddingItems(m, accountId, Created(schema, EmptyItem(0, accountId), d, ORIGIN_LEVEL_UP_REWARD, UNACKNOWLEDGED_LEVEL_UP_REWARD));
    }
  }

  /** One item has gone and another is new or different. */
  predicate Replaced(before: map<uint64, Item>, after: map<uint64, Item>, gone: uint64, made: uint64) {
    made in after && after[made].id == made && after == (before - {gone})[made := after[made]]
  }

  lemma PassItems(schema: Schema, m: Memory, accountId: uint32, id: uint64, pass: SeasonPass, now: uint32)
    requires |m.items| < USABLE && id in m.items
    ensures var after := Persisted.PassUsed(schema, m, accountId, id, pass, now);
      Replaced(m.items, after.items, id, NextId(m, accountId)) && after.defaultEquips == m.defaultEquips
  {
    hide NextId;
    AddingItems(m, accountId, Created(schema, EmptyItem(0, accountId), pass.coinDefIndex, ORIGIN_PURCHASED, UNACKNOWLEDGED_PURCHASED));
  }

  lemma AccessItems(schema: Schema, m: Memory, accountId: uint32, id: uint64, access: TournamentAccess, journal: Option<uint64>)
    requires |m.items| < USABLE && id in m.items && Keyed(m.items) && (journal.Some? ==> journal.value in m.items)
    ensures var after := Persisted.AccessUsed(schema, m, accountId, id, access, journal);
      var made := if journal.Some? then journal.value else NextId(m, accountId);
      && (made in after.items ==> Replaced(m.items, after.items, id, made))
      && after.defaultEquips == m.defaultEquips
  {
    hide NextId, Persisted.SetOrAdd, Persisted.FirstNumber;
    if journal.None? {
      var created := Created(schema, EmptyItem(0, accountId), access.journalDefIndex, ORIGIN_PURCHASED, UNACKNOWLEDGED_PURCHASED);
      AddingItems(m, accountId, if access.includedTokens == 0 then created
        else Persisted.WithAttribute(schema, created, ATTRIBUTE_DROPS_AWARDED_PURCHASED, access.includedTokens));
    }
  }

  /** The used item goes, the item it makes or changes is shown, and an operation is no item. */
  lemma UsedReaches(before: Cache, after: Cache, id: uint64, made: uint64, r: Persisted.UseItemResult)
    requires Replaced(before.items, after.items, id, made) && after.defaults == before.defaults
    requires r.destroy.SingleObject? && r.destroy.so == ItemObject(EmptyItem(id, 0))
    requires r.itemData.SingleObject? && r.itemData.so == ItemObject(after.items[made]) && !r.itemChange.NoChange?
    requires r.updateMultiple.objects == []
    requires r.operationChange.NoChange? || (r.operationChange.CreateObject? && r.operationData.SingleObject? && r.operationData.so.OperationObject?)
    ensures ReceiveAll(before, UseMessages(r)) == after
  {
    hide Receive, ReceiveAll, CreateMessages, ServerView.DestroyMessages;
    OneCreated(r.destroy);
    OneCreated(r.itemData);
    OneCreated(r.operationData);
    var item := after.items[made];
    var first := Destroy(r.destroy.version, ItemObject(EmptyItem(id, 0)));
    var second := if r.itemChange.CreateObject? then Create(r.itemData.version, ItemObject(item)) else Update(r.itemData.version, ItemObject(item));
    var third := ChangeMessages(r.operationChange, r.operationData);
    assert UseMessages(r) == [first, second] + third;
    ReceiveJoin(before, [first, second], third);
    ReceiveTwo(before, first, second);
    ReceiveItem(before, r.destroy.version, EmptyItem(id, 0));
    ReceiveItem(before.(items := before.items - {id}), r.itemData.version, item);
    NoItems(after, r.operationChange, r.operationData);
  }

  lemma NoItems(cache: Cache, change: Persisted.UseItemChange, so: SingleObject)
    requires change.NoChange? || (change.CreateObject? && so.SingleObject? && so.so.OperationObject?)
    ensures ReceiveAll(cache, ChangeMessages(change, so)) == cache
  {
    hide Receive;
    OneCreated(so);
    if change.CreateObject? {
      ReceiveOne(cache, Create(so.version, so.so));
      ReceiveOther(cache, so.version, so.so);
    }
  }

  lemma UseReaches(schema: Schema, m: Memory, accountId: uint32, id: uint64, now: uint32, chosen: Option<uint64>, r: Persisted.UseItemResult)
    requires |m.items| < USABLE && Keyed(m.items) && Persisted.Accepts(schema, m, Persisted.Use(id, now), chosen)
    requires var after := Persisted.Performed(schema, m, accountId, Persisted.Use(id, now), chosen);
      Persisted.UseResult(schema, m, accountId, id, chosen, after, r)
    ensures ReceiveAll(Shown(m), UseMessages(r)) == Shown(Persisted.Performed(schema, m, accountId, Persisted.Use(id, now), chosen))
  {
    hide NextId, AdvancedBy, ReceiveAll, UseMessages, Persisted.AccessUsed, Persisted.PassUsed, Replaced;
    var d, after := m.items[id].defIndex, Persisted.Performed(schema, m, accountId, Persisted.Use(id, now), chosen);
    if d in schema.tournamentAccess {
      AccessItems(schema, m, accountId, id, schema.tournamentAccess[d], chosen);
      UsedReaches(Shown(m), Shown(after), id, if chosen.Some? then chosen.value else NextId(m, accountId), r);
    } else {
      PassItems(schema, m, accountId, id, schema.seasonPasses[d], now);
      UsedReaches(Shown(m), Shown(after), id, NextId(m, accountId), r);
    }
  }

  /** An item that has changed is shown by one update of it. */
  lemma ItemUpdateReaches(m: Memory, after: Memory, id: uint64, version: uint64)
    requires id in after.items && after.items[id].id == id && after.items == m.items[id := after.items[id]]
    requires after.defaultEquips == m.defaultEquips
    ensures ReceiveAll(Shown(m), [Update(version, ItemObject(after.items[id]))]) == Shown(after)
  {
    hide ReceiveAll, Receive;
    ReceiveOne(Shown(m), Update(version, ItemObject(after.items[id])));
    ReceiveItem(Shown(m), version, after.items[id]);
  }

  lemma OperationUpdateReaches(m: Memory, after: Memory, version: uint64, operation: SeasonalOperation)
    requires after.items == m.items && after.defaultEquips == m.defaultEquips
    ensures ReceiveAll(Shown(m), [Update(version, OperationObject(operation))]) == Shown(after)
  {
    hide ReceiveAll, Receive;
    ReceiveOne(Shown(m), Update(version, OperationObject(operation)));
    ReceiveOther(Shown(m), version, OperationObject(operation));
  }

  lemma PerformedReaches(schema: Schema, m: Memory, accountId: uint32, e: Persisted.Event, ms: seq<Message>)
    requires |m.items| < USABLE && Keyed(m.items) && Persisted.Accepts(schema, m, e.op, e.chosen)
    requires Persisted.Idle(m, e.op) || e.diskTakesIt
    requires PersistedMessages(schema, m, accountId, e, Persisted.Performed(schema, m, accountId, e.op, e.chosen), ms)
    ensures ReceiveAll(Shown(m), ms) == Shown(Persisted.Performed(schema, m, accountId, e.op, e.chosen))
  {
    hide Receive, NextId, NextVersion, AdvancedBy, Persisted.SetOrAdd, Persisted.FirstNumber, Persisted.UseResult, Persisted.IsClaim;
    hide Persisted.AccessUsed, Persisted.PassUsed, Persisted.Claimed;
    var after := Persisted.Performed(schema, m, accountId, e.op, e.chosen);
    match e.op
    case ClaimMedal(_, d) =>
      var claim :| Persisted.IsClaim(schema, m, accountId, e.chosen, after, claim) && ms == ClaimMessages(claim);
      ClaimReaches(schema, m, accountId, d, e.chosen, claim);
    case Use(id, now) =>
      var r :| Persisted.UseResult(schema, m, accountId, id, e.chosen, after, r) && ms == UseMessages(r);
      UseReaches(schema, m, accountId, id, now, e.chosen, r);
    case SelectMission(season, _) =>
      if !Persisted.Idle(m, e.op) {
        OperationUpdateReaches(m, after, after.version, after.operations[season]);
      }
    case ModifyAttribute(id, _, _) => ItemUpdateReaches(m, after, id, after.version);
    case AddKills(id, _) => ItemUpdateReaches(m, after, id, after.version);
    case Favorite(_, _) =>
  }

  /** After a failed save the memory shows the same if and only if a kill counter could be restored. */
  lemma FailureShows(schema: Schema, m: Memory, op: Persisted.Op)
    ensures Shown(Persisted.TakenBack(schema, m, op)) == Shown(m) <==> (op.AddKills? ==> Persisted.TakesBackAll(schema, m, op))
  {
    hide WithNumber, NumberOf, Persisted.TakesBackAll, FindAttribute;
    Persisted.UndoRestores(schema, m, op);
    if op.AddKills? {
      assert Persisted.TakenBack(schema, m, op) == m.(items := Persisted.TakenBack(schema, m, op).items);
    }
  }

  lemma PersistReaches(schema: Schema, m: Memory, accountId: uint32, e: Persisted.Event, ms: seq<Message>)
    requires |m.items| < USABLE && Keyed(m.items)
    requires var after := Persisted.Attempt(schema, accountId, Persisted.Machine(m, ImageOf(m)), e.op, e.chosen, e.diskTakesIt).memory;
      PersistedMessages(schema, m, accountId, e, after, ms)
    ensures var after := Persisted.Attempt(schema, accountId, Persisted.Machine(m, ImageOf(m)), e.op, e.chosen, e.diskTakesIt).memory;
      ReceiveAll(Shown(m), ms) == Shown(after) <==> (e.op.AddKills? ==> Persisted.Recoverable(schema, m, e))
  {
    hide Receive, Shown, ImageOf, Persisted.Performed, Persisted.TakenBack, Persisted.TakesBackAll, Persisted.Accepts, Persisted.Idle;
    if Persisted.Accepts(schema, m, e.op, e.chosen) && Persisted.Idle(m, e.op) {
      IdlePerforms(schema, m, accountId, e);
    }
    if Persisted.Reports(schema, m, e.op, e.chosen, e.diskTakesIt) {
      PerformedReaches(schema, m, accountId, e, ms);
    } else {
      FailureShows(schema, m, e.op);
    }
  }

  lemma IdlePerforms(schema: Schema, m: Memory, accountId: uint32, e: Persisted.Event)
    requires |m.items| < USABLE && Persisted.Accepts(schema, m, e.op, e.chosen) && Persisted.Idle(m, e.op)
    ensures Persisted.Performed(schema, m, accountId, e.op, e.chosen) == m
  {
    if e.op.Favorite? {
      assert m.eventFavorites == if e.op.favorite then m.eventFavorites + {e.op.eventId} else m.eventFavorites - {e.op.eventId};
    }
  }

  // ................ sprays

  /** One cache is like the other but for an item it may not have. */
  predicate Behind(small: Cache, large: Cache, id: uint64) {
    && small.defaults == large.defaults && small.items - {id} == large.items - {id}
    && (id in small.items ==> id in large.items && small.items[id] == large.items[id])
  }

  lemma ApplyKeepsBehind(small: Cache, large: Cache, id: uint64, so: SharedObject)
    requires Behind(small, large, id)
    ensures Behind(Apply(small, so), Apply(large, so), id)
    ensures so.ItemObject? ==> so.item.id in Apply(small, so).items
  {
    if so.ItemObject? {
      var k := so.item.id;
      assert forall m: map<uint64, Item> :: m[k := so.item] - {id} == if k == id then m - {id} else (m - {id})[k := so.item];
    }
  }

  lemma {:induction false} ReplayKeepsBehind(small: Cache, large: Cache, id: uint64, objects: seq<SharedObject>)
    requires Behind(small, large, id)
    ensures Behind(Replay(small, objects), Replay(large, objects), id)
    decreases objects
  {
    hide Behind, Apply;
    if objects != [] {
      ApplyKeepsBehind(small, large, id, objects[0]);
      ReplayKeepsBehind(Apply(small, objects[0]), Apply(large, objects[0]), id, objects[1..]);
    }
  }

  /** The game hears of the spray, as it was before it got its number of uses. */
  lemma SprayReaches(m: Memory, accountId: uint32, id: uint64, r: Persisted.UseItemResult)
    requires |m.items| < USABLE && id in m.items && Valid(LoadoutOf(m)) && Sprays.IsSprayResult(m, accountId, id, r)
    ensures var cache, ch := ReceiveAll(Shown(m), UseMessages(r)), Sprays.SprayEquip(m, accountId, id);
      && Behind(cache, Snapshot(ch.after), NextId(m, accountId))
      && (NextId(m, accountId) != 0 ==> cache == Snapshot(ch.after))
  {
    hide NextId, Valid, Equip, Sprays.Unsealed, ReceiveAll, Receive, Replay, Snapshot, Behind;
    var made, delta := NextId(m, accountId), Sprays.SprayEquip(m, accountId, id).delta;
    var u := LoadoutOf(Sprays.Unsealed(m, accountId, id));
    var start := Shown(m).(items := Shown(m).items - {id});
    OneCreated(r.destroy);
    var destroy := Destroy(r.destroy.version, ItemObject(EmptyItem(id, 0)));
    ReceiveOne(Shown(m), destroy);
    ReceiveItem(Shown(m), r.destroy.version, EmptyItem(id, 0));
    if delta != [] {
      assert UseMessages(r) == [destroy] + [UpdateMultiple(r.updateMultiple)];
      ReceiveJoin(Shown(m), [destroy], [UpdateMultiple(r.updateMultiple)]);
      ReceiveOne(start, UpdateMultiple(r.updateMultiple));
    } else {
      assert UseMessages(r) == [destroy];
    }
    ReceiveUpdate(start, r.updateMultiple);
    Sprays.UnsealedIsValid(m, accountId, id);
    DeltaReplaysToSnapshot(u, accountId, Sprays.SprayRequest(m, accountId));
    StartsBehind(m, accountId, id);
    ReplayKeepsBehind(start, Snapshot(u), made, delta);
    if made != 0 {
      SprayIsShown(m, accountId, id, start);
    }
  }

  lemma ReceiveUpdate(cache: Cache, update: MultipleObjects)
    ensures Receive(cache, UpdateMultiple(update)) == Replay(cache, update.objects) && Replay(cache, []) == cache
  {
  }

  lemma StartsBehind(m: Memory, accountId: uint32, id: uint64)
    requires |m.items| < USABLE && id in m.items
    ensures Behind(Shown(m).(items := Shown(m).items - {id}), Snapshot(LoadoutOf(Sprays.Unsealed(m, accountId, id))), NextId(m, accountId))
  {
    hide NextId, Sprays.Unsealed;
    Sprays.UnsealedItems(m, accountId, id);
  }

  lemma SprayIsShown(m: Memory, accountId: uint32, id: uint64, cache: Cache)
    requires |m.items| < USABLE && id in m.items && Valid(LoadoutOf(m)) && NextId(m, accountId) != 0
    ensures var ch := Sprays.SprayEquip(m, accountId, id);
      forall large: Cache :: Behind(Replay(cache, ch.delta), large, NextId(m, accountId)) ==> Replay(cache, ch.delta) == large
  {
    hide NextId, Valid, Equip, Sprays.Unsealed;
    var ch, made := Sprays.SprayEquip(m, accountId, id), NextId(m, accountId);
    Sprays.SprayIsLast(m, accountId, id);
    Sprays.SprayEquipIsValid(m, accountId, id);
    Sprays.ItemHasId(ch.after, made);
    var n := |ch.delta| - 1;
    assert ch.delta == ch.delta[..n] + [ch.delta[n]];
    ReplayJoin(cache, ch.delta[..n], [ch.delta[n]]);
    ReplayOne(Replay(cache, ch.delta[..n]), ch.delta[n]);
    assert made in Replay(cache, ch.delta).items;
    forall large: Cache | Behind(Replay(cache, ch.delta), large, made)
      ensures Replay(cache, ch.delta) == large
    {
      BehindWithItem(Replay(cache, ch.delta), large, made);
    }
  }

  lemma BehindWithItem(small: Cache, large: Cache, id: uint64)
    requires Behind(small, large, id) && id in small.items
    ensures small == large
  {
    assert small.items == (small.items - {id})[id := small.items[id]];
    assert large.items == (large.items - {id})[id := large.items[id]];
  }

  /** Its number of uses is not heard of. */
  lemma SprayIsUnheard(schema: Schema, m: Memory, accountId: uint32, id: uint64, r: Persisted.UseItemResult)
    requires |m.items| < USABLE && id in m.items && Valid(LoadoutOf(m)) && Sprays.IsSprayResult(m, accountId, id, r)
    ensures ReceiveAll(Shown(m), UseMessages(r)) != Shown(Sprays.Sprayed(schema, m, accountId, id))
  {
    hide NextId, Valid, Equip, Sprays.Unsealed, ReceiveAll, UseMessages;
    SprayReaches(m, accountId, id, r);
    Sprays.SprayStays(m, accountId, id);
    var made, ch := NextId(m, accountId), Sprays.SprayEquip(m, accountId, id);
    assert |Sprays.WithSprays(schema, ch.after.items[made]).attributes| == |ch.after.items[made].attributes| + 1;
  }

  // ................ orders, removals, trades and storage

  lemma {:induction false} CreatedInTurn(cache: Cache, messages: seq<SingleObject>)
    ensures ReceiveAll(cache, CreateMessages(messages)) == Purchases.Creations(cache, messages)
    decreases |messages|
  {
    hide ReceiveAll, Purchases.Creations;
    if messages == [] {
      NothingCreated(cache);
    } else {
      var n := |messages| - 1;
      CreatedInTurn(cache, messages[..n]);
      assert messages == messages[..n] + [messages[n]];
      Purchases.CreationsJoin(cache, messages[..n], [messages[n]]);
      Purchases.CreationsOfOne(Purchases.Creations(cache, messages[..n]), messages[n]);
      if messages[n].SingleObject? {
        ReceiveJoin(cache, CreateMessages(messages[..n]), [Create(messages[n].version, messages[n].so)]);
        ReceiveOne(ReceiveAll(cache, CreateMessages(messages[..n])), Create(messages[n].version, messages[n].so));
      } else {
        assert CreateMessages(messages) == CreateMessages(messages[..n]);
      }
    }
  }

  lemma NothingCreated(cache: Cache)
    ensures ReceiveAll(cache, []) == cache == Purchases.Creations(cache, [])
  {
  }

  lemma OrderReaches(schema: Schema, m: Memory, accountId: uint32, defs: seq<uint32>, now: uint32, ms: seq<Message>)
    requires |m.items| + |defs| <= USABLE
    requires var p := Purchases.BuyAll(schema, m, accountId, defs, now); ms == if p.ok then CreateMessages(p.messages) else []
    ensures ReceiveAll(Shown(m), ms) == Shown(Purchases.AfterOrder(schema, m, accountId, defs, now))
  {
    hide ReceiveAll, CreateMessages, Purchases.BuyAll, Purchases.AfterOrder, Purchases.Adds;
    var p := Purchases.BuyAll(schema, m, accountId, defs, now);
    Purchases.AfterOrderItems(schema, m, accountId, defs, now);
    Purchases.PurchasesReachClient(schema, m, accountId, defs, now, Shown(m));
    CreatedInTurn(Shown(m), p.messages);
    NothingCreated(Shown(m));
  }

  lemma RemovalReaches(m: Memory, id: uint64, version: uint64)
    requires id in m.items
    ensures ReceiveAll(Shown(m), [Destroy(version, ItemObject(EmptyItem(id, 0)))]) == Shown(Destroying(m, id))
  {
    hide ReceiveAll, Receive;
    ReceiveOne(Shown(m), Destroy(version, ItemObject(EmptyItem(id, 0))));
    ReceiveItem(Shown(m), version, EmptyItem(id, 0));
  }

  lemma {:induction false} DestroyedInTurn(cache: Cache, version: uint64, ids: seq<uint64>)
    ensures ReceiveAll(cache, ServerView.DestroyMessages(TradeUp.DestroyMessages(version, ids)))
      == cache.(items := cache.items - (set id | id in ids))
    decreases |ids|
  {
    if ids != [] {
      hide ReceiveAll, Receive, ServerView.DestroyMessages, AdvancedBy;
      var n := |ids| - 1;
      var v := AdvancedBy(version, n + 1);
      var before := TradeUp.DestroyMessages(version, ids[..n]);
      DestroyedInTurn(cache, version, ids[..n]);
      OneMoreDestroyed(before, v, ids[n]);
      ReceiveJoin(cache, ServerView.DestroyMessages(before), [Destroy(v, ItemObject(EmptyItem(ids[n], 0)))]);
      var rest := cache.(items := cache.items - (set id | id in ids[..n]));
      ReceiveOne(rest, Destroy(v, ItemObject(EmptyItem(ids[n], 0))));
      ReceiveItem(rest, v, EmptyItem(ids[n], 0));
      assert ids == ids[..n] + [ids[n]];
      assert (set id | id in ids) == (set id | id in ids[..n]) + {ids[n]};
      assert cache.items - (set id | id in ids) == cache.items - (set id | id in ids[..n]) - {ids[n]};
    }
  }

  lemma OneMoreDestroyed(messages: seq<SingleObject>, version: uint64, id: uint64)
    ensures ServerView.DestroyMessages(messages + [DestroyMessage(version, id)])
      == ServerView.DestroyMessages(messages) + [Destroy(version, ItemObject(EmptyItem(id, 0)))]
  {
    assert (messages + [DestroyMessage(version, id)])[..|messages|] == messages;
  }

  lemma TradedItems(m: Memory, accountId: uint32, output: Item, ids: seq<uint64>)
    requires |m.items| < USABLE && forall id <- ids :: id in m.items
    ensures var made, after := NextId(m, accountId), TradeUp.Traded(m, accountId, output, ids);
      && made in after.items && after.items[made].id == made
      && after.items == (m.items - (set id | id in ids))[made := after.items[made]]
      && after.defaultEquips == m.defaultEquips
  {
    hide NextId, Adding, Purchases.RemoveAll;
    var added := Adding(m, accountId, output);
    AddingItems(m, accountId, output);
    AddingDefaults(m, accountId, output);
    Purchases.RemoveAllRemoves(added, ids);
  }

  lemma TradeReaches(before: Cache, after: Cache, version: uint64, ids: seq<uint64>, made: uint64, v: uint64)
    requires made in after.items && after.items[made].id == made && after.defaults == before.defaults
    requires after.items == (before.items - (set id | id in ids))[made := after.items[made]]
    ensures ReceiveAll(before, TradeMessages(TradeUp.DestroyMessages(version, ids), SingleObject(v, ItemObject(after.items[made])))) == after
  {
    hide ReceiveAll, Receive, TradeUp.DestroyMessages, ServerView.DestroyMessages, CreateMessages;
    var item, gone := after.items[made], ServerView.DestroyMessages(TradeUp.DestroyMessages(version, ids));
    OneCreated(SingleObject(v, ItemObject(item)));
    assert [Create(v, ItemObject(item))] + [Unrelated] == [Create(v, ItemObject(item)), Unrelated];
    ReceiveJoin(before, gone, [Create(v, ItemObject(item)), Unrelated]);
    DestroyedInTurn(before, version, ids);
    var rest := before.(items := before.items - (set id | id in ids));
    ReceiveTwo(rest, Create(v, ItemObject(item)), Unrelated);
    ReceiveItem(rest, v, item);
    ReceiveUnrelated(after);
    assert TradeMessages(TradeUp.DestroyMessages(version, ids), SingleObject(v, ItemObject(item))) == gone + [Create(v, ItemObject(item)), Unrelated];
    assert ReceiveAll(before, gone) == rest;
    assert rest.(items := rest.items[item.id := item]) == after;
  }

  lemma ReceiveUnrelated(cache: Cache)
    ensures Receive(cache, Unrelated) == cache
  {
  }

  lemma AddingDefaults(m: Memory, accountId: uint32, item: Item)
    requires |m.items| < USABLE
    ensures Adding(m, accountId, item).defaultEquips == m.defaultEquips
  {
  }

  /** Two items are changed and shown. */
  lemma TwoUpdatesReach(m: Memory, after: Memory, a: uint64, b: uint64, v1: uint64, v2: uint64)
    requires a in after.items && b in after.items && after.items[a].id == a && after.items[b].id == b
    requires after.items == m.items[a := after.items[a]][b := after.items[b]] && after.defaultEquips == m.defaultEquips
    ensures ReceiveAll(Shown(m), [Update(v1, ItemObject(after.items[a])), Update(v2, ItemObject(after.items[b]))]) == Shown(after)
  {
    hide Receive, ReceiveAll;
    ReceiveTwo(Shown(m), Update(v1, ItemObject(after.items[a])), Update(v2, ItemObject(after.items[b])));
    ReceiveItem(Shown(m), v1, after.items[a]);
    ReceiveItem(Shown(m).(items := m.items[a := after.items[a]]), v2, after.items[b]);
  }

  lemma MovedItems(schema: Schema, items: map<uint64, Item>, op: Storage.Op)
    requires Keyed(items) && !op.NameCasket?
    ensures var after := Storage.Step(schema, items, op);
      if Storage.Told(schema, items, op) == 0 then after == items
      else
        && Storage.Told(schema, items, op) == 2
        && Moved(op) in after && Casket(op) in after && Keyed(after)
        && after == items[Moved(op) := after[Moved(op)]][Casket(op) := after[Casket(op)]]
  {
    hide Storage.Counted, Storage.Embedded, Storage.Stripped, Storage.Reference;
  }

  /** A storage operation is shown if and only if it is not a naming that fails halfway. */
  lemma StorageReaches(schema: Schema, m: Memory, op: Storage.Op, version: uint64)
    requires Keyed(m.items)
    ensures ReceiveAll(Shown(m), StorageMessages(schema, m, op)) == Shown(m.(items := Storage.Step(schema, m.items, op), version := version))
      <==> (op.NameCasket? ==> NamedOrAsBefore(schema, m.items, op.casketId))
  {
    if op.NameCasket? {
      NamingReaches(schema, m, op.casketId, op.name, op.now, version);
    } else {
      hide ReceiveAll, Storage.Step, Storage.Told, AdvancedBy, Keyed;
      var after := m.(items := Storage.Step(schema, m.items, op), version := version);
      MovedItems(schema, m.items, op);
      NothingCreated(Shown(m));
      if Storage.Told(schema, m.items, op) != 0 {
        KeyedItem(after.items, Moved(op));
        KeyedItem(after.items, Casket(op));
        TwoUpdatesReach(m, after, Moved(op), Casket(op), AdvancedBy(m.version, 1), AdvancedBy(m.version, 2));
      }
    }
  }

  lemma KeyedItem(items: map<uint64, Item>, id: uint64)
    requires Keyed(items) && id in items
    ensures items[id].id == id
  {
  }

  lemma NamingReaches(schema: Schema, m: Memory, id: uint64, name: Text, now: uint32, version: uint64)
    requires Keyed(m.items)
    ensures var op := Storage.NameCasket(id, name, now);
      ReceiveAll(Shown(m), StorageMessages(schema, m, op)) == Shown(m.(items := Storage.Step(schema, m.items, op), version := version))
      <==> NamedOrAsBefore(schema, m.items, id)
  {
    hide ReceiveAll, Storage.Named, Storage.Prepared, Storage.CanPrepare, Storage.PartlyPrepared, Persisted.HasAttribute;
    var op := Storage.NameCasket(id, name, now);
    var after := m.(items := Storage.Step(schema, m.items, op), version := version);
    NothingCreated(Shown(m));
    if id in m.items && m.items[id].defIndex == ITEM_CASKET {
      if Storage.CanPrepare(schema, m.items[id].attributes) {
        ItemUpdateReaches(m, after, id, NextVersion(m.version));
      } else {
        HalfwayIsSame(schema, m.items[id].attributes);
        assert after.items[id].attributes == Storage.PartlyPrepared(schema, m.items[id].attributes);
        assert after.items == m.items <==> after.items[id] == m.items[id];
      }
    }
  }

  /** A naming that fails adds nothing if and only if both attributes were there. */
  lemma HalfwayIsSame(schema: Schema, attributes: seq<Attribute>)
    requires !Storage.CanPrepare(schema, attributes)
    ensures Storage.PartlyPrepared(schema, attributes) == attributes <==>
      (Persisted.HasAttribute(attributes, ATTRIBUTE_CASKET_ITEMS_COUNT)
       && Persisted.HasAttribute(attributes, ATTRIBUTE_CASKET_MODIFICATION_DATE))
  {
    var counted := Storage.WithCounter(schema, attributes);
    assert |counted| >= |attributes|;
  }

  // ------------------------------------------------------------------ all runs

  /**
   Whatever changes, what is published takes the game from the old inventory to the new one,
   if and only if it is not one of the changes nobody hears of.
   */
  lemma ChangeReaches(schema: Schema, m: Memory, accountId: uint32, c: Change, ms: seq<Message>)
    requires Possible(schema, m, c) && Valid(LoadoutOf(m)) && Publishes(schema, m, accountId, c, ms)
    ensures Reaches(schema, m, accountId, c, ms) <==> Heard(schema, m, c)
  {
    hide Valid, ReceiveAll, Equip, EquipMessage, PersistedMessages, Persisted.Attempt, Persisted.Recoverable, NamedOrAsBefore;
    hide Purchases.BuyAll, Purchases.AfterOrder, Storage.Step, Storage.Told, StorageMessages, TradeUp.DrawnOutput, TradeUp.Decided;
    hide Sprays.Sprayed, Sprays.IsSprayResult, UseMessages;
    hide Adding, Destroying, NextId, TradeMessages, Keyed, TradeUp.Traded, TradeUp.DestroyMessages, AdvancedBy, NextVersion;
    ValidIsKeyed(LoadoutOf(m));
    match c
    case Equips(r) => EquipReaches(LoadoutOf(m), accountId, r, ms);
    case Persists(e) => PersistReaches(schema, m, accountId, e, ms);
    case Unseals(id) =>
      var r :| Sprays.IsSprayResult(m, accountId, id, r) && ms == UseMessages(r);
      SprayIsUnheard(schema, m, accountId, id, r);
    case Orders(defs, now) => OrderReaches(schema, m, accountId, defs, now, ms);
    case Removes(id) => RemovalReaches(m, id, After(schema, m, accountId, c).version);
    case Trades(ids, draw) =>
      TradeUp.DecidedMeaning(schema, m.items, ids, draw);
      TradedItems(m, accountId, TradeUp.DrawnOutput(schema, draw), ids);
      TradeReaches(Shown(m), Shown(After(schema, m, accountId, c)), m.version, ids, NextId(m, accountId), After(schema, m, accountId, c).version);
    case Stores(op) => StorageReaches(schema, m, op, After(schema, m, accountId, c).version);
  }

  /** A run of the inventory, with what is published after each change; no change goes unheard. */
  ghost predicate IsPublishedRun(schema: Schema, accountId: uint32, states: seq<Memory>, changes: seq<Change>, published: seq<seq<Message>>) {
    && InventoryRuns.IsRun(schema, accountId, states, changes)
    && |published| == |changes|
    && forall i :: 0 <= i < |changes| ==>
         Publishes(schema, states[i], accountId, changes[i], published[i]) && Heard(schema, states[i], changes[i])
  }

  /** The game, the game server and the tracked ids after the first n changes. */
  ghost function WorldAt(w: World, published: seq<seq<Message>>, n: nat): World
    requires n <= |published|
  {
    if n == 0 then w else PublishAll(WorldAt(w, published, n - 1), published[n - 1])
  }

  /**
   End to end: after a cache request and any run of changes, the game holds the inventory,
   the game server the equipped items and default equips of it, and the coordinator knows
   which items those are.
   */
  lemma {:induction false} EveryoneFollows(schema: Schema, accountId: uint32, states: seq<Memory>, changes: seq<Change>,
                                           published: seq<seq<Message>>, n: nat)
    requires IsPublishedRun(schema, accountId, states, changes, published) && Valid(LoadoutOf(states[0])) && n <= |changes|
    ensures var w := WorldAt(AfterRequest(Shown(states[0])), published, n);
      && w.full == Shown(states[n])
      && InStep(w.full, w.server, w.ids)
  {
    hide Valid, After, Possible, Publishes, Heard, Reaches, PublishAll, Shown, InStep;
    var start := AfterRequest(Shown(states[0]));
    if n == 0 {
      RequestIsInStep(Shown(states[0]));
    } else {
      EveryoneFollows(schema, accountId, states, changes, published, n - 1);
      InventoryRuns.RunKeepsValid(schema, accountId, states, changes, n - 1);
      ChangeReaches(schema, states[n - 1], accountId, changes[n - 1], published[n - 1]);
      ReachesMeaning(schema, states[n - 1], accountId, changes[n - 1], published[n - 1]);
      PublishedToGame(WorldAt(start, published, n - 1), published[n - 1]);
      RunKeepsStep(WorldAt(start, published, n - 1), published[n - 1]);
    }
  }

  lemma ReachesMeaning(schema: Schema, m: Memory, accountId: uint32, c: Change, ms: seq<Message>)
    requires Possible(schema, m, c) && Reaches(schema, m, accountId, c, ms)
    ensures ReceiveAll(Shown(m), ms) == Shown(After(schema, m, accountId, c))
  {
    hide Shown, After, Possible, ReceiveAll;
  }
}
