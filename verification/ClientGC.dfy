/**
 The coordinator's handlers: what they publish to the game and to the game server, and
 the store purchase (gc_client.cpp).
 */
module ClientGC {
  import opened Prelude
  import opened Items
  import opened Loadout
  import opened ItemIds
  import opened InventoryState
  import opened Purchases
  import opened StorePurchase
  import opened ServerView
  import InventoryRuns
  import InventoryPublishing
  import Persisted
  import Storage
  import Sprays
  import TradeUp
  import ItemSchema
  import Inventory

  /** What the game server is sent. */
  datatype ServerMessage = Subscribed(version: uint64, cache: Cache) | Filtered(message: Message)

  /** The two streams, and the ids the coordinator tracks for the second. */
  datatype Outbox = Outbox(toGame: seq<Message>, toServer: seq<ServerMessage>, ids: set<uint64>)

  /** The streams with more messages published to both. */
  function Sent(o: Outbox, ms: seq<Message>): Outbox {
    var (sent, ids) := FilterAll(o.ids, ms);
    Outbox(o.toGame + ms, o.toServer + sent, ids)
  }

  lemma SentNext(o: Outbox, ms: seq<Message>, m: Message)
    ensures Sent(o, []) == o && Sent(Sent(o, ms), [m]) == Sent(o, ms + [m])
  {
    hide Filter, FilterAll;
    NothingFiltered(o.ids);
    NothingFiltered(FilterAll(o.ids, ms).1);
    FilterNext(o.ids, ms, m);
    FilterNext(FilterAll(o.ids, ms).1, [], m);
    assert [] + [m] == [m];
  }

  lemma {:induction false} SentTwice(o: Outbox, a: seq<Message>, b: seq<Message>)
    ensures Sent(Sent(o, a), b) == Sent(o, a + b)
    decreases |b|
  {
    hide Sent;
    if b == [] {
      SentNext(Sent(o, a), [], Unrelated);
      assert a + b == a;
    } else {
      var n := |b| - 1;
      SentTwice(o, a, b[..n]);
      assert b == b[..n] + [b[n]] && a + b == a + b[..n] + [b[n]];
      SentNext(Sent(o, a), b[..n], b[n]);
      SentNext(o, a + b[..n], b[n]);
    }
  }

  class ClientGC {
    const inventory: Inventory.Inventory

    var gameServerEquippedItems: set<uint64>
    var transactionId: uint64
    var lineItems: seq<Line>

    /** What has been posted to the host, for the game and for the game server. */
    var toGame: seq<Message>
    var toServer: seq<ServerMessage>

    constructor (inventory: Inventory.Inventory)
      ensures this.inventory == inventory && gameServerEquippedItems == {} && toGame == [] && toServer == []
      ensures Pending() == Shop(inventory.Current(), 0, []) && Sound(inventory.schema, Pending())
    {
      this.inventory := inventory;
      gameServerEquippedItems, transactionId, lineItems, toGame, toServer := {}, 0, [], [], [];
    }

    ghost function Pending(): Shop
      reads this, inventory
    {
      Shop(inventory.Current(), transactionId, lineItems)
    }

    ghost function Posted(): Outbox
      reads this
    {
      Outbox(toGame, toServer, gameServerEquippedItems)
    }

    // ---------------------------------------------------------- the game server

    method HandleSOCacheRequest()
      modifies `gameServerEquippedItems, `toServer
      ensures gameServerEquippedItems == EquippedPart(inventory.items).Keys
      ensures toServer == old(toServer) + [Subscribed(inventory.version, ServerSubscription(Snapshot(inventory.Equips())))]
    {
      var todo := inventory.items.Keys;
      var equipped: map<uint64, Item> := map[];
      var ids: set<uint64> := {};
      while todo != {}
        invariant todo <= inventory.items.Keys
        invariant equipped == map id | id in EquippedPart(inventory.items) && id !in todo :: inventory.items[id]
        invariant ids == equipped.Keys
      {
        var id :| id in todo;
        if inventory.items[id].equipped != [] {
          equipped := equipped[id := inventory.items[id]];
          ids := ids + {id};
        }
        todo := todo - {id};
      }
      assert equipped == EquippedPart(inventory.items);
      gameServerEquippedItems := ids;
      toServer := toServer + [Subscribed(inventory.version, Cache(equipped, DefaultsOf(inventory.defaultEquips)))];
    }

    /** Whether the server must be told of an object. */
    method GameServerItemDirty(so: SharedObject, destroyed: bool) returns (dirty: bool)
      modifies `gameServerEquippedItems
      ensures (dirty, gameServerEquippedItems) == Dirty(old(gameServerEquippedItems), so, destroyed)
    {
      match so
      case UnidentifiedItem =>
        dirty := false;
      case ItemObject(item) =>
        dirty := item.id in gameServerEquippedItems;
        if destroyed || item.equipped == [] {
          gameServerEquippedItems := gameServerEquippedItems - {item.id};
        } else {
          gameServerEquippedItems := gameServerEquippedItems + {item.id};
          dirty := true;
        }
      case _ =>
        dirty := true;
    }

    method SendMessageToGameServer(m: Message)
      modifies `gameServerEquippedItems, `toServer
      ensures var (sent, ids) := Filter(old(gameServerEquippedItems), m);
        && gameServerEquippedItems == ids
        && toServer == old(toServer) + if sent.Some? then [Filtered(sent.value)] else []
    {
      match m
      case UpdateMultiple(update) =>
        var kept := FilterObjects(update.objects);
        if kept != [] {
          toServer := toServer + [Filtered(UpdateMultiple(update.(objects := kept)))];
        }
      case Unrelated =>
        toServer := toServer + [Filtered(m)];
      case _ =>
        var dirty := GameServerItemDirty(m.so, m.Destroy?);
        if dirty {
          toServer := toServer + [Filtered(m)];
        }
    }

    /** The loop over the objects of an update. */
    method FilterObjects(objects: seq<SharedObject>) returns (kept: seq<SharedObject>)
      modifies `gameServerEquippedItems
      ensures (kept, gameServerEquippedItems) == DirtyAll(old(gameServerEquippedItems), objects)
    {
      kept := [];
      for i := 0 to |objects|
        invariant (kept, gameServerEquippedItems) == DirtyAll(old(gameServerEquippedItems), objects[..i])
      {
        DirtyNext(old(gameServerEquippedItems), objects, i);
        var dirty := GameServerItemDirty(objects[i], false);
        if dirty {
          kept := kept + [objects[i]];
        }
      }
      assert objects[..|objects|] == objects;
    }

    method SendMessageToGame(sendToGameServer: bool, m: Message)
      modifies `gameServerEquippedItems, `toServer, `toGame
      ensures toGame == old(toGame) + [m]
      ensures if sendToGameServer then Posted() == Sent(old(Posted()), [m])
        else gameServerEquippedItems == old(gameServerEquippedItems) && toServer == old(toServer)
    {
      NothingFiltered(gameServerEquippedItems);
      FilterNext(gameServerEquippedItems, [], m);
      if sendToGameServer {
        SendMessageToGameServer(m);
      }
      toGame := toGame + [m];
    }

    // --------------------------------------------------------- inventory requests

    /** The inventory has changed in this way, and these are the messages that were published of it. */
    ghost predicate Handled(before: Memory, sent: Outbox, c: InventoryRuns.Change, ms: seq<Message>)
      reads this, inventory
    {
      && InventoryRuns.Possible(inventory.schema, before, c)
      && inventory.Current() == InventoryRuns.After(inventory.schema, before, inventory.AccountId(), c)
      && InventoryPublishing.Publishes(inventory.schema, before, inventory.AccountId(), c, ms)
      && Posted() == Sent(sent, ms)
    }

    method AdjustItemEquippedState(r: Request) returns (ghost ms: seq<Message>)
      requires Valid(inventory.Equips()) && |inventory.items| < USABLE
      modifies `gameServerEquippedItems, `toServer, `toGame, inventory`items, inventory`defaultEquips, inventory`version
      ensures Handled(old(inventory.Current()), old(Posted()), InventoryRuns.Equips(r), ms)
    {
      hide Equip, Valid, Changes, Sent;
      SentNext(Posted(), [], Unrelated);
      var changed, update := inventory.EquipItem(r.itemId, r.classId, r.slotId, r.swap, MultipleObjects(None, []));
      assert [] + Equip(old(inventory.Equips()), inventory.AccountId(), r).delta == Equip(old(inventory.Equips()), inventory.AccountId(), r).delta;
      if !changed {
        return [];
      }
      SendMessageToGame(true, UpdateMultiple(update));
      ms := [UpdateMultiple(update)];
    }

    /** Stats subscriptions are told of to the game alone, besides. */
    method DeleteItem(itemId: uint64) returns (ghost ms: seq<Message>)
      requires Keyed(inventory.items) && |inventory.items| < USABLE
      modifies `gameServerEquippedItems, `toServer, `toGame, inventory`items, inventory`statsTimeInitiated, inventory`version
      ensures if itemId in old(inventory.items) then Handled(old(inventory.Current()), old(Posted()), InventoryRuns.Removes(itemId), ms)
        else inventory.Current() == old(inventory.Current()) && Posted() == old(Posted())
    {
      hide Sent;
      var removed, destroyed := inventory.RemoveItem(itemId);
      if !removed {
        return [];
      }
      SendMessageToGame(true, Destroy(destroyed.version, destroyed.so));
      ms := [Destroy(destroyed.version, destroyed.so)];
    }

    /** What the use of an item is: the opening of a graffiti, or an attempt at a saved operation. */
    ghost predicate IsUse(m: Memory, itemId: uint64, now: uint32, c: InventoryRuns.Change)
      reads this, inventory
    {
      if Sprays.IsSpray(inventory.schema, m.items, itemId) then c == InventoryRuns.Unseals(itemId)
      else c.Persists? && c.event.op == Persisted.Use(itemId, now)
    }

    method UseItemRequest(itemId: uint64, now: uint32) returns (ghost c: InventoryRuns.Change, ghost ms: seq<Message>)
      requires Valid(inventory.Equips()) && |inventory.items| < USABLE && Persisted.AccessSchema(inventory.schema)
      modifies `gameServerEquippedItems, `toServer, `toGame, inventory`items, inventory`lastHighItemId, inventory`version
      modifies inventory`statsTimeInitiated, inventory`operations, inventory`defaultEquips, inventory`file
      ensures IsUse(old(inventory.Current()), itemId, now, c)
      ensures Handled(old(inventory.Current()), old(Posted()), c, ms)
    {
      hide Sent, Valid, Persisted.Refines, Persisted.UseResult, InventoryPublishing.UseMessages, InventoryPublishing.Publishes, InventoryRuns.After;
      hide Sprays.IsSprayResult, Sprays.Sprayed;
      ghost var before, o := inventory.Both(), Posted();
      ghost var chosen;
      var ok, result;
      ok, result, chosen := inventory.UseItem(itemId, now);
      ms := if ok then InventoryPublishing.UseMessages(result) else [];
      if Sprays.IsSpray(inventory.schema, before.memory.items, itemId) {
        c := InventoryRuns.Unseals(itemId);
        InventoryPublishing.SprayIsChange(inventory.schema, before.memory, inventory.AccountId(), itemId, result);
      } else {
        ghost var e := Persisted.Event(Persisted.Use(itemId, now), chosen, inventory.DiskTakesIt());
        c := InventoryRuns.Persists(e);
        RefinedReports(inventory.schema, inventory.AccountId(), before, e, ok, inventory.Both());
        InventoryPublishing.AttemptIsChange(inventory.schema, before, inventory.AccountId(), e, ok, inventory.Both(), ms);
        if ok {
          InventoryPublishing.UsedIsPresentable(inventory.schema, before.memory, inventory.AccountId(), itemId, chosen, inventory.Current(), result);
        }
      }
      if ok {
        SendUsed(result);
      } else {
        SentNext(o, [], Unrelated);
      }
    }

    /** The messages of a used item, in the order of the handler. */
    method SendUsed(result: Persisted.UseItemResult)
      requires InventoryPublishing.Presentable(result)
      modifies `gameServerEquippedItems, `toServer, `toGame
      ensures Posted() == Sent(old(Posted()), InventoryPublishing.UseMessages(result))
    {
      hide Sent;
      ghost var o := Posted();
      InventoryPublishing.OneCreated(result.destroy);
      var destroy := Destroy(result.destroy.version, result.destroy.so);
      SendMessageToGame(true, destroy);
      SendChange(result.itemChange, result.itemData);
      SentTwice(o, [destroy], InventoryPublishing.ChangeMessages(result.itemChange, result.itemData));
      SendChange(result.operationChange, result.operationData);
      ghost var first := [destroy] + InventoryPublishing.ChangeMessages(result.itemChange, result.itemData);
      ghost var second := InventoryPublishing.ChangeMessages(result.operationChange, result.operationData);
      SentTwice(o, first, second);
      if result.updateMultiple.objects != [] {
        SentTwice(o, first + second, [UpdateMultiple(result.updateMultiple)]);
        SendMessageToGame(true, UpdateMultiple(result.updateMultiple));
      } else {
        assert first + second + [] == first + second;
      }
    }

    method SendChange(change: Persisted.UseItemChange, so: SingleObject)
      requires !change.NoChange? ==> so.SingleObject?
      modifies `gameServerEquippedItems, `toServer, `toGame
      ensures Posted() == Sent(old(Posted()), InventoryPublishing.ChangeMessages(change, so))
    {
      hide Sent;
      InventoryPublishing.OneCreated(so);
      match change
      case NoChange => SentNext(Posted(), [], Unrelated);
      case CreateObject => SendMessageToGame(true, Create(so.version, so.so));
      case UpdateObject => SendMessageToGame(true, Update(so.version, so.so));
    }

    method ClientRequestNewMission(season: uint32, card: uint32) returns (ghost e: Persisted.Event, ghost ms: seq<Message>)
      requires |inventory.items| < USABLE
      modifies `gameServerEquippedItems, `toServer, `toGame, inventory`operations, inventory`version, inventory`file
      ensures e.op == Persisted.SelectMission(season, card)
      ensures Handled(old(inventory.Current()), old(Posted()), InventoryRuns.Persists(e), ms)
    {
      hide Sent, Persisted.Refines, InventoryPublishing.Publishes, InventoryRuns.After, NextVersion;
      ghost var before := inventory.Both();
      e := Persisted.Event(Persisted.SelectMission(season, card), None, inventory.DiskTakesIt());
      var ok, update := inventory.SelectSeasonalMissionCard(season, card);
      RefinedReports(inventory.schema, inventory.AccountId(), before, e, ok, inventory.Both());
      MissionVersion(inventory.schema, inventory.AccountId(), before, e, ok, inventory.Both());
      SentNext(Posted(), [], Unrelated);
      ms := UpdateMessage(update);
      InventoryPublishing.AttemptIsChange(inventory.schema, before, inventory.AccountId(), e, ok, inventory.Both(), ms);
      if ok && update.SingleObject? {
        SendMessageToGame(true, Update(update.version, update.so));
      }
    }

    method ModifyItemAttribute(itemId: uint64, defIndex: uint32, value: uint32) returns (ghost e: Persisted.Event, ghost ms: seq<Message>)
      requires |inventory.items| < USABLE
      modifies `gameServerEquippedItems, `toServer, `toGame, inventory`items, inventory`version, inventory`file
      ensures e.op == Persisted.Op.ModifyAttribute(itemId, defIndex, value)
      ensures Handled(old(inventory.Current()), old(Posted()), InventoryRuns.Persists(e), ms)
    {
      hide Sent, Persisted.Refines, InventoryPublishing.Publishes, InventoryRuns.After;
      ghost var before := inventory.Both();
      e := Persisted.Event(Persisted.Op.ModifyAttribute(itemId, defIndex, value), None, inventory.DiskTakesIt());
      var ok, update := inventory.ModifyItemAttribute(itemId, defIndex, value);
      RefinedReports(inventory.schema, inventory.AccountId(), before, e, ok, inventory.Both());
      SentNext(Posted(), [], Unrelated);
      ms := UpdateMessage(update);
      InventoryPublishing.AttemptIsChange(inventory.schema, before, inventory.AccountId(), e, ok, inventory.Both(), ms);
      if ok {
        SendMessageToGame(true, Update(update.version, update.so));
      }
    }

    method IncrementKillCountAttribute(itemId: uint64, amount: uint32) returns (ghost e: Persisted.Event, ghost ms: seq<Message>)
      requires |inventory.items| < USABLE
      modifies `gameServerEquippedItems, `toServer, `toGame, inventory`items, inventory`version, inventory`file
      ensures e.op == Persisted.AddKills(itemId, amount)
      ensures Handled(old(inventory.Current()), old(Posted()), InventoryRuns.Persists(e), ms)
    {
      hide Sent, Persisted.Refines, InventoryPublishing.Publishes, InventoryRuns.After;
      ghost var before := inventory.Both();
      e := Persisted.Event(Persisted.AddKills(itemId, amount), None, inventory.DiskTakesIt());
      var ok, update := inventory.IncrementKillCountAttribute(itemId, amount);
      RefinedReports(inventory.schema, inventory.AccountId(), before, e, ok, inventory.Both());
      SentNext(Posted(), [], Unrelated);
      ms := UpdateMessage(update);
      InventoryPublishing.AttemptIsChange(inventory.schema, before, inventory.AccountId(), e, ok, inventory.Both(), ms);
      if ok {
        SendMessageToGame(true, Update(update.version, update.so));
      }
    }

    method SetEventFavorite(eventId: uint64, favorite: bool) returns (ghost e: Persisted.Event)
      requires |inventory.items| < USABLE
      modifies inventory`eventFavorites, inventory`file
      ensures e.op == Persisted.Favorite(eventId, favorite)
      ensures Handled(old(inventory.Current()), old(Posted()), InventoryRuns.Persists(e), [])
    {
      hide Sent, Persisted.Refines, InventoryPublishing.Publishes, InventoryRuns.After;
      ghost var before := inventory.Both();
      e := Persisted.Event(Persisted.Favorite(eventId, favorite), None, inventory.DiskTakesIt());
      var ok := inventory.SetEventFavorite(eventId, favorite);
      SentNext(Posted(), [], Unrelated);
      InventoryPublishing.AttemptIsChange(inventory.schema, before, inventory.AccountId(), e, ok, inventory.Both(), []);
    }

    /** A request without a definition asks what there is to claim. */
    method RequestPrestigeCoin(year: uint32, requested: Option<uint32>) returns (ghost e: Persisted.Event, ghost ms: seq<Message>)
      requires |inventory.items| < USABLE
      modifies `gameServerEquippedItems, `toServer, `toGame
      modifies inventory`items, inventory`lastHighItemId, inventory`version, inventory`playerLevel, inventory`playerXp, inventory`file
      ensures if requested.Some? && requested.value != 0 then
          && e.op == Persisted.ClaimMedal(year, requested.value)
          && Handled(old(inventory.Current()), old(Posted()), InventoryRuns.Persists(e), ms)
        else inventory.Current() == old(inventory.Current()) && Posted() == old(Posted())
    {
      hide Sent, Persisted.Refines, InventoryPublishing.Publishes, InventoryRuns.After, Persisted.IsPlan, Persisted.IsClaim;
      ghost var before, expected := inventory.Both(), if requested.Some? then requested.value else 0;
      e, ms := Persisted.Event(Persisted.ClaimMedal(year, expected), None, inventory.DiskTakesIt()), [];
      SentNext(Posted(), [], Unrelated);
      var plan := inventory.GetPrestigeMedalPlan(year);
      if inventory.playerLevel < Persisted.MAX_PLAYER_LEVEL || plan.None? {
        Persisted.Declines(inventory.schema, inventory.AccountId(), before, e);
        InventoryPublishing.AttemptIsChange(inventory.schema, before, inventory.AccountId(), e, false, before, []);
        return;
      }
      if requested.None? || requested.value == 0 {
        return;
      }
      var ok, claim;
      ghost var chosen;
      ok, claim, chosen := inventory.ClaimPrestigeMedal(year, requested.value);
      e := e.(chosen := chosen);
      RefinedReports(inventory.schema, inventory.AccountId(), before, e, ok, inventory.Both());
      ms := if ok then InventoryPublishing.ClaimMessages(claim) else [];
      InventoryPublishing.AttemptIsChange(inventory.schema, before, inventory.AccountId(), e, ok, inventory.Both(), ms);
      if ok {
        InventoryPublishing.ClaimIsPresentable(inventory.schema, before.memory, inventory.AccountId(), chosen, inventory.Current(), claim);
        SendClaim(claim);
      }
    }

    method SendClaim(claim: Persisted.PrestigeMedalClaim)
      requires claim.itemData.SingleObject? && claim.personaData.SingleObject?
      modifies `gameServerEquippedItems, `toServer, `toGame
      ensures Posted() == Sent(old(Posted()), InventoryPublishing.ClaimMessages(claim))
    {
      hide Sent;
      ghost var o := Posted();
      SendChange(if claim.created then Persisted.CreateObject else Persisted.UpdateObject, claim.itemData);
      SendMessageToGame(true, Update(claim.personaData.version, claim.personaData.so));
      SentTwice(o, if claim.created then CreateMessages([claim.itemData]) else UpdateMessage(claim.itemData), UpdateMessage(claim.personaData));
    }

    /** A trade-up contract: ten items under one of its recipes. */
    method Craft(recipe: int, ids: seq<uint64>) returns (ok: bool, draw: TradeUp.Draw, ghost ms: seq<Message>)
      requires Keyed(inventory.items) && |inventory.items| < USABLE
      modifies `gameServerEquippedItems, `toServer, `toGame
      modifies inventory`items, inventory`lastHighItemId, inventory`version, inventory`statsTimeInitiated
      ensures ok ==> IsTradeUpRecipe(recipe) && |ids| == 10 && Handled(old(inventory.Current()), old(Posted()), InventoryRuns.Trades(ids, draw), ms)
      ensures !ok ==> inventory.Current() == old(inventory.Current()) && Posted() == old(Posted())
    {
      hide Sent, TradeUp.Decided, TradeUp.Certain, TradeUp.Traded, NextId, TradeUp.DestroyMessages, InventoryPublishing.TradeMessages;
      ms := [];
      if !IsTradeUpRecipe(recipe) || |ids| != 10 {
        return false, TradeUp.NoDraw, ms;
      }
      var destroyed, created, answer;
      ok, destroyed, created, answer, draw := inventory.TradeUp(ids);
      if ok {
        ms := InventoryPublishing.TradeMessages(destroyed, created);
        InventoryPublishing.AllDestroyed(old(inventory.version), ids);
        SendTrade(destroyed, created);
        TradeUp.DecidedMeaning(inventory.schema, old(inventory.items), ids, draw);
      }
    }

    /** The loop over the destroyed items, and the new one. */
    method SendTrade(destroyed: seq<SingleObject>, created: SingleObject)
      requires (forall d <- destroyed :: d.SingleObject?) && created.SingleObject?
      modifies `gameServerEquippedItems, `toServer, `toGame
      ensures Posted() == Sent(old(Posted()), InventoryPublishing.TradeMessages(destroyed, created))
    {
      hide Sent;
      ghost var o := Posted();
      SentNext(o, [], Unrelated);
      for i := 0 to |destroyed|
        invariant Posted() == Sent(o, DestroyMessages(destroyed[..i]))
      {
        assert destroyed[..i + 1][..i] == destroyed[..i];
        SentNext(o, DestroyMessages(destroyed[..i]), Destroy(destroyed[i].version, destroyed[i].so));
        SendMessageToGame(true, Destroy(destroyed[i].version, destroyed[i].so));
      }
      assert destroyed[..|destroyed|] == destroyed;
      InventoryPublishing.OneCreated(created);
      var create := Create(created.version, created.so);
      SendMessageToGame(true, create);
      SendMessageToGame(true, Unrelated);
      SentTwice(o, DestroyMessages(destroyed), [create]);
      SentTwice(o, DestroyMessages(destroyed) + [create], [Unrelated]);
      assert DestroyMessages(destroyed) + [create] + [Unrelated] == DestroyMessages(destroyed) + ([create] + [Unrelated]);
    }

    method ProcessStorageDeposit(storageId: uint64, itemId: uint64, now: uint32) returns (ghost ms: seq<Message>)
      requires |inventory.items| < USABLE
      modifies `gameServerEquippedItems, `toServer, `toGame, inventory`items, inventory`version
      ensures Handled(old(inventory.Current()), old(Posted()), InventoryRuns.Stores(Storage.Deposit(storageId, itemId, now)), ms)
    {
      hide Sent, Storage.Step, Storage.DepositResult, AdvancedBy, InventoryPublishing.StorageMessages;
      ghost var before, op := inventory.Current(), Storage.Deposit(storageId, itemId, now);
      AdvancedTwice(inventory.version);
      var outcome, itemData, containerData := inventory.DepositItemToStorage(storageId, itemId, now);
      ms := UpdateMessage(itemData) + UpdateMessage(containerData);
      InventoryPublishing.TransactionMessages(inventory.schema, before, op, itemData, containerData);
      DispatchStorageResult(outcome, itemData, containerData);
    }

    method ProcessStorageWithdraw(storageId: uint64, itemId: uint64, now: uint32) returns (ghost ms: seq<Message>)
      requires |inventory.items| < USABLE
      modifies `gameServerEquippedItems, `toServer, `toGame, inventory`items, inventory`version
      ensures Handled(old(inventory.Current()), old(Posted()), InventoryRuns.Stores(Storage.Withdraw(storageId, itemId, now)), ms)
    {
      hide Sent, Storage.Step, Storage.WithdrawResult, AdvancedBy, InventoryPublishing.StorageMessages;
      ghost var before, op := inventory.Current(), Storage.Withdraw(storageId, itemId, now);
      AdvancedTwice(inventory.version);
      var outcome, itemData, containerData := inventory.WithdrawItemFromStorage(storageId, itemId, now);
      ms := UpdateMessage(itemData) + UpdateMessage(containerData);
      InventoryPublishing.TransactionMessages(inventory.schema, before, op, itemData, containerData);
      DispatchStorageResult(outcome, itemData, containerData);
    }

    method DispatchStorageResult(outcome: Storage.StorageResult, itemData: SingleObject, containerData: SingleObject)
      requires if outcome.Success? then itemData.SingleObject? && containerData.SingleObject? else itemData == containerData == NoObject
      modifies `gameServerEquippedItems, `toServer, `toGame
      ensures Posted() == Sent(old(Posted()), UpdateMessage(itemData) + UpdateMessage(containerData))
    {
      hide Sent;
      SentNext(Posted(), [], Unrelated);
      assert !outcome.Success? ==> UpdateMessage(itemData) + UpdateMessage(containerData) == [];
      if outcome.Success? {
        SentTwice(Posted(), UpdateMessage(itemData), UpdateMessage(containerData));
        SendMessageToGame(true, Update(itemData.version, itemData.so));
        SendMessageToGame(true, Update(containerData.version, containerData.so));
      }
    }

    /** The naming of a casket, which needs no name tag. */
    method NameItem(casketId: uint64, name: Text, now: uint32) returns (ghost ms: seq<Message>)
      requires |inventory.items| < USABLE
      modifies `gameServerEquippedItems, `toServer, `toGame, inventory`items, inventory`version
      ensures Handled(old(inventory.Current()), old(Posted()), InventoryRuns.Stores(Storage.NameCasket(casketId, name, now)), ms)
    {
      hide Sent, Storage.Step, Storage.CanPrepare, NextVersion;
      SentNext(Posted(), [], Unrelated);
      AdvancedTwice(inventory.version);
      var ok, update := inventory.NameCasket(casketId, name, now);
      ms := UpdateMessage(update);
      if ok {
        SendMessageToGame(true, Update(update.version, update.so));
      }
    }

    // ------------------------------------------------------------------ the store

    /** The loop over the line items of an order. */
    method VetOrder(request: seq<RequestLine>) returns (ok: bool, lines: seq<Line>)
      ensures ok <==> OrderAccepted(inventory.schema, inventory.items, request)
      ensures ok ==> lines == LinesOf(request)
    {
      hide OrderAccepted, Vetted, AsksForSubscription, Total, LinesOf;
      var itemCount, includesStatsSubscription := 0, false;
      lines := [];
      VetNothing(inventory.schema, inventory.items);
      NoLines();
      for i := 0 to |request|
        invariant OrderAccepted(inventory.schema, inventory.items, request[..i])
        invariant lines == LinesOf(request[..i])
        invariant itemCount == Total(lines)
        invariant includesStatsSubscription <==> AsksForSubscription(lines)
      {
        var item := request[i];
        VetNext(inventory.schema, inventory.items, request, i);
        LinesNext(request, i);
        itemCount := itemCount + item.quantity;
        var isStatsSubscription := item.defIndex == Some(ITEM_STATS_SUBSCRIPTION);
        var owned := inventory.HasItemDefinition(ITEM_STATS_SUBSCRIPTION);
        if item.defIndex.None? || item.quantity == 0 || itemCount > MAX_ITEMS || item.defIndex.value !in inventory.schema.creatable
          || (isStatsSubscription && (item.quantity != 1 || includesStatsSubscription || owned))
        {
          VetLater(inventory.schema, inventory.items, request, i + 1);
          return false, [];
        }
        includesStatsSubscription := includesStatsSubscription || isStatsSubscription;
        lines := lines + [Line(item.defIndex.value, item.quantity)];
      }
      assert request[..|request|] == request;
      ok := true;
    }

    /** Registers an order; the transaction id is any number but zero. */
    method StorePurchaseInit(request: seq<RequestLine>) returns (ok: bool)
      modifies `transactionId, `lineItems
      ensures ok <==> InitAccepted(inventory.schema, old(Pending()), request)
      ensures Pending() == Init(inventory.schema, old(Pending()), request, transactionId)
      ensures ok ==> transactionId != 0
    {
      hide OrderAccepted;
      if transactionId != 0 || request == [] {
        return false;
      }
      var lines;
      ok, lines := VetOrder(request);
      if !ok {
        return false;
      }
      var one: uint64 := 1;
      assert one != 0;
      var id: uint64 :| id != 0;
      transactionId, lineItems := id, lines;
    }

    /** Creates everything ordered and publishes it, or takes back what could be created. */
    method StorePurchaseFinalize(txn: Option<uint64>, now: uint32) returns (ok: bool, itemIds: seq<uint64>)
      requires Keyed(inventory.items) && |inventory.items| + |Expanded(lineItems)| <= USABLE
      modifies `transactionId, `lineItems, `gameServerEquippedItems, `toGame, `toServer
      modifies inventory`items, inventory`lastHighItemId, inventory`version, inventory`statsTimeInitiated
      ensures Pending() == Finalize(inventory.schema, old(Pending()), inventory.AccountId(), txn, now)
      ensures var p := BuyAll(inventory.schema, old(inventory.Current()), inventory.AccountId(), Expanded(old(lineItems)), now);
        && (ok <==> IdMatches(old(Pending()), txn) && p.ok)
        && itemIds == (if ok then p.ids else [])
        && Posted() == Sent(old(Posted()), if ok then CreateMessages(p.messages) else [])
        && (IdMatches(old(Pending()), txn) ==>
              Handled(old(inventory.Current()), old(Posted()), InventoryRuns.Orders(Expanded(old(lineItems)), now),
                      if ok then CreateMessages(p.messages) else []))
    {
      hide BuyAll, Expanded, RemoveAll, CreateMessages, Keyed, Sent;
      SentNext(Posted(), [], Unrelated);
      if transactionId == 0 || txn != Some(transactionId) {
        return false, [];
      }
      var messages;
      ok, itemIds, messages := BuyLines(now);
      if ok {
        Publish(messages);
      } else {
        RemoveItems(itemIds);
        itemIds := [];
      }
      transactionId, lineItems := 0, [];
    }

    /** The loop over the line items. */
    method BuyLines(now: uint32) returns (ok: bool, ids: seq<uint64>, messages: seq<SingleObject>)
      requires Keyed(inventory.items) && |inventory.items| + |Expanded(lineItems)| <= USABLE
      modifies inventory`items, inventory`lastHighItemId, inventory`version, inventory`statsTimeInitiated
      ensures Purchase(ok, inventory.Current(), ids, messages)
        == BuyAll(inventory.schema, old(inventory.Current()), inventory.AccountId(), Expanded(lineItems), now)
      ensures Keyed(inventory.items)
    {
      hide BuyAll, Expanded, Keyed;
      ghost var m := inventory.Current();
      ok, ids, messages := true, [], [];
      BoughtIsKeyed(inventory.schema, m, inventory.AccountId(), Expanded(lineItems), now);
      NothingBought(inventory.schema, m, inventory.AccountId(), now);
      for i := 0 to |lineItems|
        invariant |m.items| + |Expanded(lineItems)| <= USABLE && |Expanded(lineItems[..i])| <= |Expanded(lineItems)|
        invariant ok && Purchase(ok, inventory.Current(), ids, messages)
          == BuyAll(inventory.schema, m, inventory.AccountId(), Expanded(lineItems[..i]), now)
      {
        ExpandedNext(lineItems, i);
        ok, ids, messages := BuyUnits(m, Expanded(lineItems[..i]), lineItems[i], ids, messages, now);
        if !ok {
          assert Expanded(lineItems)[..|Expanded(lineItems[..i + 1])|] == Expanded(lineItems[..i + 1]);
          FailedStays(inventory.schema, m, inventory.AccountId(), Expanded(lineItems), now, |Expanded(lineItems[..i + 1])|);
          return;
        }
      }
      assert lineItems[..|lineItems|] == lineItems;
    }

    /** The loop over the quantity of one line item. */
    method BuyUnits(ghost m: Memory, ghost defs: seq<uint32>, line: Line, ids: seq<uint64>, messages: seq<SingleObject>, now: uint32)
      returns (ok: bool, ids': seq<uint64>, messages': seq<SingleObject>)
      requires |m.items| + |defs + Repeated(line.defIndex, line.quantity)| <= USABLE
      requires Purchase(true, inventory.Current(), ids, messages)
        == BuyAll(inventory.schema, m, inventory.AccountId(), defs, now)
      modifies inventory`items, inventory`lastHighItemId, inventory`version, inventory`statsTimeInitiated
      ensures Purchase(ok, inventory.Current(), ids', messages')
        == BuyAll(inventory.schema, m, inventory.AccountId(), defs + Repeated(line.defIndex, line.quantity), now)
    {
      hide BuyAll, CanBuy, Bought, BoughtMessages;
      ghost var all := defs + Repeated(line.defIndex, line.quantity);
      ok, ids', messages' := true, ids, messages;
      assert defs + Repeated(line.defIndex, 0) == defs;
      for k := 0 to line.quantity
        invariant ok && Purchase(ok, inventory.Current(), ids', messages')
          == BuyAll(inventory.schema, m, inventory.AccountId(), defs + Repeated(line.defIndex, k), now)
      {
        UnitNext(inventory.schema, m, inventory.AccountId(), defs, line, k, now);
        var id, update := inventory.PurchaseItem(line.defIndex, now);
        if id.None? {
          ok := false;
          FailedStays(inventory.schema, m, inventory.AccountId(), all, now, |defs| + k + 1);
          return;
        }
        ids', messages' := ids' + [id.value], messages' + update;
      }
    }

    /** Takes the created items away again. */
    method RemoveItems(ids: seq<uint64>)
      requires Keyed(inventory.items)
      modifies inventory`items, inventory`version, inventory`statsTimeInitiated
      ensures inventory.Current() == RemoveAll(old(inventory.Current()), ids)
    {
      hide RemoveAll;
      ghost var m := inventory.Current();
      RemovalNext(m, ids, 0);
      for i := 0 to |ids|
        invariant inventory.Current() == RemoveAll(m, ids[..i]) && Keyed(inventory.items)
      {
        RemovalNext(m, ids, i);
        var _, _ := inventory.RemoveItem(ids[i]);
      }
      assert ids[..|ids|] == ids;
    }

    /** Publishes new objects to the game and the game server. */
    method Publish(messages: seq<SingleObject>)
      modifies `gameServerEquippedItems, `toGame, `toServer
      ensures Posted() == Sent(old(Posted()), CreateMessages(messages))
    {
      hide Sent;
      SentNext(Posted(), [], Unrelated);
      for i := 0 to |messages|
        invariant Posted() == Sent(old(Posted()), CreateMessages(messages[..i]))
      {
        assert messages[..i + 1][..i] == messages[..i];
        if messages[i].NoObject? {
          assert CreateMessages(messages[..i + 1]) == CreateMessages(messages[..i]);
        } else {
          SentNext(old(Posted()), CreateMessages(messages[..i]), Create(messages[i].version, messages[i].so));
          SendMessageToGame(true, Create(messages[i].version, messages[i].so));
        }
      }
      assert messages[..|messages|] == messages;
    }
  }

  /** What the game server gets of several messages, and the ids it then has equipped. */
  function FilterAll(ids: set<uint64>, ms: seq<Message>): (seq<ServerMessage>, set<uint64>)
    decreases |ms|
  {
    if ms == [] then ([], ids)
    else
      var n := |ms| - 1;
      var (sent, ids1) := FilterAll(ids, ms[..n]);
      var (one, ids2) := Filter(ids1, ms[n]);
      (sent + if one.Some? then [Filtered(one.value)] else [], ids2)
  }

  lemma NothingFiltered(ids: set<uint64>)
    ensures FilterAll(ids, []) == ([], ids)
  {
  }

  lemma FilterNext(ids: set<uint64>, ms: seq<Message>, m: Message)
    ensures var (sent, ids1) := FilterAll(ids, ms);
      var (one, ids2) := Filter(ids1, m);
      FilterAll(ids, ms + [m]) == (sent + if one.Some? then [Filtered(one.value)] else [], ids2)
  {
    hide Filter;
    assert (ms + [m])[..|ms|] == ms;
  }

  lemma RefinedReports(schema: ItemSchema.Schema, accountId: uint32, s: Persisted.Machine, e: Persisted.Event, ok: bool, s': Persisted.Machine)
    requires |s.memory.items| < USABLE && Persisted.Refines(schema, accountId, s, e, ok, s')
    ensures ok <==> Persisted.Reports(schema, s.memory, e.op, e.chosen, e.diskTakesIt)
  {
    hide Persisted.Reports, Persisted.Attempt;
  }

  // ------------------------------------------------------- what the streams say

  function Delivered(cache: Cache, m: ServerMessage): Cache {
    match m
    case Subscribed(_, subscription) => subscription
    case Filtered(message) => Receive(cache, message)
  }

  /** The game server's cache after everything it has been sent. */
  function DeliverAll(cache: Cache, sent: seq<ServerMessage>): Cache
    decreases |sent|
  {
    if sent == [] then cache else Delivered(DeliverAll(cache, sent[..|sent| - 1]), sent[|sent| - 1])
  }

  lemma {:induction false} DeliverJoin(cache: Cache, a: seq<ServerMessage>, b: seq<ServerMessage>)
    ensures DeliverAll(cache, a + b) == DeliverAll(DeliverAll(cache, a), b)
    decreases |b|
  {
    hide Delivered;
    if b == [] {
      assert a + b == a;
    } else {
      assert (a + b)[..|a + b| - 1] == a + b[..|b| - 1];
      DeliverJoin(cache, a, b[..|b| - 1]);
    }
  }

  lemma DeliverOne(cache: Cache, m: ServerMessage)
    ensures DeliverAll(cache, [m]) == Delivered(cache, m) && DeliverAll(cache, []) == cache
  {
    hide Delivered;
    assert [m][..0] == [];
  }

  lemma {:induction false} FilteredKeepsStep(full: Cache, server: Cache, ids: set<uint64>, ms: seq<Message>)
    requires InStep(full, server, ids)
    ensures var (sent, tracked) := FilterAll(ids, ms); InStep(ReceiveAll(full, ms), DeliverAll(server, sent), tracked)
    decreases |ms|
  {
    hide InStep, Filter, Receive, ReceiveAll, DeliverAll;
    InventoryPublishing.NothingCreated(full);
    DeliverOne(server, Filtered(Unrelated));
    if ms != [] {
      var n := |ms| - 1;
      var (sent, tracked) := FilterAll(ids, ms[..n]);
      FilteredKeepsStep(full, server, ids, ms[..n]);
      MessageKeepsStep(ReceiveAll(full, ms[..n]), DeliverAll(server, sent), tracked, ms[n]);
      assert ms == ms[..n] + [ms[n]];
      ReceiveJoin(full, ms[..n], [ms[n]]);
      ReceiveOne(ReceiveAll(full, ms[..n]), ms[n]);
      var (one, _) := Filter(tracked, ms[n]);
      if one.Some? {
        DeliverJoin(server, sent, [Filtered(one.value)]);
        DeliverOne(DeliverAll(server, sent), Filtered(one.value));
      } else {
        assert FilterAll(ids, ms).0 == sent;
      }
    }
  }

  /** The streams, applied to what the game and the server started with, show the inventory. */
  ghost predicate Mirrored(game: Cache, server: Cache, o: Outbox, m: Memory) {
    && ReceiveAll(game, o.toGame) == InventoryPublishing.Shown(m)
    && InStep(InventoryPublishing.Shown(m), DeliverAll(server, o.toServer), o.ids)
  }

  /** So whatever request is handled, the streams show the inventory afterwards. */
  lemma HandlingKeepsMirrored(schema: ItemSchema.Schema, accountId: uint32, game: Cache, server: Cache, o: Outbox, m: Memory,
                              c: InventoryRuns.Change, ms: seq<Message>)
    requires InventoryRuns.Possible(schema, m, c) && Valid(LoadoutOf(m))
    requires InventoryPublishing.Publishes(schema, m, accountId, c, ms) && InventoryPublishing.Heard(schema, m, c)
    requires Mirrored(game, server, o, m)
    ensures Mirrored(game, server, Sent(o, ms), InventoryRuns.After(schema, m, accountId, c))
  {
    hide InventoryRuns.Possible, InventoryRuns.After, Valid, InStep, InventoryPublishing.Publishes, InventoryPublishing.Heard;
    hide ReceiveAll, DeliverAll, FilterAll, InventoryPublishing.Shown;
    InventoryPublishing.ChangeReaches(schema, m, accountId, c, ms);
    ReceiveJoin(game, o.toGame, ms);
    FilteredKeepsStep(InventoryPublishing.Shown(m), DeliverAll(server, o.toServer), o.ids, ms);
    DeliverJoin(server, o.toServer, FilterAll(o.ids, ms).0);
  }

  /** And a cache request of the server starts it. */
  lemma RequestMirrors(game: Cache, server: Cache, o: Outbox, m: Memory, version: uint64)
    requires ReceiveAll(game, o.toGame) == InventoryPublishing.Shown(m)
    ensures Mirrored(game, server, Outbox(o.toGame, o.toServer + [Subscribed(version, ServerSubscription(InventoryPublishing.Shown(m)))],
                                          EquippedPart(m.items).Keys), m)
  {
    hide InStep;
    var subscribed := Subscribed(version, ServerSubscription(InventoryPublishing.Shown(m)));
    RequestIsInStep(InventoryPublishing.Shown(m));
    DeliverJoin(server, o.toServer, [subscribed]);
    DeliverOne(DeliverAll(server, o.toServer), subscribed);
  }

  /** A mission that is selected again advances nothing. */
  lemma MissionVersion(schema: ItemSchema.Schema, accountId: uint32, s: Persisted.Machine, e: Persisted.Event, ok: bool, s': Persisted.Machine)
    requires |s.memory.items| < USABLE && Persisted.Refines(schema, accountId, s, e, ok, s') && e.op.SelectMission?
    ensures s'.memory.version == s.memory.version <==> !ok || Persisted.Idle(s.memory, e.op)
    ensures ok ==> e.op.season in s'.memory.operations
  {
  }

  predicate IsTradeUpRecipe(recipe: int) {
    recipe == -3 || 0 <= recipe <= 5 || 10 <= recipe <= 15
  }

  lemma NothingBought(schema: ItemSchema.Schema, m: Memory, accountId: uint32, now: uint32)
    requires |m.items| <= USABLE
    ensures Expanded([]) == [] && BuyAll(schema, m, accountId, [], now) == Purchase(true, m, [], [])
  {
  }

  lemma {:induction false} ExpandedNext(lines: seq<Line>, i: nat)
    requires i < |lines|
    ensures Expanded(lines[..i + 1]) == Expanded(lines[..i]) + Repeated(lines[i].defIndex, lines[i].quantity)
    ensures Expanded(lines[..i + 1]) <= Expanded(lines)
    decreases |lines|
  {
    assert lines[..i + 1][..i] == lines[..i];
    if i + 1 == |lines| {
      assert lines[..i + 1] == lines;
    } else {
      var n := |lines| - 1;
      assert lines[..n][..i + 1] == lines[..i + 1] && lines[..n][..i] == lines[..i];
      ExpandedNext(lines[..n], i);
    }
  }

  lemma UnitNext(schema: ItemSchema.Schema, m: Memory, accountId: uint32, defs: seq<uint32>, line: Line, k: nat, now: uint32)
    requires k < line.quantity && |m.items| + |defs + Repeated(line.defIndex, line.quantity)| <= USABLE
    ensures var d := line.defIndex;
      var all := defs + Repeated(d, line.quantity);
      var p := BuyAll(schema, m, accountId, defs + Repeated(d, k), now);
      && all[..|defs| + k + 1] == defs + Repeated(d, k + 1)
      && |p.memory.items| < USABLE
      && BuyAll(schema, m, accountId, defs + Repeated(d, k + 1), now) ==
           if !p.ok || !CanBuy(schema, p.memory.items, d) then p.(ok := false) else OneMore(schema, p, accountId, d, now)
  {
    hide BuyAll, CanBuy, OneMore;
    var more := defs + Repeated(line.defIndex, k + 1);
    assert more[..|more| - 1] == defs + Repeated(line.defIndex, k);
    BuyAllNext(schema, m, accountId, more, now);
  }

  lemma RemovalNext(m: Memory, ids: seq<uint64>, i: nat)
    requires Keyed(m.items) && i <= |ids|
    ensures RemoveAll(m, ids[..0]) == m
    ensures Keyed(RemoveAll(m, ids[..i]).items)
    ensures i < |ids| ==>
      var r := RemoveAll(m, ids[..i]);
      RemoveAll(m, ids[..i + 1]) == if ids[i] in r.items then Destroying(r, ids[i]) else r
  {
    RemoveAllRemoves(m, ids[..i]);
    if i < |ids| {
      assert ids[..i + 1][..i] == ids[..i];
    }
  }

  lemma BoughtIsKeyed(schema: ItemSchema.Schema, m: Memory, accountId: uint32, defs: seq<uint32>, now: uint32)
    requires |m.items| + |defs| <= USABLE && Keyed(m.items)
    ensures Keyed(BuyAll(schema, m, accountId, defs, now).memory.items)
  {
    BuyAllAdds(schema, m, accountId, defs, now);
  }

  lemma NoLines()
    ensures Total([]) == 0 && !AsksForSubscription([])
  {
  }

  lemma DirtyNext(ids: set<uint64>, objects: seq<SharedObject>, i: nat)
    requires i < |objects|
    ensures var (kept, ids1) := DirtyAll(ids, objects[..i]);
      var (dirty, ids2) := Dirty(ids1, objects[i], false);
      DirtyAll(ids, objects[..i + 1]) == (if dirty then kept + [objects[i]] else kept, ids2)
  {
    assert objects[..i + 1][..i] == objects[..i];
  }
}
