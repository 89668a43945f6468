/** What all operations of the inventory keep, in any order (inventory.cpp). */
module InventoryRuns {
  import opened Prelude
  import opened Items
  import opened Loadout
  import opened LoadoutTheorems
  import opened ItemSchema
  import opened ItemIds
  import opened InventoryState
  import Persisted
  import Purchases
  import TradeUp
  import Storage
  import Sprays

  /** One call on the inventory. */
  datatype Change =
    | Equips(request: Request)
    | Persists(event: Persisted.Event)
    | Unseals(itemId: uint64)
    | Orders(defs: seq<uint32>, now: uint32)
    | Removes(itemId: uint64)
    | Trades(ids: seq<uint64>, draw: TradeUp.Draw)
    | Stores(op: Storage.Op)

  ghost predicate Possible(schema: Schema, m: Memory, c: Change) {
    if c.Orders? then |m.items| + |c.defs| <= USABLE
    else
      && |m.items| < USABLE
      && match c
         case Unseals(id) => Sprays.IsSpray(schema, m.items, id)
         case Removes(id) => id in m.items
         case Trades(ids, draw) => TradeUp.Decided(schema, m.items, ids, draw)
         case _ => true
  }

  ghost function After(schema: Schema, m: Memory, accountId: uint32, c: Change): Memory
    requires Possible(schema, m, c)
  {
    match c
    case Equips(r) =>
      var l := Equip(LoadoutOf(m), accountId, r).after;
      m.(items := l.items, defaultEquips := l.defaults,
         version := if Equip(LoadoutOf(m), accountId, r).delta == [] then m.version else NextVersion(m.version))
    case Persists(e) =>
      Persisted.Attempt(schema, accountId, Persisted.Machine(m, ImageOf(m)), e.op, e.chosen, e.diskTakesIt).memory
    case Unseals(id) => Sprays.Sprayed(schema, m, accountId, id)
    case Orders(defs, now) => Purchases.AfterOrder(schema, m, accountId, defs, now)
    case Removes(id) => Destroying(m, id)
    case Trades(ids, draw) => TradeUp.Traded(m, accountId, TradeUp.DrawnOutput(schema, draw), ids)
    case Stores(op) =>
      m.(items := Storage.Step(schema, m.items, op), version := AdvancedBy(m.version, Storage.Told(schema, m.items, op)))
  }

  /** Items stay under their own id, and no item is in a slot it was not in before. */
  predicate Calmer(before: map<uint64, Item>, after: map<uint64, Item>) {
    forall id <- after ::
      && after[id].id == id
      && (after[id].equipped == [] || (id in before && after[id].equipped == before[id].equipped))
  }

  lemma CalmerKeepsValid(l: Loadout, after: map<uint64, Item>)
    requires Valid(l) && Calmer(l.items, after)
    ensures Valid(l.(items := after))
  {
  }

  lemma CalmerTwice(a: map<uint64, Item>, b: map<uint64, Item>, c: map<uint64, Item>)
    requires Calmer(a, b) && Calmer(b, c)
    ensures Calmer(a, c)
  {
  }

  lemma ReplacedIsCalmer(items: map<uint64, Item>, id: uint64, item: Item)
    requires Keyed(items) && item.id == id && (item.equipped == [] || (id in items && item.equipped == items[id].equipped))
    ensures Calmer(items, items[id := item])
  {
  }

  lemma FewerIsCalmer(items: map<uint64, Item>, gone: set<uint64>)
    requires Keyed(items)
    ensures Calmer(items, items - gone)
  {
  }

  lemma AddingIsCalmer(m: Memory, accountId: uint32, item: Item)
    requires |m.items| < USABLE && Keyed(m.items) && item.equipped == []
    ensures Calmer(m.items, Adding(m, accountId, item).items)
  {
    hide NextId, NextHigh;
    AddingItems(m, accountId, item);
    var id := NextId(m, accountId);
    ReplacedIsCalmer(m.items, id, item.(id := id, accountId := accountId));
  }

  lemma DestroyingIsCalmer(m: Memory, id: uint64)
    requires Keyed(m.items) && id in m.items
    ensures Calmer(m.items, Destroying(m, id).items)
  {
    FewerIsCalmer(m.items, {id});
  }

  lemma AttributesAreCalm(items: map<uint64, Item>, id: uint64, attributes: seq<Attribute>)
    requires Keyed(items) && id in items
    ensures Calmer(items, items[id := items[id].(attributes := attributes)])
  {
  }

  // --------------------------------------------------------- each operation

  lemma StoreIsCalmer(schema: Schema, items: map<uint64, Item>, op: Storage.Op)
    requires Keyed(items)
    ensures Calmer(items, Storage.Step(schema, items, op))
  {
    hide Storage.Counted, Storage.Embedded, Storage.Stripped, Storage.Named, Storage.Prepared, Storage.Reference;
    match op
    case Deposit(s, i, now) =>
      if Storage.DepositResult(schema, items, s, i, now) == Storage.Success {
        var casket := Storage.CountedCasket(schema, items[s], 1, now);
        assert casket.equipped == items[s].equipped && casket.id == s;
      }
    case Withdraw(s, i, now) =>
      if Storage.WithdrawResult(schema, items, s, i, now) == Storage.Success {
        var casket := Storage.CountedCasket(schema, items[s], -1, now);
        assert casket.equipped == items[s].equipped && casket.id == s;
      }
    case NameCasket(_, _, _) =>
  }

  lemma TradeIsCalmer(schema: Schema, m: Memory, accountId: uint32, ids: seq<uint64>, output: Item)
    requires |m.items| < USABLE && Keyed(m.items) && output.equipped == []
    ensures Calmer(m.items, TradeUp.Traded(m, accountId, output, ids).items)
  {
    hide Purchases.RemoveAll, Adding;
    var added := Adding(m, accountId, output);
    AddingIsCalmer(m, accountId, output);
    Purchases.RemoveAllRemoves(added, ids);
    FewerIsCalmer(added.items, set id | id in ids);
    CalmerTwice(m.items, added.items, added.items - (set id | id in ids));
  }

  lemma PassIsCalmer(schema: Schema, m: Memory, accountId: uint32, id: uint64, pass: SeasonPass, now: uint32)
    requires |m.items| < USABLE && Keyed(m.items) && id in m.items
    ensures var after := Persisted.PassUsed(schema, m, accountId, id, pass, now);
      Calmer(m.items, after.items) && after.defaultEquips == m.defaultEquips
  {
    hide Adding, Calmer;
    var created := Creating(schema, m, accountId, pass.coinDefIndex, ORIGIN_PURCHASED, UNACKNOWLEDGED_PURCHASED);
    var coin := Created(schema, EmptyItem(0, accountId), pass.coinDefIndex, ORIGIN_PURCHASED, UNACKNOWLEDGED_PURCHASED);
    AddingThenDestroying(m, accountId, coin, id);
  }

  lemma AddingThenDestroying(m: Memory, accountId: uint32, item: Item, id: uint64)
    requires |m.items| < USABLE && Keyed(m.items) && id in m.items && item.equipped == []
    ensures var added := Adding(m, accountId, item);
      id in added.items && Calmer(m.items, Destroying(added, id).items) && Destroying(added, id).defaultEquips == m.defaultEquips
  {
    hide NextId;
    AddingItems(m, accountId, item);
    AddingIsCalmer(m, accountId, item);
    var added := Adding(m, accountId, item);
    DestroyingIsCalmer(added, id);
    CalmerTwice(m.items, added.items, Destroying(added, id).items);
  }

  lemma AccessIsCalmer(schema: Schema, m: Memory, accountId: uint32, id: uint64, access: TournamentAccess, journal: Option<uint64>)
    requires |m.items| < USABLE && Keyed(m.items) && id in m.items && (journal.Some? ==> journal.value in m.items)
    ensures var after := Persisted.AccessUsed(schema, m, accountId, id, access, journal);
      Calmer(m.items, after.items) && after.defaultEquips == m.defaultEquips
  {
    hide Adding, Calmer, Created, Persisted.SetOrAdd;
    match journal
    case None =>
      var created := Created(schema, EmptyItem(0, accountId), access.journalDefIndex, ORIGIN_PURCHASED, UNACKNOWLEDGED_PURCHASED);
      CreatedIsCalm(schema, accountId, access.journalDefIndex);
      AddingThenDestroying(m, accountId, if access.includedTokens == 0 then created
        else Persisted.WithAttribute(schema, created, ATTRIBUTE_DROPS_AWARDED_PURCHASED, access.includedTokens), id);
    case Some(journalId) =>
      var stored := Persisted.JournalStored(schema, m, accountId, access, journal);
      AttributesAreCalm(m.items, journalId, stored.items[journalId].attributes);
      CalmIsKeyed(m.items, stored.items);
      DestroyingIsCalmer(stored, id);
      CalmerTwice(m.items, stored.items, Destroying(stored, id).items);
  }

  lemma CreatedIsCalm(schema: Schema, accountId: uint32, d: uint32)
    ensures Created(schema, EmptyItem(0, accountId), d, ORIGIN_PURCHASED, UNACKNOWLEDGED_PURCHASED).equipped == []
  {
  }

  lemma CalmIsKeyed(before: map<uint64, Item>, after: map<uint64, Item>)
    requires Calmer(before, after)
    ensures Keyed(after)
  {
  }

  lemma ClaimIsCalmer(schema: Schema, m: Memory, accountId: uint32, d: uint32, upgrade: Option<uint64>)
    requires |m.items| < USABLE && Keyed(m.items) && (upgrade.Some? ==> upgrade.value in m.items)
    ensures var after := Persisted.Claimed(schema, m, accountId, d, upgrade);
      Calmer(m.items, after.items) && after.defaultEquips == m.defaultEquips
  {
    hide Adding, Calmer;
    Persisted.GrantedItems(schema, m, accountId, d, upgrade);
    match upgrade
    case Some(id) => ReplacedIsCalmer(m.items, id, m.items[id].(defIndex := d));
    case None =>
      AddingIsCalmer(m, accountId,
        Created(schema, EmptyItem(0, accountId), d, ORIGIN_LEVEL_UP_REWARD, UNACKNOWLEDGED_LEVEL_UP_REWARD));
  }

  lemma PerformedIsCalmer(schema: Schema, m: Memory, accountId: uint32, op: Persisted.Op, chosen: Option<uint64>)
    requires |m.items| < USABLE && Keyed(m.items) && Persisted.Accepts(schema, m, op, chosen)
    ensures Calmer(m.items, Persisted.Performed(schema, m, accountId, op, chosen).items)
    ensures Persisted.Performed(schema, m, accountId, op, chosen).defaultEquips == m.defaultEquips
  {
    hide Adding, Persisted.SetOrAdd, Persisted.FirstNumber;
    match op
    case ClaimMedal(_, d) => ClaimIsCalmer(schema, m, accountId, d, chosen);
    case Use(id, now) =>
      var d := m.items[id].defIndex;
      if d in schema.tournamentAccess {
        AccessIsCalmer(schema, m, accountId, id, schema.tournamentAccess[d], chosen);
      } else {
        PassIsCalmer(schema, m, accountId, id, schema.seasonPasses[d], now);
      }
    case SelectMission(_, _) =>
    case ModifyAttribute(_, _, _) =>
    case AddKills(_, _) =>
    case Favorite(_, _) =>
  }

  lemma AttemptIsCalmer(schema: Schema, m: Memory, accountId: uint32, e: Persisted.Event)
    requires |m.items| < USABLE && Keyed(m.items)
    ensures var after := Persisted.Attempt(schema, accountId, Persisted.Machine(m, ImageOf(m)), e.op, e.chosen, e.diskTakesIt).memory;
      Calmer(m.items, after.items) && after.defaultEquips == m.defaultEquips
  {
    hide Persisted.Accepts, Persisted.Performed, ImageOf;
    if Persisted.Accepts(schema, m, e.op, e.chosen) {
      PerformedIsCalmer(schema, m, accountId, e.op, e.chosen);
    }
  }

  // ------------------------------------------------------------------ all runs

  /** Whatever the inventory does, every slot keeps at most one occupant and every item its id. */
  lemma ChangeKeepsValid(schema: Schema, m: Memory, accountId: uint32, c: Change)
    requires Possible(schema, m, c) && Valid(LoadoutOf(m))
    ensures Valid(LoadoutOf(After(schema, m, accountId, c)))
  {
    var after := After(schema, m, accountId, c);
    if c.Equips? {
      DeltaReplaysToSnapshot(LoadoutOf(m), accountId, c.request);
    } else if c.Unseals? {
      Sprays.SprayedIsValid(schema, m, accountId, c.itemId);
    } else {
      hide Valid, Equip;
      ValidIsKeyed(LoadoutOf(m));
      OthersAreCalmer(schema, m, accountId, c);
      CalmerKeepsValid(LoadoutOf(m), after.items);
    }
  }

  lemma OthersAreCalmer(schema: Schema, m: Memory, accountId: uint32, c: Change)
    requires Possible(schema, m, c) && Keyed(m.items) && !c.Equips? && !c.Unseals?
    ensures var after := After(schema, m, accountId, c);
      Calmer(m.items, after.items) && after.defaultEquips == m.defaultEquips
  {
    hide Calmer, Adding, Persisted.Attempt, Purchases.RemoveAll, Storage.Step, TradeUp.Decided, TradeUp.DrawnOutput, Created;
    match c
    case Persists(e) => AttemptIsCalmer(schema, m, accountId, e);
    case Orders(defs, now) => OrderIsCalmer(schema, m, accountId, defs, now);
    case Removes(id) => DestroyingIsCalmer(m, id);
    case Trades(ids, draw) =>
      TradeUp.DecidedMeaning(schema, m.items, ids, draw);
      TradedKeepsDefaults(schema, m, accountId, ids, draw);
    case Stores(op) => StoreIsCalmer(schema, m.items, op);
  }

  lemma OrderIsCalmer(schema: Schema, m: Memory, accountId: uint32, defs: seq<uint32>, now: uint32)
    requires |m.items| + |defs| <= USABLE && Keyed(m.items)
    ensures var after := Purchases.AfterOrder(schema, m, accountId, defs, now);
      Calmer(m.items, after.items) && after.defaultEquips == m.defaultEquips
  {
    hide Purchases.AfterOrder, Purchases.BuyAll;
    var p := Purchases.BuyAll(schema, m, accountId, defs, now);
    Purchases.AfterOrderItems(schema, m, accountId, defs, now);
    forall id | id in p.memory.items
      ensures p.memory.items[id].id == id
      ensures p.memory.items[id].equipped == [] || (id in m.items && p.memory.items[id].equipped == m.items[id].equipped)
    {
      if id in p.ids {
        var k :| 0 <= k < |p.ids| && p.ids[k] == id;
        assert p.memory.items[id] == Purchases.Received(schema, accountId, id, defs[k]);
      }
    }
  }

  lemma TradedKeepsDefaults(schema: Schema, m: Memory, accountId: uint32, ids: seq<uint64>, draw: TradeUp.Draw)
    requires |m.items| < USABLE && Keyed(m.items)
    requires draw.Draw? && draw.entry.itemInfo.Some? && draw.entry.paintKitInfo.Some? && draw.contract.rarity <= RARITY_LEGENDARY
    ensures var after := TradeUp.Traded(m, accountId, TradeUp.DrawnOutput(schema, draw), ids);
      Calmer(m.items, after.items) && after.defaultEquips == m.defaultEquips
  {
    hide Purchases.RemoveAll;
    TradeIsCalmer(schema, m, accountId, ids, TradeUp.DrawnOutput(schema, draw));
    Purchases.RemoveAllRemoves(Adding(m, accountId, TradeUp.DrawnOutput(schema, draw)), ids);
  }

  ghost predicate IsRun(schema: Schema, accountId: uint32, states: seq<Memory>, changes: seq<Change>) {
    && |states| == |changes| + 1
    && forall i :: 0 <= i < |changes| ==>
         Possible(schema, states[i], changes[i]) && states[i + 1] == After(schema, states[i], accountId, changes[i])
  }

  lemma {:induction false} RunKeepsValid(schema: Schema, accountId: uint32, states: seq<Memory>, changes: seq<Change>, n: nat)
    requires IsRun(schema, accountId, states, changes) && Valid(LoadoutOf(states[0])) && n <= |changes|
    ensures Valid(LoadoutOf(states[n]))
  {
    if n > 0 {
      hide Valid, After, Possible;
      RunKeepsValid(schema, accountId, states, changes, n - 1);
      ChangeKeepsValid(schema, states[n - 1], accountId, changes[n - 1]);
    }
  }
}
