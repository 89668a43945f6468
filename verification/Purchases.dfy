/**
 Buying: one item at a time, and the two-phase store purchase, in which a client first
 registers an order and then finalizes it (inventory.cpp, gc_client.cpp).
 */
module Purchases {
  import opened Prelude
  import opened Items
  import opened ItemSchema
  import opened ItemIds
  import opened InventoryState

  const MAX_ITEMS := 1024

  // --------------------------------------------------------------- one item

  predicate CanBuy(schema: Schema, items: map<uint64, Item>, defIndex: uint32) {
    && defIndex in schema.creatable
    && !(defIndex == ITEM_STATS_SUBSCRIPTION && HasDefinition(items, defIndex))
  }

  ghost function Bought(schema: Schema, m: Memory, accountId: uint32, defIndex: uint32, now: uint32): Memory
    requires |m.items| < USABLE
  {
    var created := Creating(schema, m, accountId, defIndex, ORIGIN_PURCHASED, UNACKNOWLEDGED_PURCHASED);
    if defIndex == ITEM_STATS_SUBSCRIPTION then created.(statsTimeInitiated := now, version := NextVersion(NextVersion(m.version)))
    else created.(version := NextVersion(m.version))
  }

  ghost function BoughtMessages(m: Memory, after: Memory, accountId: uint32, defIndex: uint32): seq<SingleObject>
    requires |m.items| < USABLE && NextId(m, accountId) in after.items
  {
    Announcement(NextVersion(m.version), after.items[NextId(m, accountId)], defIndex, after.statsTimeInitiated)
  }

  /** The new item, and for a stats subscription when it began. */
  function Announcement(version: uint64, item: Item, defIndex: uint32, time: uint32): seq<SingleObject> {
    [SingleObject(version, ItemObject(item))]
    + if defIndex == ITEM_STATS_SUBSCRIPTION then [SingleObject(NextVersion(version), SubscriptionObject(time))] else []
  }

  /** A stats subscription begins when it is bought, which is announced, and no other purchase touches it. */
  lemma SubscriptionBegins(schema: Schema, m: Memory, accountId: uint32, defIndex: uint32, now: uint32)
    requires |m.items| < USABLE
    ensures var after := Bought(schema, m, accountId, defIndex, now);
      && NextId(m, accountId) in after.items
      && after.statsTimeInitiated == (if defIndex == 4748 then now else m.statsTimeInitiated)
      && (forall n: SingleObject :: n in BoughtMessages(m, after, accountId, defIndex) && n.SingleObject? && n.so.SubscriptionObject? ==>
            n.so.timeInitiated == now)
      && (defIndex == 4748 <==> exists n <- BoughtMessages(m, after, accountId, defIndex) :: n.SingleObject? && n.so.SubscriptionObject?)
  {
    hide NextId;
    AddingItems(m, accountId, Created(schema, EmptyItem(0, accountId), defIndex, ORIGIN_PURCHASED, UNACKNOWLEDGED_PURCHASED));
    var after := Bought(schema, m, accountId, defIndex, now);
    if defIndex == 4748 {
      assert BoughtMessages(m, after, accountId, defIndex)[1] in BoughtMessages(m, after, accountId, defIndex);
    }
  }

  /** It ends when it is removed, and no other removal touches it. */
  lemma SubscriptionEnds(m: Memory, id: uint64)
    requires id in m.items
    ensures Destroying(m, id).statsTimeInitiated == if m.items[id].defIndex == 4748 then 0 else m.statsTimeInitiated
  {
  }

  // -------------------------------------------------------------- many items

  /** What came of buying several items one after the other, up to the first that cannot be had. */
  datatype Purchase = Purchase(ok: bool, memory: Memory, ids: seq<uint64>, messages: seq<SingleObject>)

  ghost function OneMore(schema: Schema, p: Purchase, accountId: uint32, d: uint32, now: uint32): Purchase
    requires |p.memory.items| < USABLE
  {
    var after := Bought(schema, p.memory, accountId, d, now);
    Purchase(true, after, p.ids + [NextId(p.memory, accountId)],
             p.messages + BoughtMessages(p.memory, after, accountId, d))
  }

  ghost function BuyAll(schema: Schema, m: Memory, accountId: uint32, defs: seq<uint32>, now: uint32): (p: Purchase)
    requires |m.items| + |defs| <= USABLE
    ensures |p.memory.items| <= |m.items| + |defs|
    decreases |defs|
  {
    if defs == [] then Purchase(true, m, [], [])
    else
      var n := |defs| - 1;
      var p := BuyAll(schema, m, accountId, defs[..n], now);
      if !p.ok || !CanBuy(schema, p.memory.items, defs[n]) then p.(ok := false)
      else
        OneMore(schema, p, accountId, defs[n], now)
  }

  function RemoveAll(m: Memory, ids: seq<uint64>): Memory
    decreases |ids|
  {
    if ids == [] then m
    else
      var n := |ids| - 1;
      var r := RemoveAll(m, ids[..n]);
      if ids[n] in r.items then Destroying(r, ids[n]) else r
  }

  /** What an order makes of the memory: everything bought, or what could be bought taken away again. */
  ghost function AfterOrder(schema: Schema, m: Memory, accountId: uint32, defs: seq<uint32>, now: uint32): Memory
    requires |m.items| + |defs| <= USABLE
  {
    var p := BuyAll(schema, m, accountId, defs, now);
    if p.ok then p.memory else RemoveAll(p.memory, p.ids)
  }

  predicate Distinct(ids: seq<uint64>) {
    forall i, j :: 0 <= i < j < |ids| ==> ids[i] != ids[j]
  }

  function Received(schema: Schema, accountId: uint32, id: uint64, defIndex: uint32): Item {
    Created(schema, EmptyItem(id, accountId), defIndex, ORIGIN_PURCHASED, UNACKNOWLEDGED_PURCHASED)
  }

  /** The new items are exactly those with these ids, made of these definitions in turn; nothing else changed. */
  ghost predicate Adds(schema: Schema, accountId: uint32, m: Memory, after: Memory, ids: seq<uint64>, defs: seq<uint32>) {
    && |ids| <= |defs| && Distinct(ids)
    && after.items.Keys == m.items.Keys + (set id | id in ids)
    && (forall id <- ids :: id !in m.items && !IsDefaultItemId(id))
    && (forall id <- m.items :: after.items[id] == m.items[id])
    && (forall k :: 0 <= k < |ids| ==> after.items[ids[k]] == Received(schema, accountId, ids[k], defs[k]))
    && after == m.(items := after.items, version := after.version, lastHighItemId := after.lastHighItemId,
                   statsTimeInitiated := after.statsTimeInitiated)
  }

  lemma BoughtAdds(schema: Schema, m: Memory, accountId: uint32, defIndex: uint32, now: uint32)
    requires |m.items| < USABLE
    ensures var id, after := NextId(m, accountId), Bought(schema, m, accountId, defIndex, now);
      && id !in m.items && !IsDefaultItemId(id)
      && after.items == m.items[id := Received(schema, accountId, id, defIndex)]
      && after == m.(items := after.items, version := after.version, lastHighItemId := after.lastHighItemId,
                     statsTimeInitiated := after.statsTimeInitiated)
  {
    NewIdIsFresh(m, accountId);
  }

  lemma AddsOneMore(schema: Schema, accountId: uint32, m: Memory, p: Memory, ids: seq<uint64>, defs: seq<uint32>, d: uint32, id: uint64, after: Memory)
    requires |ids| == |defs| && Adds(schema, accountId, m, p, ids, defs)
    requires id !in p.items && !IsDefaultItemId(id)
    requires after.items == p.items[id := Received(schema, accountId, id, d)]
    requires after == p.(items := after.items, version := after.version, lastHighItemId := after.lastHighItemId,
                         statsTimeInitiated := after.statsTimeInitiated)
    ensures Adds(schema, accountId, m, after, ids + [id], defs + [d])
  {
    hide Received;
    var more := ids + [id];
    assert forall i :: i in more <==> i in ids || i == id;
    assert forall k :: 0 <= k < |ids| ==> more[k] == ids[k] && ids[k] in ids;
  }

  lemma AddsNothing(schema: Schema, accountId: uint32, m: Memory)
    ensures Adds(schema, accountId, m, m, [], [])
  {
  }

  lemma BuyAllNext(schema: Schema, m: Memory, accountId: uint32, defs: seq<uint32>, now: uint32)
    requires |m.items| + |defs| <= USABLE && defs != []
    ensures var n := |defs| - 1;
      var p := BuyAll(schema, m, accountId, defs[..n], now);
      BuyAll(schema, m, accountId, defs, now) ==
        if !p.ok || !CanBuy(schema, p.memory.items, defs[n]) then p.(ok := false)
        else OneMore(schema, p, accountId, defs[n], now)
  {
  }

  /** Buying creates one new item per definition, up to the first that cannot be had. */
  lemma {:induction false} BuyAllAdds(schema: Schema, m: Memory, accountId: uint32, defs: seq<uint32>, now: uint32)
    requires |m.items| + |defs| <= USABLE
    ensures var p := BuyAll(schema, m, accountId, defs, now);
      Adds(schema, accountId, m, p.memory, p.ids, defs) && (p.ok ==> |p.ids| == |defs|)
    decreases |defs|
  {
    hide Adds, Bought, CanBuy;
    if defs == [] {
      AddsNothing(schema, accountId, m);
    } else {
      hide BuyAll;
      BuyAllNext(schema, m, accountId, defs, now);
      var n := |defs| - 1;
      var p := BuyAll(schema, m, accountId, defs[..n], now);
      BuyAllAdds(schema, m, accountId, defs[..n], now);
      assert defs == defs[..n] + [defs[n]];
      if p.ok && CanBuy(schema, p.memory.items, defs[n]) {
        BoughtAdds(schema, p.memory, accountId, defs[n], now);
        AddsOneMore(schema, accountId, m, p.memory, p.ids, defs[..n], defs[n], NextId(p.memory, accountId),
                    Bought(schema, p.memory, accountId, defs[n], now));
      } else {
        AddsIsMonotone(schema, accountId, m, p.memory, p.ids, defs[..n], defs);
      }
    }
  }

  lemma AddsIsMonotone(schema: Schema, accountId: uint32, m: Memory, p: Memory, ids: seq<uint64>, some: seq<uint32>, defs: seq<uint32>)
    requires some <= defs && Adds(schema, accountId, m, p, ids, some)
    ensures Adds(schema, accountId, m, p, ids, defs)
  {
  }

  // ---------------------------------------------------------------- rollback

  /** No definition but the stats subscription's own makes a stats subscription. */
  predicate SubscriptionSchema(schema: Schema) {
    forall d <- schema.creatable :: schema.creatable[d].defIndex == ITEM_STATS_SUBSCRIPTION <==> d == ITEM_STATS_SUBSCRIPTION
  }

  lemma {:induction false} RemoveAllRemoves(m: Memory, ids: seq<uint64>)
    ensures var r := RemoveAll(m, ids);
      && r.items == m.items - (set id | id in ids)
      && r == m.(items := r.items, version := r.version, statsTimeInitiated := r.statsTimeInitiated)
      && ((forall id <- ids :: id in m.items ==> m.items[id].defIndex != ITEM_STATS_SUBSCRIPTION)
            ==> r.statsTimeInitiated == m.statsTimeInitiated)
    decreases |ids|
  {
    if ids != [] {
      var n := |ids| - 1;
      RemoveAllRemoves(m, ids[..n]);
      assert ids == ids[..n] + [ids[n]];
      assert forall id :: id in ids <==> id in ids[..n] || id == ids[n];
    }
  }

  lemma {:induction false} OnlyThroughSubscription(schema: Schema, m: Memory, accountId: uint32, defs: seq<uint32>, now: uint32)
    requires |m.items| + |defs| <= USABLE && ITEM_STATS_SUBSCRIPTION !in defs
    ensures BuyAll(schema, m, accountId, defs, now).memory.statsTimeInitiated == m.statsTimeInitiated
    decreases |defs|
  {
    if defs != [] {
      var n := |defs| - 1;
      assert forall d :: d in defs[..n] ==> d in defs;
      OnlyThroughSubscription(schema, m, accountId, defs[..n], now);
    }
  }

  lemma AddedCanGo(schema: Schema, accountId: uint32, m: Memory, after: Memory, ids: seq<uint64>, defs: seq<uint32>)
    requires Adds(schema, accountId, m, after, ids, defs)
    ensures after.items - (set id | id in ids) == m.items && after.defaultEquips == m.defaultEquips
  {
    hide Received;
  }

  /** The items are those there were and, if the order goes through, the ordered ones. */
  lemma AfterOrderItems(schema: Schema, m: Memory, accountId: uint32, defs: seq<uint32>, now: uint32)
    requires |m.items| + |defs| <= USABLE
    ensures var p, s := BuyAll(schema, m, accountId, defs, now), AfterOrder(schema, m, accountId, defs, now);
      && Adds(schema, accountId, m, p.memory, p.ids, defs)
      && s.items == (if p.ok then p.memory.items else m.items) && s.defaultEquips == m.defaultEquips
  {
    hide Adds, BuyAll, RemoveAll;
    var p := BuyAll(schema, m, accountId, defs, now);
    BuyAllAdds(schema, m, accountId, defs, now);
    RemoveAllRemoves(p.memory, p.ids);
    AddedCanGo(schema, accountId, m, p.memory, p.ids, defs);
  }

  predicate OrdersSubscription(defs: seq<uint32>) {
    ITEM_STATS_SUBSCRIPTION in defs
  }

  /** The order has creatable items only and at most one stats subscription. */
  predicate Orderable(schema: Schema, defs: seq<uint32>) {
    && (forall d <- defs :: d in schema.creatable)
    && forall i, j :: 0 <= i < j < |defs| ==> defs[i] != ITEM_STATS_SUBSCRIPTION || defs[j] != ITEM_STATS_SUBSCRIPTION
  }

  /** Whether an order goes through, seen before it is tried. */
  lemma {:induction false} OrderSucceeds(schema: Schema, m: Memory, accountId: uint32, defs: seq<uint32>, now: uint32)
    requires |m.items| + |defs| <= USABLE && SubscriptionSchema(schema) && Orderable(schema, defs)
    ensures BuyAll(schema, m, accountId, defs, now).ok <==>
      !(OrdersSubscription(defs) && HasDefinition(m.items, ITEM_STATS_SUBSCRIPTION))
    decreases |defs|
  {
    if defs != [] {
      hide Adds, SubscriptionSchema, Bought, HasDefinition, BuyAll;
      BuyAllNext(schema, m, accountId, defs, now);
      var n := |defs| - 1;
      var some, last := defs[..n], defs[n];
      assert defs == some + [last];
      assert forall d :: d in some ==> d in defs;
      assert last in defs;
      OrderSucceeds(schema, m, accountId, some, now);
      BuyAllAdds(schema, m, accountId, some, now);
      var p := BuyAll(schema, m, accountId, some, now);
      if last == ITEM_STATS_SUBSCRIPTION {
        assert !OrdersSubscription(some);
        NoNewSubscription(schema, accountId, m, p.memory, p.ids, some);
      }
    }
  }

  lemma NoNewSubscription(schema: Schema, accountId: uint32, m: Memory, after: Memory, ids: seq<uint64>, defs: seq<uint32>)
    requires SubscriptionSchema(schema) && Adds(schema, accountId, m, after, ids, defs)
    requires !OrdersSubscription(defs)
    ensures forall id <- ids :: after.items[id].defIndex != ITEM_STATS_SUBSCRIPTION
    ensures HasDefinition(after.items, ITEM_STATS_SUBSCRIPTION) <==> HasDefinition(m.items, ITEM_STATS_SUBSCRIPTION)
  {
    forall id | id in ids
      ensures after.items[id].defIndex != ITEM_STATS_SUBSCRIPTION
    {
      var k :| 0 <= k < |ids| && ids[k] == id;
      assert defs[k] in defs;
    }
    if HasDefinition(m.items, ITEM_STATS_SUBSCRIPTION) {
      var id :| id in m.items && m.items[id].defIndex == ITEM_STATS_SUBSCRIPTION;
      assert after.items[id].defIndex == ITEM_STATS_SUBSCRIPTION;
    }
  }

  lemma AddsThenRemoves(schema: Schema, accountId: uint32, m: Memory, after: Memory, ids: seq<uint64>, defs: seq<uint32>)
    requires SubscriptionSchema(schema) && Adds(schema, accountId, m, after, ids, defs)
    requires !OrdersSubscription(defs) && after.statsTimeInitiated == m.statsTimeInitiated
    ensures var r := RemoveAll(after, ids);
      r == m.(version := r.version, lastHighItemId := r.lastHighItemId)
  {
    hide SubscriptionSchema, OrdersSubscription, Received, RemoveAll;
    NoNewSubscription(schema, accountId, m, after, ids, defs);
    RemoveAllRemoves(after, ids);
    assert RemoveAll(after, ids).items == m.items;
  }

  /** A failed order is undone: the items and the time of the stats subscription are what they were. */
  lemma FailedOrderIsUndone(schema: Schema, m: Memory, accountId: uint32, defs: seq<uint32>, now: uint32)
    requires |m.items| + |defs| <= USABLE && SubscriptionSchema(schema) && Orderable(schema, defs)
    ensures var p := BuyAll(schema, m, accountId, defs, now);
      !p.ok ==>
        var r := RemoveAll(p.memory, p.ids);
        r == m.(version := r.version, lastHighItemId := r.lastHighItemId)
  {
    hide Adds, BuyAll, RemoveAll, SubscriptionSchema, Orderable;
    var p := BuyAll(schema, m, accountId, defs, now);
    if !p.ok {
      var some := FailedAt(schema, m, accountId, defs, now);
      BuyAllAdds(schema, m, accountId, some, now);
      OnlyThroughSubscription(schema, m, accountId, some, now);
      AddsThenRemoves(schema, accountId, m, p.memory, p.ids, some);
    }
  }

  /** What was bought when an order fails: everything before the stats subscription. */
  lemma {:induction false} FailedAt(schema: Schema, m: Memory, accountId: uint32, defs: seq<uint32>, now: uint32) returns (some: seq<uint32>)
    requires |m.items| + |defs| <= USABLE && SubscriptionSchema(schema) && Orderable(schema, defs)
    requires !BuyAll(schema, m, accountId, defs, now).ok
    ensures some <= defs && !OrdersSubscription(some)
    ensures BuyAll(schema, m, accountId, some, now).(ok := false) == BuyAll(schema, m, accountId, defs, now)
    decreases |defs|
  {
    var n := |defs| - 1;
    assert forall d :: d in defs[..n] ==> d in defs;
    assert defs[n] in defs;
    if BuyAll(schema, m, accountId, defs[..n], now).ok {
      some := defs[..n];
      OrderSucceeds(schema, m, accountId, defs, now);
      OrderSucceeds(schema, m, accountId, defs[..n], now);
    } else {
      some := FailedAt(schema, m, accountId, defs[..n], now);
    }
  }

  // ----------------------------------------------------------------- publishing

  /** A client's cache after one object has been created in it. */
  function Create(cache: Cache, message: SingleObject): Cache {
    if message.SingleObject? then Apply(cache, message.so) else cache
  }

  function Creations(cache: Cache, messages: seq<SingleObject>): Cache
    decreases messages
  {
    if messages == [] then cache else Creations(Create(cache, messages[0]), messages[1..])
  }

  lemma {:induction false} CreationsJoin(cache: Cache, a: seq<SingleObject>, b: seq<SingleObject>)
    ensures Creations(cache, a + b) == Creations(Creations(cache, a), b)
    decreases a
  {
    hide Create;
    if a == [] {
      assert a + b == b;
    } else {
      assert (a + b)[1..] == a[1..] + b;
      CreationsJoin(Create(cache, a[0]), a[1..], b);
    }
  }

  lemma CreationsOfOne(cache: Cache, m: SingleObject)
    ensures Creations(cache, [m]) == Create(cache, m)
  {
    hide Create;
    assert [m][1..] == [];
  }

  /** The published messages bring a client's items up to date. */
  lemma {:induction false} PurchasesReachClient(schema: Schema, m: Memory, accountId: uint32, defs: seq<uint32>, now: uint32, cache: Cache)
    requires |m.items| + |defs| <= USABLE && cache.items == m.items
    ensures var p := BuyAll(schema, m, accountId, defs, now);
      Creations(cache, p.messages) == cache.(items := p.memory.items)
    decreases |defs|
  {
    if defs != [] {
      hide Bought, CanBuy, BuyAll;
      BuyAllNext(schema, m, accountId, defs, now);
      var n := |defs| - 1;
      PurchasesReachClient(schema, m, accountId, defs[..n], now, cache);
      var p := BuyAll(schema, m, accountId, defs[..n], now);
      if p.ok && CanBuy(schema, p.memory.items, defs[n]) {
        OneMoreReaches(schema, p, accountId, defs[n], now, cache);
      }
    }
  }

  lemma OneMoreReaches(schema: Schema, p: Purchase, accountId: uint32, d: uint32, now: uint32, cache: Cache)
    requires |p.memory.items| < USABLE && Creations(cache, p.messages) == cache.(items := p.memory.items)
    ensures var after := OneMore(schema, p, accountId, d, now);
      Creations(cache, after.messages) == cache.(items := after.memory.items)
  {
    hide Bought, BoughtMessages, Creations, NextId, Received;
    var id, after := NextId(p.memory, accountId), Bought(schema, p.memory, accountId, d, now);
    BoughtAdds(schema, p.memory, accountId, d, now);
    HasOwnId(schema, accountId, id, d);
    MessagesReach(p.memory, after, accountId, d, cache, p.messages);
  }

  lemma MessagesReach(m: Memory, after: Memory, accountId: uint32, d: uint32, cache: Cache, messages: seq<SingleObject>)
    requires |m.items| < USABLE && Creations(cache, messages) == cache.(items := m.items)
    requires var id := NextId(m, accountId);
      id in after.items && after.items[id].id == id && after.items == m.items[id := after.items[id]]
    ensures Creations(cache, messages + BoughtMessages(m, after, accountId, d)) == cache.(items := after.items)
  {
    hide NextId, Creations, NextVersion, Announcement;
    var full, item := cache.(items := m.items), after.items[NextId(m, accountId)];
    CreationsJoin(cache, messages, BoughtMessages(m, after, accountId, d));
    AnnouncementCreates(full, NextVersion(m.version), item, d, after.statsTimeInitiated);
    assert m.items[item.id := item] == after.items;
  }

  lemma AnnouncementCreates(cache: Cache, version: uint64, item: Item, d: uint32, time: uint32)
    ensures Creations(cache, Announcement(version, item, d, time)) == cache.(items := cache.items[item.id := item])
  {
    hide Creations, Apply;
    var one, two := SingleObject(version, ItemObject(item)), SingleObject(NextVersion(version), SubscriptionObject(time));
    CreationsJoin(cache, [one], if d == ITEM_STATS_SUBSCRIPTION then [two] else []);
    CreationsOfOne(cache, one);
    CreationsOfOne(Apply(cache, ItemObject(item)), two);
    CreationsOfNone(Apply(cache, ItemObject(item)));
    AppliedObjects(cache, item);
    AppliedSubscription(Apply(cache, ItemObject(item)), time);
  }

  lemma CreationsOfNone(cache: Cache)
    ensures Creations(cache, []) == cache
  {
  }

  lemma AppliedObjects(cache: Cache, item: Item)
    ensures Apply(cache, ItemObject(item)) == cache.(items := cache.items[item.id := item])
  {
  }

  lemma AppliedSubscription(cache: Cache, time: uint32)
    ensures Apply(cache, SubscriptionObject(time)) == cache
  {
  }

  lemma HasOwnId(schema: Schema, accountId: uint32, id: uint64, d: uint32)
    ensures Received(schema, accountId, id, d).id == id
  {
  }

  /** Once something could not be had, nothing more is bought. */
  lemma {:induction false} FailedStays(schema: Schema, m: Memory, accountId: uint32, defs: seq<uint32>, now: uint32, n: nat)
    requires |m.items| + |defs| <= USABLE && n <= |defs|
    requires !BuyAll(schema, m, accountId, defs[..n], now).ok
    ensures BuyAll(schema, m, accountId, defs, now) == BuyAll(schema, m, accountId, defs[..n], now)
    decreases |defs|
  {
    if n == |defs| {
      assert defs[..n] == defs;
    } else {
      hide BuyAll;
      var last := |defs| - 1;
      BuyAllNext(schema, m, accountId, defs, now);
      assert defs[..last][..n] == defs[..n];
      FailedStays(schema, m, accountId, defs[..last], now, n);
    }
  }
}
