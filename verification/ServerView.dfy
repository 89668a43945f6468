/**
 The second, filtered stream of shared objects that goes to the game server: what the
 server needs to know about is the equipped items (gc_client.cpp, SendMessageToGameServer).
 */
module ServerView {
  import opened Prelude
  import opened Items
  import opened Loadout
  import opened LoadoutTheorems

  /** A message published to the game and, filtered, to the game server. */
  datatype Message =
    | Create(version: uint64, so: SharedObject)
    | Update(version: uint64, so: SharedObject)
    | Destroy(version: uint64, so: SharedObject)
    | UpdateMultiple(update: MultipleObjects)
    | Unrelated

  function Receive(cache: Cache, m: Message): Cache {
    match m
    case Create(_, so) => Apply(cache, so)
    case Update(_, so) => Apply(cache, so)
    case Destroy(_, so) => if so.ItemObject? then cache.(items := cache.items - {so.item.id}) else cache
    case UpdateMultiple(update) => Replay(cache, update.objects)
    case Unrelated => cache
  }

  function ReceiveAll(cache: Cache, ms: seq<Message>): Cache
    decreases ms
  {
    if ms == [] then cache else ReceiveAll(Receive(cache, ms[0]), ms[1..])
  }

  /** The creations of what there is to create. */
  function CreateMessages(messages: seq<SingleObject>): seq<Message>
    decreases |messages|
  {
    if messages == [] then []
    else
      var n := |messages| - 1;
      CreateMessages(messages[..n])
      + if messages[n].SingleObject? then [Create(messages[n].version, messages[n].so)] else []
  }

  function DestroyMessages(messages: seq<SingleObject>): seq<Message>
    decreases |messages|
  {
    if messages == [] then []
    else
      var n := |messages| - 1;
      DestroyMessages(messages[..n])
      + if messages[n].SingleObject? then [Destroy(messages[n].version, messages[n].so)] else []
  }

  function UpdateMessage(m: SingleObject): seq<Message> {
    if m.SingleObject? then [Update(m.version, m.so)] else []
  }

  lemma {:induction false} ReceiveJoin(cache: Cache, a: seq<Message>, b: seq<Message>)
    ensures ReceiveAll(cache, a + b) == ReceiveAll(ReceiveAll(cache, a), b)
    decreases a
  {
    hide Receive;
    TailOfJoin(a, b);
    if a != [] {
      ReceiveJoin(Receive(cache, a[0]), a[1..], b);
    }
  }

  lemma ReceiveOne(cache: Cache, m: Message)
    ensures ReceiveAll(cache, [m]) == Receive(cache, m)
  {
    hide Receive;
    assert [m][1..] == [];
  }

  /** GameServerItemDirty: whether the server must be told, and the ids it then has equipped. */
  function Dirty(ids: set<uint64>, so: SharedObject, destroyed: bool): (bool, set<uint64>) {
    match so
    case UnidentifiedItem => (false, ids)
    case ItemObject(item) =>
      if destroyed || item.equipped == [] then (item.id in ids, ids - {item.id}) else (true, ids + {item.id})
    case _ => (true, ids)
  }

  function DirtyAll(ids: set<uint64>, objects: seq<SharedObject>): (seq<SharedObject>, set<uint64>)
    decreases |objects|
  {
    if objects == [] then ([], ids)
    else
      var last := |objects| - 1;
      var (kept, ids1) := DirtyAll(ids, objects[..last]);
      var (dirty, ids2) := Dirty(ids1, objects[last], false);
      (if dirty then kept + [objects[last]] else kept, ids2)
  }

  /** SendMessageToGameServer: the message the server gets, if any. */
  function Filter(ids: set<uint64>, m: Message): (Option<Message>, set<uint64>) {
    match m
    case Create(_, so) => var (dirty, ids') := Dirty(ids, so, false); (if dirty then Some(m) else None, ids')
    case Update(_, so) => var (dirty, ids') := Dirty(ids, so, false); (if dirty then Some(m) else None, ids')
    case Destroy(_, so) => var (dirty, ids') := Dirty(ids, so, true); (if dirty then Some(m) else None, ids')
    case UpdateMultiple(update) =>
      var (kept, ids') := DirtyAll(ids, update.objects);
      (if kept == [] then None else Some(UpdateMultiple(update.(objects := kept))), ids')
    case Unrelated => (Some(m), ids)
  }

  function EquippedPart(items: map<uint64, Item>): map<uint64, Item> {
    map id | id in items && items[id].equipped != [] :: items[id]
  }

  /**
   The server agrees with the inventory on the equipped items and the default equips,
   and the coordinator knows which items those are.
   */
  ghost predicate InStep(full: Cache, server: Cache, ids: set<uint64>) {
    && EquippedPart(server.items) == EquippedPart(full.items)
    && server.defaults == full.defaults
    && ids == EquippedPart(full.items).Keys
  }

  /** The cache request answered for the server: equipped items only. */
  function ServerSubscription(full: Cache): Cache {
    full.(items := EquippedPart(full.items))
  }

  lemma RequestIsInStep(full: Cache)
    ensures InStep(full, ServerSubscription(full), EquippedPart(full.items).Keys)
  {
    assert EquippedPart(EquippedPart(full.items)) == EquippedPart(full.items);
  }

  lemma UpsertEquippedPart(items: map<uint64, Item>, item: Item)
    ensures EquippedPart(items[item.id := item]) ==
      if item.equipped == [] then EquippedPart(items) - {item.id} else EquippedPart(items)[item.id := item]
  {
  }

  lemma RemoveEquippedPart(items: map<uint64, Item>, id: uint64)
    ensures EquippedPart(items - {id}) == EquippedPart(items) - {id}
    ensures id !in EquippedPart(items) ==> EquippedPart(items) - {id} == EquippedPart(items)
  {
  }

  // ------------------------------------------------------ what the server is told

  /** Whether an object matters to the server: anything but an item that was not and is not equipped. */
  predicate Concerns(before: Cache, so: SharedObject, after: Cache) {
    match so
    case ItemObject(item) => item.id in EquippedPart(before.items) || item.id in EquippedPart(after.items)
    case UnidentifiedItem => false
    case _ => true
  }

  /** The objects of an update that matter, each at its turn. */
  function Concerning(cache: Cache, objects: seq<SharedObject>): seq<SharedObject>
    decreases objects
  {
    if objects == [] then []
    else
      var after := Apply(cache, objects[0]);
      (if Concerns(cache, objects[0], after) then [objects[0]] else []) + Concerning(after, objects[1..])
  }

  lemma {:induction false} ConcerningNext(cache: Cache, objects: seq<SharedObject>, so: SharedObject)
    ensures var now := Replay(cache, objects);
      Concerning(cache, objects + [so]) == Concerning(cache, objects) + if Concerns(now, so, Apply(now, so)) then [so] else []
    decreases objects
  {
    hide Concerns, Apply;
    TailOfJoin(objects, [so]);
    if objects == [] {
      assert [so][1..] == [];
    } else {
      var after := Apply(cache, objects[0]);
      ConcerningNext(after, objects[1..], so);
      var one := if Concerns(cache, objects[0], after) then [objects[0]] else [];
      var now := Replay(cache, objects);
      AppendAssociates(one, Concerning(after, objects[1..]), if Concerns(now, so, Apply(now, so)) then [so] else []);
    }
  }

  /** The tracked ids tell exactly what matters. */
  lemma DirtyMeaning(cache: Cache, so: SharedObject, destroyed: bool)
    ensures var after := if !destroyed then Apply(cache, so) else if so.ItemObject? then cache.(items := cache.items - {so.item.id}) else cache;
      Dirty(EquippedPart(cache.items).Keys, so, destroyed) == (Concerns(cache, so, after), EquippedPart(after.items).Keys)
  {
    if so.ItemObject? {
      var ids, id := EquippedPart(cache.items).Keys, so.item.id;
      UpsertEquippedPart(cache.items, so.item);
      RemoveEquippedPart(cache.items, id);
      assert EquippedPart(cache.items - {id}).Keys == ids - {id};
      assert EquippedPart(cache.items[id := so.item]).Keys == if so.item.equipped == [] then ids - {id} else ids + {id};
    }
  }

  lemma {:induction false} DirtyAllMeaning(cache: Cache, objects: seq<SharedObject>)
    ensures DirtyAll(EquippedPart(cache.items).Keys, objects)
      == (Concerning(cache, objects), EquippedPart(Replay(cache, objects).items).Keys)
    decreases |objects|
  {
    if objects != [] {
      hide Concerns, Dirty, Concerning;
      var n := |objects| - 1;
      assert objects == objects[..n] + [objects[n]];
      DirtyAllMeaning(cache, objects[..n]);
      DirtyMeaning(Replay(cache, objects[..n]), objects[n], false);
      ConcerningNext(cache, objects[..n], objects[n]);
      ReplayJoin(cache, objects[..n], [objects[n]]);
      ReplayOne(Replay(cache, objects[..n]), objects[n]);
      assert DirtyAll(EquippedPart(cache.items).Keys, objects).0 == Concerning(cache, objects);
    } else {
      NothingConcerns(cache);
    }
  }

  lemma NothingConcerns(cache: Cache)
    ensures Concerning(cache, []) == [] && Replay(cache, []) == cache
  {
  }

  /**
   What the server should be told of a message, by what the game's cache holds: single
   objects as they are if they matter, updates under their version with the objects that
   matter in their order, and everything else as it is.
   */
  function Forwarded(cache: Cache, m: Message): Option<Message> {
    match m
    case UpdateMultiple(update) => ForwardedUpdate(update.version, Concerning(cache, update.objects))
    case Unrelated => Some(m)
    case _ => if Concerns(cache, m.so, Receive(cache, m)) then Some(m) else None
  }

  function ForwardedUpdate(version: Option<uint64>, objects: seq<SharedObject>): Option<Message> {
    if objects == [] then None else Some(UpdateMultiple(MultipleObjects(version, objects)))
  }

  /** That is what it is told, and the tracked ids stay those of the equipped items. */
  lemma FilterMeaning(cache: Cache, m: Message)
    ensures Filter(EquippedPart(cache.items).Keys, m) == (Forwarded(cache, m), EquippedPart(Receive(cache, m).items).Keys)
  {
    hide Dirty, DirtyAll, Concerning, Concerns, EquippedPart, Apply;
    match m
    case Create(_, so) => DirtyMeaning(cache, so, false);
    case Update(_, so) => DirtyMeaning(cache, so, false);
    case Destroy(_, so) => DirtyMeaning(cache, so, true);
    case UpdateMultiple(update) => DirtyAllMeaning(cache, update.objects);
    case Unrelated =>
  }

  /** One published object keeps the two sides in step, told to the server or not. */
  lemma ObjectKeepsStep(full: Cache, server: Cache, ids: set<uint64>, so: SharedObject)
    requires InStep(full, server, ids)
    ensures var (dirty, ids') := Dirty(ids, so, false);
      InStep(Apply(full, so), if dirty then Apply(server, so) else server, ids')
  {
    if so.ItemObject? {
      UpsertEquippedPart(full.items, so.item);
      UpsertEquippedPart(server.items, so.item);
      RemoveEquippedPart(full.items, so.item.id);
    }
  }

  /** An item is published to the server exactly when it was equipped or becomes equipped. */
  lemma OnlyEquippedItemsAreSent(full: Cache, server: Cache, ids: set<uint64>, item: Item, destroyed: bool)
    requires InStep(full, server, ids)
    ensures var so := ItemObject(item);
      var after := if destroyed then full.items - {item.id} else Apply(full, so).items;
      Dirty(ids, so, destroyed).0 <==> item.id in EquippedPart(full.items) || item.id in EquippedPart(after)
  {
    UpsertEquippedPart(full.items, item);
    RemoveEquippedPart(full.items, item.id);
  }

  lemma DestroyKeepsStep(full: Cache, server: Cache, ids: set<uint64>, version: uint64, so: SharedObject)
    requires InStep(full, server, ids)
    ensures var m := Destroy(version, so);
      var (dirty, ids') := Dirty(ids, so, true);
      InStep(Receive(full, m), if dirty then Receive(server, m) else server, ids')
  {
    if so.ItemObject? {
      RemoveEquippedPart(full.items, so.item.id);
      RemoveEquippedPart(server.items, so.item.id);
    }
  }

  lemma {:induction false} ObjectsKeepStep(full: Cache, server: Cache, ids: set<uint64>, objects: seq<SharedObject>)
    requires InStep(full, server, ids)
    ensures var (kept, ids') := DirtyAll(ids, objects); InStep(Replay(full, objects), Replay(server, kept), ids')
    decreases |objects|
  {
    if objects != [] {
      var last := |objects| - 1;
      var init, so := objects[..last], objects[last];
      var (kept, ids1) := DirtyAll(ids, init);
      ObjectsKeepStep(full, server, ids, init);
      ObjectKeepsStep(Replay(full, init), Replay(server, kept), ids1, so);
      assert objects == init + [so];
      ReplayJoin(full, init, [so]);
      ReplayJoin(server, kept, [so]);
      ReplayOne(Replay(full, init), so);
      ReplayOne(Replay(server, kept), so);
    }
  }

  lemma MessageKeepsStep(full: Cache, server: Cache, ids: set<uint64>, m: Message)
    requires InStep(full, server, ids)
    ensures var (sent, ids') := Filter(ids, m);
      InStep(Receive(full, m), if sent.Some? then Receive(server, sent.value) else server, ids')
  {
    match m
    case Create(_, so) => ObjectKeepsStep(full, server, ids, so);
    case Update(_, so) => ObjectKeepsStep(full, server, ids, so);
    case Destroy(version, so) => DestroyKeepsStep(full, server, ids, version, so);
    case UpdateMultiple(update) => ObjectsKeepStep(full, server, ids, update.objects);
    case Unrelated =>
  }

  /** All three sides of the system. */
  datatype World = World(full: Cache, server: Cache, ids: set<uint64>)

  function Publish(w: World, m: Message): World {
    var (sent, ids) := Filter(w.ids, m);
    World(Receive(w.full, m), if sent.Some? then Receive(w.server, sent.value) else w.server, ids)
  }

  function PublishAll(w: World, ms: seq<Message>): World
    decreases ms
  {
    if ms == [] then w else PublishAll(Publish(w, ms[0]), ms[1..])
  }

  lemma {:induction false} PublishedToGame(w: World, ms: seq<Message>)
    ensures PublishAll(w, ms).full == ReceiveAll(w.full, ms)
    decreases ms
  {
    hide Receive, Filter;
    if ms != [] {
      PublishedToGame(Publish(w, ms[0]), ms[1..]);
    }
  }

  function AfterRequest(full: Cache): World {
    World(full, ServerSubscription(full), EquippedPart(full.items).Keys)
  }

  /** However many updates of unequipped items are dropped, the server never falls behind. */
  lemma {:induction false} RunKeepsStep(w: World, ms: seq<Message>)
    requires InStep(w.full, w.server, w.ids)
    ensures var v := PublishAll(w, ms); InStep(v.full, v.server, v.ids)
    decreases ms
  {
    if ms != [] {
      MessageKeepsStep(w.full, w.server, w.ids, ms[0]);
      RunKeepsStep(Publish(w, ms[0]), ms[1..]);
    }
  }

  lemma ServerFollowsInventory(full: Cache, ms: seq<Message>)
    ensures var v := PublishAll(AfterRequest(full), ms); InStep(v.full, v.server, v.ids)
  {
    RequestIsInStep(full);
    RunKeepsStep(AfterRequest(full), ms);
  }

  /** The messages of a run of equip requests. */
  ghost function EquipMessages(l: Loadout, accountId: uint32, rs: seq<Request>): seq<Message>
    decreases rs
  {
    if rs == [] then []
    else
      var change := Equip(l, accountId, rs[0]);
      [UpdateMultiple(MultipleObjects(None, change.delta))] + EquipMessages(change.after, accountId, rs[1..])
  }

  lemma {:induction false} EquipMessagesReach(w: World, l: Loadout, accountId: uint32, rs: seq<Request>)
    requires Valid(l) && w.full == Snapshot(l)
    ensures PublishAll(w, EquipMessages(l, accountId, rs)).full == Snapshot(RunEquips(l, accountId, rs).after)
    decreases rs
  {
    if rs != [] {
      var change := Equip(l, accountId, rs[0]);
      var m := UpdateMultiple(MultipleObjects(None, change.delta));
      DeltaReplaysToSnapshot(l, accountId, rs[0]);
      assert EquipMessages(l, accountId, rs)[1..] == EquipMessages(change.after, accountId, rs[1..]);
      assert EquipMessages(l, accountId, rs)[0] == m;
      EquipMessagesReach(Publish(w, m), change.after, accountId, rs[1..]);
    }
  }

  /**
   End to end: after a cache request and any run of equip requests, the server's mirror
   restricted to equipped items is the inventory restricted to equipped items.
   */
  lemma EquipRunReachesServer(l: Loadout, accountId: uint32, rs: seq<Request>)
    requires Valid(l)
    ensures var v := PublishAll(AfterRequest(Snapshot(l)), EquipMessages(l, accountId, rs));
      var after := RunEquips(l, accountId, rs).after;
      && EquippedPart(v.server.items) == EquippedPart(after.items)
      && v.server.defaults == DefaultsOf(after.defaults)
      && v.ids == EquippedPart(after.items).Keys
  {
    ServerFollowsInventory(Snapshot(l), EquipMessages(l, accountId, rs));
    EquipMessagesReach(AfterRequest(Snapshot(l)), l, accountId, rs);
  }
}
