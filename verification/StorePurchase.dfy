/** The two phases of a store purchase: registering an order and finalizing it (gc_client.cpp). */
module StorePurchase {
  import opened Prelude
  import opened Items
  import opened ItemSchema
  import opened ItemIds
  import opened InventoryState
  import opened Purchases

  datatype Line = Line(defIndex: uint32, quantity: uint32)

  /** As the client sends it: the definition may be missing. */
  datatype RequestLine = RequestLine(defIndex: Option<uint32>, quantity: uint32)

  /** The inventory and the pending transaction. */
  datatype Shop = Shop(memory: Memory, transactionId: uint64, lines: seq<Line>)

  function Total(lines: seq<Line>): nat
    decreases |lines|
  {
    if lines == [] then 0 else Total(lines[..|lines| - 1]) + lines[|lines| - 1].quantity
  }

  function Repeated(d: uint32, n: nat): seq<uint32> {
    seq(n, _ => d)
  }

  /** The definitions to create, one by one. */
  function Expanded(lines: seq<Line>): seq<uint32>
    decreases |lines|
  {
    if lines == [] then []
    else
      var last := lines[|lines| - 1];
      Expanded(lines[..|lines| - 1]) + Repeated(last.defIndex, last.quantity)
  }

  /** How many of one definition are ordered. */
  function Ordered(lines: seq<Line>, d: uint32): nat
    decreases |lines|
  {
    if lines == [] then 0
    else
      var last := lines[|lines| - 1];
      Ordered(lines[..|lines| - 1], d) + if last.defIndex == d then last.quantity else 0
  }

  predicate LineVetted(schema: Schema, line: Line) {
    && line.quantity > 0 && line.defIndex in schema.creatable
    && (line.defIndex == ITEM_STATS_SUBSCRIPTION ==> line.quantity == 1)
  }

  /** What is known of a pending order. */
  predicate Vetted(schema: Schema, lines: seq<Line>) {
    && (forall line <- lines :: LineVetted(schema, line))
    && (forall i, j :: 0 <= i < j < |lines| ==>
          lines[i].defIndex != ITEM_STATS_SUBSCRIPTION || lines[j].defIndex != ITEM_STATS_SUBSCRIPTION)
    && Total(lines) <= MAX_ITEMS
  }

  predicate AsksForSubscription(lines: seq<Line>) {
    exists line <- lines :: line.defIndex == ITEM_STATS_SUBSCRIPTION
  }

  function LinesOf(request: seq<RequestLine>): seq<Line> {
    seq(|request|, i requires 0 <= i < |request| =>
      Line(if request[i].defIndex.Some? then request[i].defIndex.value else 0, request[i].quantity))
  }

  predicate OrderAccepted(schema: Schema, items: map<uint64, Item>, request: seq<RequestLine>) {
    && (forall line <- request :: line.defIndex.Some?)
    && Vetted(schema, LinesOf(request))
    && (AsksForSubscription(LinesOf(request)) ==> !HasDefinition(items, ITEM_STATS_SUBSCRIPTION))
  }

  predicate InitAccepted(schema: Schema, s: Shop, request: seq<RequestLine>) {
    s.transactionId == 0 && request != [] && OrderAccepted(schema, s.memory.items, request)
  }

  function Init(schema: Schema, s: Shop, request: seq<RequestLine>, newId: uint64): Shop {
    if InitAccepted(schema, s, request) then s.(transactionId := newId, lines := LinesOf(request)) else s
  }

  predicate IdMatches(s: Shop, txn: Option<uint64>) {
    s.transactionId != 0 && txn == Some(s.transactionId)
  }

  ghost function Finalize(schema: Schema, s: Shop, accountId: uint32, txn: Option<uint64>, now: uint32): Shop
    requires |s.memory.items| + |Expanded(s.lines)| <= USABLE
  {
    if !IdMatches(s, txn) then s
    else Shop(AfterOrder(schema, s.memory, accountId, Expanded(s.lines), now), 0, [])
  }

  // -------------------------------------------------------------- one call

  lemma {:induction false} ExpandedOrder(schema: Schema, lines: seq<Line>)
    ensures |Expanded(lines)| == Total(lines)
    ensures forall d: uint32 :: multiset(Expanded(lines))[d] == Ordered(lines, d)
    ensures forall d :: d in Expanded(lines) ==> exists line <- lines :: line.defIndex == d
    decreases |lines|
  {
    if lines != [] {
      var n := |lines| - 1;
      var init, last := lines[..n], lines[n];
      assert lines == init + [last];
      ExpandedOrder(schema, init);
      forall d: uint32
        ensures multiset(Repeated(last.defIndex, last.quantity))[d] == if last.defIndex == d then last.quantity else 0
      {
        CountRepeated(last.defIndex, last.quantity, d);
      }
      forall d | d in Expanded(lines)
        ensures exists line <- lines :: line.defIndex == d
      {
        if d in Expanded(init) {
          var line :| line in init && line.defIndex == d;
          assert line in lines;
        } else {
          assert d in Repeated(last.defIndex, last.quantity);
          assert last in lines;
        }
      }
    }
  }

  lemma {:induction false} CountRepeated(x: uint32, n: nat, d: uint32)
    ensures multiset(Repeated(x, n))[d] == if x == d then n else 0
  {
    if n > 0 {
      CountRepeated(x, n - 1, d);
      assert Repeated(x, n) == Repeated(x, n - 1) + [x];
    }
  }

  lemma VettedParts(schema: Schema, lines: seq<Line>)
    requires Vetted(schema, lines) && lines != []
    ensures var init, last := lines[..|lines| - 1], lines[|lines| - 1];
      && Vetted(schema, init) && LineVetted(schema, last)
      && (last.defIndex == ITEM_STATS_SUBSCRIPTION ==> !AsksForSubscription(init))
      && (AsksForSubscription(lines) <==> AsksForSubscription(init) || last.defIndex == ITEM_STATS_SUBSCRIPTION)
  {
    hide LineVetted;
    var n := |lines| - 1;
    var init, last := lines[..n], lines[n];
    assert lines == init + [last] && last in lines;
    forall line | line in init
      ensures last.defIndex == ITEM_STATS_SUBSCRIPTION ==> line.defIndex != ITEM_STATS_SUBSCRIPTION
    {
      var i :| 0 <= i < n && lines[i] == line;
    }
  }

  lemma OrderableJoin(schema: Schema, defs: seq<uint32>, line: Line)
    requires Orderable(schema, defs) && LineVetted(schema, line)
    requires line.defIndex == ITEM_STATS_SUBSCRIPTION ==> !OrdersSubscription(defs)
    ensures var all := defs + Repeated(line.defIndex, line.quantity);
      && Orderable(schema, all)
      && (OrdersSubscription(all) <==> OrdersSubscription(defs) || line.defIndex == ITEM_STATS_SUBSCRIPTION)
  {
    var more := Repeated(line.defIndex, line.quantity);
    assert forall d :: d in more ==> d == line.defIndex;
    assert more[0] == line.defIndex;
  }

  lemma {:induction false} VettedIsOrderable(schema: Schema, lines: seq<Line>)
    requires Vetted(schema, lines)
    ensures Orderable(schema, Expanded(lines))
    ensures OrdersSubscription(Expanded(lines)) <==> AsksForSubscription(lines)
    decreases |lines|
  {
    if lines != [] {
      hide Vetted, LineVetted, Orderable, OrdersSubscription, AsksForSubscription;
      var n := |lines| - 1;
      VettedParts(schema, lines);
      VettedIsOrderable(schema, lines[..n]);
      OrderableJoin(schema, Expanded(lines[..n]), lines[n]);
    }
  }

  // ------------------------------------------------------- vetting an order

  lemma VetNothing(schema: Schema, items: map<uint64, Item>)
    ensures OrderAccepted(schema, items, []) && LinesOf([]) == []
  {
  }

  lemma LinesNext(request: seq<RequestLine>, i: nat)
    requires i < |request|
    ensures var last := Line(if request[i].defIndex.Some? then request[i].defIndex.value else 0, request[i].quantity);
      var lines := LinesOf(request[..i]);
      && LinesOf(request[..i + 1]) == lines + [last]
      && Total(lines + [last]) == Total(lines) + last.quantity
      && (AsksForSubscription(lines + [last]) <==> AsksForSubscription(lines) || last.defIndex == ITEM_STATS_SUBSCRIPTION)
  {
    var last := Line(if request[i].defIndex.Some? then request[i].defIndex.value else 0, request[i].quantity);
    var lines := LinesOf(request[..i]);
    assert LinesOf(request[..i + 1]) == lines + [last];
    assert (lines + [last])[..|lines|] == lines;
    assert last in lines + [last];
    assert forall l <- lines :: l in lines + [last];
  }

  /** The condition under which an accepted part of an order stays accepted with one more line. */
  predicate MayFollow(schema: Schema, items: map<uint64, Item>, lines: seq<Line>, item: RequestLine) {
    && item.defIndex.Some? && LineVetted(schema, Line(item.defIndex.value, item.quantity))
    && Total(lines) + item.quantity <= MAX_ITEMS
    && (item.defIndex == Some(ITEM_STATS_SUBSCRIPTION) ==>
          !AsksForSubscription(lines) && !HasDefinition(items, ITEM_STATS_SUBSCRIPTION))
  }

  lemma VettedNext(schema: Schema, lines: seq<Line>, last: Line)
    requires Vetted(schema, lines)
    ensures Vetted(schema, lines + [last]) <==>
      (LineVetted(schema, last) && Total(lines + [last]) <= MAX_ITEMS
       && (last.defIndex == ITEM_STATS_SUBSCRIPTION ==> !AsksForSubscription(lines)))
  {
    hide LineVetted, Total;
    var more := lines + [last];
    assert last in more && forall l <- lines :: l in more;
    if last.defIndex == ITEM_STATS_SUBSCRIPTION && AsksForSubscription(lines) {
      var i :| 0 <= i < |lines| && lines[i].defIndex == ITEM_STATS_SUBSCRIPTION;
      assert more[i] == lines[i] && more[|lines|] == last;
    }
  }

  lemma VetNext(schema: Schema, items: map<uint64, Item>, request: seq<RequestLine>, i: nat)
    requires i < |request| && OrderAccepted(schema, items, request[..i])
    ensures OrderAccepted(schema, items, request[..i + 1]) <==> MayFollow(schema, items, LinesOf(request[..i]), request[i])
  {
    hide Vetted, LineVetted, Total, AsksForSubscription, LinesOf;
    LinesNext(request, i);
    var last := Line(if request[i].defIndex.Some? then request[i].defIndex.value else 0, request[i].quantity);
    VettedNext(schema, LinesOf(request[..i]), last);
    assert request[..i + 1] == request[..i] + [request[i]];
    assert request[i] in request[..i + 1];
  }

  lemma VetLater(schema: Schema, items: map<uint64, Item>, request: seq<RequestLine>, i: nat)
    requires i <= |request| && !OrderAccepted(schema, items, request[..i])
    ensures !OrderAccepted(schema, items, request)
    decreases |request| - i
  {
    if i == |request| {
      assert request[..i] == request;
    } else {
      VettedBefore(schema, items, request, i);
      VetLater(schema, items, request, i + 1);
    }
  }

  lemma VettedBefore(schema: Schema, items: map<uint64, Item>, request: seq<RequestLine>, i: nat)
    requires i < |request|
    ensures OrderAccepted(schema, items, request[..i + 1]) ==> OrderAccepted(schema, items, request[..i])
  {
    hide LineVetted, HasDefinition;
    var some, more := request[..i], request[..i + 1];
    assert more == some + [request[i]];
    LinesNext(request, i);
    var lines := LinesOf(some);
    assert forall l <- lines :: l in LinesOf(more);
    assert forall k :: 0 <= k < |lines| ==> LinesOf(more)[k] == lines[k];
  }

  /** A pending order has items and a bound on them, and no order is pending without an id. */
  predicate Sound(schema: Schema, s: Shop) {
    (s.lines != [] <==> s.transactionId != 0) && Vetted(schema, s.lines)
  }

  /** What finalizing a pending order leaves: all of the order or nothing. */
  ghost predicate Settled(schema: Schema, s: Shop, accountId: uint32, s': Shop, ids: seq<uint64>, ok: bool) {
    if ok then
      Adds(schema, accountId, s.memory, s'.memory, ids, Expanded(s.lines)) && |ids| == Total(s.lines)
    else s'.memory == s.memory.(version := s'.memory.version, lastHighItemId := s'.memory.lastHighItemId)
  }

  lemma FinalizeSettles(schema: Schema, s: Shop, accountId: uint32, now: uint32)
    requires Sound(schema, s) && s.transactionId != 0 && SubscriptionSchema(schema)
    requires |s.memory.items| + |Expanded(s.lines)| <= USABLE
    ensures var s' := Finalize(schema, s, accountId, Some(s.transactionId), now);
      var p := BuyAll(schema, s.memory, accountId, Expanded(s.lines), now);
      && s'.transactionId == 0 && s'.lines == []
      && (p.ok <==> !(AsksForSubscription(s.lines) && HasDefinition(s.memory.items, ITEM_STATS_SUBSCRIPTION)))
      && Settled(schema, s, accountId, s', p.ids, p.ok)
  {
    hide Adds, BuyAll;
    var defs := Expanded(s.lines);
    VettedIsOrderable(schema, s.lines);
    ExpandedOrder(schema, s.lines);
    BuyAllAdds(schema, s.memory, accountId, defs, now);
    OrderSucceeds(schema, s.memory, accountId, defs, now);
    FailedOrderIsUndone(schema, s.memory, accountId, defs, now);
  }

  // --------------------------------------------------------------- all runs

  /** Anything else may happen to the inventory in between. */
  datatype Step =
    | InitStep(request: seq<RequestLine>, newId: uint64)
    | FinalizeStep(txn: Option<uint64>, now: uint32)
    | ElsewhereStep(memory: Memory)

  ghost function Next(schema: Schema, s: Shop, accountId: uint32, step: Step): Shop
    requires |s.memory.items| + |Expanded(s.lines)| <= USABLE
  {
    match step
    case InitStep(request, newId) => Init(schema, s, request, newId)
    case FinalizeStep(txn, now) => Finalize(schema, s, accountId, txn, now)
    case ElsewhereStep(memory) => s.(memory := memory)
  }

  ghost predicate IsRun(schema: Schema, accountId: uint32, states: seq<Shop>, steps: seq<Step>) {
    && |states| == |steps| + 1
    && (forall i :: 0 <= i < |states| ==> |states[i].memory.items| + |Expanded(states[i].lines)| <= USABLE)
    && forall i :: 0 <= i < |steps| ==>
         && (steps[i].InitStep? ==> steps[i].newId != 0)
         && states[i + 1] == Next(schema, states[i], accountId, steps[i])
  }

  lemma {:induction false} RunStaysSound(schema: Schema, accountId: uint32, states: seq<Shop>, steps: seq<Step>, n: nat)
    requires IsRun(schema, accountId, states, steps) && Sound(schema, states[0]) && n <= |steps|
    ensures Sound(schema, states[n])
  {
    if n > 0 {
      RunStaysSound(schema, accountId, states, steps, n - 1);
      assert states[n] == Next(schema, states[n - 1], accountId, steps[n - 1]);
    }
  }

  /**
   A transaction that was finalized, whatever came of it, cannot be finalized again: until
   an order is registered under the same id, that id is refused and nothing changes.
   */
  lemma {:induction false} NotFinalizedTwice(schema: Schema, accountId: uint32, states: seq<Shop>, steps: seq<Step>, i: nat, j: nat, id: uint64, now: uint32)
    requires IsRun(schema, accountId, states, steps) && i < j <= |steps|
    requires steps[i].FinalizeStep? && steps[i].txn == Some(id) && IdMatches(states[i], Some(id))
    requires forall k :: i < k < j ==> !(steps[k].InitStep? && steps[k].newId == id)
    ensures states[j].transactionId != id
    ensures Finalize(schema, states[j], accountId, Some(id), now) == states[j]
  {
    assert states[j] == Next(schema, states[j - 1], accountId, steps[j - 1]);
    if j - 1 > i {
      NotFinalizedTwice(schema, accountId, states, steps, i, j - 1, id, now);
    }
  }

  /** Only its own id disturbs a pending transaction. */
  lemma PendingStaysPending(schema: Schema, accountId: uint32, s: Shop, step: Step)
    requires Sound(schema, s) && s.transactionId != 0 && |s.memory.items| + |Expanded(s.lines)| <= USABLE
    requires !(step.FinalizeStep? && step.txn == Some(s.transactionId))
    ensures var s' := Next(schema, s, accountId, step); s'.transactionId == s.transactionId && s'.lines == s.lines
    ensures !step.ElsewhereStep? ==> Next(schema, s, accountId, step) == s
  {
  }
}
