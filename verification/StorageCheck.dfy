/** The storage-unit functions that work on one item in place, and the start-up check of all of them. */
module StorageCheck {
  import opened Prelude
  import opened Items
  import opened ItemSchema
  import opened Storage
  import opened StorageTheorems

  // ---------------------------------------------------- single-item functions

  method StorageReference(schema: Schema, item: Item) returns (r: Option<uint64>)
    ensures r == Reference(schema, item)
  {
    hide NumbersOf, NumberOf;
    var low: Option<uint32>, high: Option<uint32> := None, None;
    NumbersOfNothing(schema);
    for i := 0 to |item.attributes|
      invariant low == LastOf(NumbersOf(schema, item.attributes[..i], ATTRIBUTE_CASKET_ID_LOW))
      invariant high == LastOf(NumbersOf(schema, item.attributes[..i], ATTRIBUTE_CASKET_ID_HIGH))
    {
      var attribute := item.attributes[i];
      NumbersOfNext(schema, item.attributes, i, ATTRIBUTE_CASKET_ID_LOW);
      NumbersOfNext(schema, item.attributes, i, ATTRIBUTE_CASKET_ID_HIGH);
      if attribute.defIndex == ATTRIBUTE_CASKET_ID_LOW {
        low := Some(NumberOf(schema, attribute));
      } else if attribute.defIndex == ATTRIBUTE_CASKET_ID_HIGH {
        high := Some(NumberOf(schema, attribute));
      }
    }
    assert item.attributes[..|item.attributes|] == item.attributes;
    return if low.None? || high.None? then None else Some(low.value + high.value * WORD);
  }

  lemma NumbersOfNothing(schema: Schema)
    ensures forall d: uint32 :: NumbersOf(schema, [], d) == []
  {
  }

  function LastOf(ns: seq<uint32>): Option<uint32> {
    if ns == [] then None else Some(ns[|ns| - 1])
  }

  lemma NumbersOfNext(schema: Schema, a: seq<Attribute>, i: nat, d: uint32)
    requires i < |a|
    ensures NumbersOf(schema, a[..i + 1], d) ==
      NumbersOf(schema, a[..i], d) + if a[i].defIndex == d then [NumberOf(schema, a[i])] else []
  {
    assert a[..i + 1] == a[..i] + [a[i]];
    NumbersOfJoin(schema, a[..i], [a[i]], d);
    NumbersOfOne(schema, a[i], d);
  }

  /** StripStorageReference: deletes from the back, so that the indexes still to visit stay good. */
  method StripStorageReference(attributes: seq<Attribute>) returns (left: seq<Attribute>)
    ensures left == Stripped(attributes)
  {
    left := attributes;
    var i := |attributes|;
    while i > 0
      invariant 0 <= i <= |attributes| && i <= |left|
      invariant left[..i] == attributes[..i]
      invariant left[i..] == Stripped(attributes[i..])
    {
      i := i - 1;
      assert attributes[i..][1..] == attributes[i + 1..];
      assert left[i] == attributes[i];
      if IsReference(left[i].defIndex) {
        left := left[..i] + left[i + 1..];
      }
    }
    assert attributes[0..] == attributes && left[0..] == left;
  }

  method EmbedStorageReference(schema: Schema, item: Item, storageId: uint64) returns (stored: Item)
    ensures stored == DepositedItem(schema, item, storageId)
  {
    var attributes := StripStorageReference(item.attributes);
    var low := WithNumber(schema, Attribute(ATTRIBUTE_CASKET_ID_LOW, Unset), storageId % WORD);
    var high := WithNumber(schema, Attribute(ATTRIBUTE_CASKET_ID_HIGH, Unset), storageId / WORD);
    attributes := attributes + [low];
    attributes := attributes + [high];
    assert attributes == Embedded(schema, item.attributes, storageId);
    stored := item.(attributes := attributes, equipped := []);
  }

  lemma {:induction false} LastIndexFrom(a: seq<Attribute>, i: nat, d: uint32)
    requires i < |a|
    ensures LastIndex(a[..i + 1], d) == if a[i].defIndex == d then i else LastIndex(a[..i], d)
  {
    assert a[..i + 1][..i] == a[..i];
  }

  method ModifyStorageCounter(schema: Schema, storage: Item, delta: int, now: uint32) returns (ok: bool, counted: Item)
    ensures ok <==> Counted(schema, storage.attributes, delta, now).Some?
    ensures counted == CountedCasket(schema, storage, delta, now)
  {
    counted := storage;
    var attributes := storage.attributes;
    var countIndex, dateIndex := -1, -1;
    for i := 0 to |attributes|
      invariant countIndex == LastIndex(attributes[..i], ATTRIBUTE_CASKET_ITEMS_COUNT)
      invariant dateIndex == LastIndex(attributes[..i], ATTRIBUTE_CASKET_MODIFICATION_DATE)
    {
      LastIndexFrom(attributes, i, ATTRIBUTE_CASKET_ITEMS_COUNT);
      LastIndexFrom(attributes, i, ATTRIBUTE_CASKET_MODIFICATION_DATE);
      if attributes[i].defIndex == ATTRIBUTE_CASKET_ITEMS_COUNT {
        countIndex := i;
      } else if attributes[i].defIndex == ATTRIBUTE_CASKET_MODIFICATION_DATE {
        dateIndex := i;
      }
    }
    assert attributes[..|attributes|] == attributes;
    if countIndex < 0 {
      return false, storage;
    }
    var updated := ToInt32(NumberOf(schema, attributes[countIndex])) + delta;
    if updated < 0 || updated > CAPACITY {
      return false, storage;
    }
    attributes := attributes[countIndex := WithNumber(schema, attributes[countIndex], updated)];
    if dateIndex >= 0 {
      attributes := attributes[dateIndex := WithNumber(schema, attributes[dateIndex], now)];
    }
    return true, storage.(attributes := attributes);
  }

  // ------------------------------------------------------------ the check

  /** What LogInventoryConsistency looks for in one item's reference. */
  predicate ReferencePasses(schema: Schema, items: map<uint64, Item>, item: Item) {
    && |NumbersOf(schema, item.attributes, ATTRIBUTE_CASKET_ID_LOW)|
       == |NumbersOf(schema, item.attributes, ATTRIBUTE_CASKET_ID_HIGH)|
    && (Reference(schema, item).Some? ==>
          && Reference(schema, item).value in items
          && items[Reference(schema, item).value].defIndex == ITEM_CASKET
          && item.equipped == [])
  }

  predicate IsCasket(items: map<uint64, Item>, id: uint64) {
    id in items && items[id].defIndex == ITEM_CASKET
  }

  /** The counter the check reads: the first one. */
  function FirstCount(schema: Schema, casket: Item): Option<uint32> {
    var i := FindAttribute(casket.attributes, ATTRIBUTE_CASKET_ITEMS_COUNT);
    if i < |casket.attributes| then Some(NumberOf(schema, casket.attributes[i])) else None
  }

  /** Apart from caskets without a counter, nothing is wrong. */
  predicate OthersPass(schema: Schema, items: map<uint64, Item>) {
    && (forall id <- items :: ReferencePasses(schema, items, items[id]))
    && forall id <- items :: IsCasket(items, id) && FirstCount(schema, items[id]).Some? ==>
         FirstCount(schema, items[id]).value == |StoredIn(schema, items, id)|
  }

  /** The caskets the first pass complains about. */
  function MissingCounters(schema: Schema, items: map<uint64, Item>): set<uint64> {
    set id | id in items && IsCasket(items, id) && FirstCount(schema, items[id]).None?
  }

  predicate CheckPasses(schema: Schema, items: map<uint64, Item>) {
    && (forall id <- items :: ReferencePasses(schema, items, items[id]))
    && (forall id <- items :: IsCasket(items, id) ==>
          FirstCount(schema, items[id]).Some? && FirstCount(schema, items[id]).value == |StoredIn(schema, items, id)|)
  }

  /** How many items among `ids` refer to the casket. */
  function CountIn(schema: Schema, items: map<uint64, Item>, ids: set<uint64>, casketId: uint64): nat {
    |StoredIn(schema, items, casketId) * ids|
  }

  lemma CountInStep(schema: Schema, items: map<uint64, Item>, ids: set<uint64>, id: uint64, c: uint64)
    requires id in items && id !in ids
    ensures CountIn(schema, items, ids + {id}, c)
         == CountIn(schema, items, ids, c) + if Reference(schema, items[id]) == Some(c) then 1 else 0
  {
    var stored := StoredIn(schema, items, c);
    PointedFrom(References(schema, items), id, c);
    if id in stored {
      assert stored * (ids + {id}) == stored * ids + {id};
    } else {
      assert stored * (ids + {id}) == stored * ids;
    }
  }

  function Tallied(stored: map<uint64, nat>, c: uint64): nat {
    if c in stored then stored[c] else 0
  }

  /** The tally of the items seen so far. */
  ghost predicate Tally(schema: Schema, items: map<uint64, Item>, seen: set<uint64>, stored: map<uint64, nat>) {
    forall c :: Tallied(stored, c) == CountIn(schema, items, seen, c)
  }

  lemma TallyStep(schema: Schema, items: map<uint64, Item>, seen: set<uint64>, stored: map<uint64, nat>, id: uint64)
    requires Tally(schema, items, seen, stored) && id in items && id !in seen
    ensures var r := Reference(schema, items[id]);
      Tally(schema, items, seen + {id}, if r.None? then stored else stored[r.value := Tallied(stored, r.value) + 1])
  {
    hide Reference;
    forall c: uint64
      ensures CountIn(schema, items, seen + {id}, c)
        == Tallied(stored, c) + if Reference(schema, items[id]) == Some(c) then 1 else 0
    {
      CountInStep(schema, items, seen, id, c);
    }
  }

  lemma AllTallied(schema: Schema, items: map<uint64, Item>, seen: set<uint64>, stored: map<uint64, nat>)
    requires Tally(schema, items, seen, stored) && seen == items.Keys
    ensures forall c :: Tallied(stored, c) == |StoredIn(schema, items, c)|
  {
    forall c: uint64
      ensures CountIn(schema, items, seen, c) == |StoredIn(schema, items, c)|
    {
      assert StoredIn(schema, items, c) * seen == StoredIn(schema, items, c);
    }
  }

  method CountAttributes(schema: Schema, attributes: seq<Attribute>, defIndex: uint32) returns (n: nat)
    ensures n == |NumbersOf(schema, attributes, defIndex)|
  {
    n := 0;
    for i := 0 to |attributes|
      invariant n == |NumbersOf(schema, attributes[..i], defIndex)|
    {
      NumbersOfNext(schema, attributes, i, defIndex);
      if attributes[i].defIndex == defIndex {
        n := n + 1;
      }
    }
    assert attributes[..|attributes|] == attributes;
  }

  /** First pass: the counters of the caskets. */
  method ReadCounters(schema: Schema, items: map<uint64, Item>) returns (issues: nat, counters: map<uint64, uint32>)
    ensures issues == |MissingCounters(schema, items)|
    ensures forall id :: id in counters <==> IsCasket(items, id) && FirstCount(schema, items[id]).Some?
    ensures forall id <- counters :: id in items && FirstCount(schema, items[id]) == Some(counters[id])
  {
    issues, counters := 0, map[];
    var todo := items.Keys;
    MissingNothing(schema, items);
    hide FirstCount, MissingCounters;
    while todo != {}
      invariant todo <= items.Keys
      invariant issues == |MissingCounters(schema, items) - todo|
      invariant forall id :: id in counters <==> id !in todo && IsCasket(items, id) && FirstCount(schema, items[id]).Some?
      invariant forall id <- counters :: id in items && FirstCount(schema, items[id]) == Some(counters[id])
    {
      var id :| id in todo;
      MissingNext(schema, items, todo, id);
      todo := todo - {id};
      if items[id].defIndex == ITEM_CASKET {
        var count := FirstCount(schema, items[id]);
        if count.Some? {
          counters := counters[id := count.value];
        } else {
          issues := issues + 1;
        }
      }
    }
  }

  lemma MissingNothing(schema: Schema, items: map<uint64, Item>)
    ensures MissingCounters(schema, items) - items.Keys == {}
    ensures MissingCounters(schema, items) - {} == MissingCounters(schema, items)
  {
  }

  lemma MissingNext(schema: Schema, items: map<uint64, Item>, todo: set<uint64>, id: uint64)
    requires id in todo && id in items
    ensures |MissingCounters(schema, items) - (todo - {id})| == |MissingCounters(schema, items) - todo|
      + if IsCasket(items, id) && FirstCount(schema, items[id]).None? then 1 else 0
  {
    hide FirstCount;
    var missing := MissingCounters(schema, items);
    assert missing - (todo - {id}) == (missing - todo) + if id in missing then {id} else {};
  }

  method CheckReference(schema: Schema, items: map<uint64, Item>, item: Item) returns (issues: nat, r: Option<uint64>)
    ensures r == Reference(schema, item)
    ensures issues == 0 <==> ReferencePasses(schema, items, item)
  {
    issues := 0;
    var low := CountAttributes(schema, item.attributes, ATTRIBUTE_CASKET_ID_LOW);
    var high := CountAttributes(schema, item.attributes, ATTRIBUTE_CASKET_ID_HIGH);
    hide NumbersOf, Reference;
    if low != high {
      issues := issues + 1;
    }
    r := StorageReference(schema, item);
    if r.Some? {
      if r.value !in items {
        issues := issues + 1;
      } else if items[r.value].defIndex != ITEM_CASKET {
        issues := issues + 1;
      }
      if item.equipped != [] {
        issues := issues + 1;
      }
    }
  }

  predicate AllPass(schema: Schema, items: map<uint64, Item>, ids: set<uint64>)
    requires ids <= items.Keys
  {
    forall id <- ids :: ReferencePasses(schema, items, items[id])
  }

  lemma AllPassStep(schema: Schema, items: map<uint64, Item>, ids: set<uint64>, id: uint64)
    requires ids <= items.Keys && id in items
    ensures AllPass(schema, items, ids + {id}) <==>
      AllPass(schema, items, ids) && ReferencePasses(schema, items, items[id])
  {
    hide ReferencePasses;
  }

  /** Second pass: the references, counted by casket. */
  method CountReferences(schema: Schema, items: map<uint64, Item>) returns (issues: nat, stored: map<uint64, nat>)
    ensures issues == 0 <==> AllPass(schema, items, items.Keys)
    ensures Tally(schema, items, items.Keys, stored)
  {
    issues, stored := 0, map[];
    var seen := {};
    StartOfTally(schema, items);
    hide ReferencePasses, Reference, Tally, AllPass, Tallied;
    while items.Keys - seen != {}
      invariant seen <= items.Keys
      invariant issues == 0 <==> AllPass(schema, items, seen)
      invariant Tally(schema, items, seen, stored)
      decreases items.Keys - seen
    {
      var id :| id in items.Keys - seen;
      AllPassStep(schema, items, seen, id);
      TallyStep(schema, items, seen, stored, id);
      var found, reference := CheckReference(schema, items, items[id]);
      issues := issues + found;
      if reference.Some? {
        stored := stored[reference.value := Tallied(stored, reference.value) + 1];
      }
      seen := seen + {id};
    }
    assert seen == items.Keys;
  }

  lemma StartOfTally(schema: Schema, items: map<uint64, Item>)
    ensures Tally(schema, items, {}, map[]) && AllPass(schema, items, {})
  {
  }

  /**
   LogInventoryConsistency, the casket checks: one issue for each casket without a counter,
   and no other exactly when nothing else is wrong.
   */
  method LogCasketConsistency(schema: Schema, items: map<uint64, Item>) returns (issues: nat)
    ensures issues >= |MissingCounters(schema, items)|
    ensures issues == |MissingCounters(schema, items)| <==> OthersPass(schema, items)
    ensures issues == 0 <==> CheckPasses(schema, items)
  {
    var missing, counters := ReadCounters(schema, items);
    var broken, stored := CountReferences(schema, items);
    AllTallied(schema, items, items.Keys, stored);
    hide StoredIn, ReferencePasses, FirstCount, Tally, MissingCounters;
    issues := missing + broken;
    var todo := counters.Keys;
    while todo != {}
      invariant todo <= counters.Keys && issues >= missing
      invariant issues == missing <==>
        broken == 0 && forall id <- counters.Keys - todo :: counters[id] == |StoredIn(schema, items, id)|
    {
      var id :| id in todo;
      todo := todo - {id};
      var referenced := Tallied(stored, id);
      if counters[id] != referenced {
        issues := issues + 1;
      }
    }
    PassesMeaning(schema, items);
  }

  lemma PassesMeaning(schema: Schema, items: map<uint64, Item>)
    ensures CheckPasses(schema, items) <==> OthersPass(schema, items) && |MissingCounters(schema, items)| == 0
  {
    hide StoredIn, ReferencePasses, FirstCount;
    if |MissingCounters(schema, items)| == 0 {
      assert forall id <- items :: IsCasket(items, id) ==> id !in MissingCounters(schema, items);
    } else {
      var id :| id in MissingCounters(schema, items);
      assert IsCasket(items, id);
    }
  }

  /** In a consistent inventory the check complains of the uncounted caskets and of nothing else. */
  lemma ConsistentPassesCheck(schema: Schema, items: map<uint64, Item>)
    requires Consistent(schema, items)
    ensures OthersPass(schema, items) && MissingCounters(schema, items) == UncountedCaskets(schema, items)
  {
    forall id | id in items
      ensures ReferencePasses(schema, items, items[id])
      ensures IsCasket(items, id) ==>
        if Uncounted(schema, items[id]) then FirstCount(schema, items[id]).None?
        else FirstCount(schema, items[id]) == Some(|StoredIn(schema, items, id)|)
    {
      assert ReferenceConsistent(schema, items, items[id]) && CountConsistent(schema, items, id);
      if IsCasket(items, id) {
        if Uncounted(schema, items[id]) {
          AbsentMeansNone(schema, items[id].attributes, ATTRIBUTE_CASKET_ITEMS_COUNT);
        } else {
          FirstIsOnly(schema, items[id], |StoredIn(schema, items, id)|);
        }
      }
    }
  }

  lemma FirstIsOnly(schema: Schema, casket: Item, n: int)
    requires Counts(schema, casket, n)
    ensures FirstCount(schema, casket) == Some(n)
  {
    var a, d := casket.attributes, ATTRIBUTE_CASKET_ITEMS_COUNT;
    AbsentMeansNone(schema, a, d);
    var i := FindAttribute(a, d);
    SplitNumbers(schema, a, i, d);
    SoleNumber(NumbersOf(schema, a[..i], d), NumberOf(schema, a[i]), NumbersOf(schema, a[i + 1..], d), n);
  }

  /**
   Whatever is deposited, withdrawn and named, the check finds nothing but the caskets that
   had no counter and still have not been named.
   */
  lemma RunPassesCheck(schema: Schema, items: map<uint64, Item>, ops: seq<Op>)
    requires CasketSchema(schema) && Consistent(schema, items)
    ensures var after := Run(schema, items, ops);
      && OthersPass(schema, after)
      && MissingCounters(schema, after) == UncountedCaskets(schema, items) - NamedIn(ops)
      && (CheckPasses(schema, after) <==> UncountedCaskets(schema, items) <= NamedIn(ops))
  {
    hide OthersPass, MissingCounters, CheckPasses, UncountedCaskets, Consistent, Run;
    RunKeepsConsistent(schema, items, ops);
    RunCounts(schema, items, ops);
    ConsistentPassesCheck(schema, Run(schema, items, ops));
    PassesMeaning(schema, Run(schema, items, ops));
  }
}
