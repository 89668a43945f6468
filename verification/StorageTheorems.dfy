/** Storage-unit conservation: counters and references agree over every run. */
module StorageTheorems {
  import opened Prelude
  import opened Items
  import opened ItemSchema
  import opened Storage

  // --------------------------------------------------- values by definition

  lemma {:induction false} NumbersOfJoin(schema: Schema, a: seq<Attribute>, b: seq<Attribute>, d: uint32)
    ensures NumbersOf(schema, a + b, d) == NumbersOf(schema, a, d) + NumbersOf(schema, b, d)
  {
    hide NumberOf;
    if a == [] {
      assert a + b == b;
    } else {
      assert (a + b)[1..] == a[1..] + b;
      NumbersOfJoin(schema, a[1..], b, d);
    }
  }

  lemma NumbersOfOne(schema: Schema, a: Attribute, d: uint32)
    ensures NumbersOf(schema, [a], d) == if a.defIndex == d then [NumberOf(schema, a)] else []
  {
    assert [a][1..] == [];
  }

  lemma {:induction false} NumbersOfStripped(schema: Schema, a: seq<Attribute>, d: uint32)
    ensures NumbersOf(schema, Stripped(a), d) == if IsReference(d) then [] else NumbersOf(schema, a, d)
  {
    hide NumberOf;
    if a != [] {
      NumbersOfStripped(schema, a[1..], d);
    }
  }

  lemma {:induction false} NumbersOfUnnamed(schema: Schema, a: seq<Attribute>, d: uint32)
    requires d != ATTRIBUTE_CUSTOM_NAME
    ensures NumbersOf(schema, Unnamed(a), d) == NumbersOf(schema, a, d)
  {
    hide NumberOf;
    if a != [] {
      NumbersOfUnnamed(schema, a[1..], d);
      var first := if a[0].defIndex == ATTRIBUTE_CUSTOM_NAME then [] else [a[0]];
      assert Unnamed(a) == first + Unnamed(a[1..]);
      if first == [] {
        assert Unnamed(a) == Unnamed(a[1..]);
      } else {
        assert Unnamed(a)[1..] == Unnamed(a[1..]);
      }
    }
  }

  /** Rewriting an attribute's number shows in its own values only. */
  lemma NumbersOfUpdate(schema: Schema, a: seq<Attribute>, i: nat, n: uint32, d: uint32)
    requires i < |a| && IsNumber(schema, a[i].defIndex)
    ensures var b := a[i := WithNumber(schema, a[i], n)];
      if a[i].defIndex != d then NumbersOf(schema, b, d) == NumbersOf(schema, a, d)
      else NumbersOf(schema, b, d) == NumbersOf(schema, a[..i], d) + [n] + NumbersOf(schema, a[i + 1..], d)
  {
    var x := WithNumber(schema, a[i], n);
    SplitNumbers(schema, a, i, d);
    SplitNumbers(schema, a[i := x], i, d);
    assert a[i := x][..i] == a[..i] && a[i := x][i + 1..] == a[i + 1..];
  }

  lemma SplitNumbers(schema: Schema, a: seq<Attribute>, i: nat, d: uint32)
    requires i < |a|
    ensures NumbersOf(schema, a, d) == NumbersOf(schema, a[..i], d)
      + (if a[i].defIndex == d then [NumberOf(schema, a[i])] else []) + NumbersOf(schema, a[i + 1..], d)
  {
    assert a == a[..i] + ([a[i]] + a[i + 1..]);
    NumbersOfJoin(schema, a[..i], [a[i]] + a[i + 1..], d);
    NumbersOfJoin(schema, [a[i]], a[i + 1..], d);
    NumbersOfOne(schema, a[i], d);
  }

  lemma {:induction false} AbsentMeansNone(schema: Schema, a: seq<Attribute>, d: uint32)
    ensures NumbersOf(schema, a, d) == [] <==> forall i :: 0 <= i < |a| ==> a[i].defIndex != d
  {
    if a != [] {
      AbsentMeansNone(schema, a[1..], d);
      assert forall i :: 1 <= i < |a| ==> a[i] == a[1..][i - 1];
    }
  }

  // ------------------------------------------------------------- the counter

  lemma CounterIndex(schema: Schema, a: seq<Attribute>, count: uint32)
    requires NumbersOf(schema, a, ATTRIBUTE_CASKET_ITEMS_COUNT) == [count]
    ensures var i := LastIndex(a, ATTRIBUTE_CASKET_ITEMS_COUNT);
      && i >= 0 && NumberOf(schema, a[i]) == count
      && NumbersOf(schema, a[..i], ATTRIBUTE_CASKET_ITEMS_COUNT) == []
      && NumbersOf(schema, a[i + 1..], ATTRIBUTE_CASKET_ITEMS_COUNT) == []
  {
    var i := LastIndex(a, ATTRIBUTE_CASKET_ITEMS_COUNT);
    assert i >= 0 by {
      AbsentMeansNone(schema, a, ATTRIBUTE_CASKET_ITEMS_COUNT);
    }
    var before := NumbersOf(schema, a[..i], ATTRIBUTE_CASKET_ITEMS_COUNT);
    var after := NumbersOf(schema, a[i + 1..], ATTRIBUTE_CASKET_ITEMS_COUNT);
    var n := NumberOf(schema, a[i]);
    assert before + [n] + after == [count] by {
      SplitNumbers(schema, a, i, ATTRIBUTE_CASKET_ITEMS_COUNT);
    }
    SoleNumber(before, n, after, count);
  }

  /** A casket with one counter can be counted up or down exactly within its capacity. */
  lemma CountedSucceeds(schema: Schema, a: seq<Attribute>, delta: int, now: uint32, count: uint32)
    requires -1 <= delta <= 1 && count <= CAPACITY
    requires NumbersOf(schema, a, ATTRIBUTE_CASKET_ITEMS_COUNT) == [count]
    ensures Counted(schema, a, delta, now).Some? <==> 0 <= count + delta <= CAPACITY
  {
    CounterIndex(schema, a, count);
  }

  /** Counting shows in the counter; references keep their values. */
  lemma CountedMeaning(schema: Schema, a: seq<Attribute>, delta: int, now: uint32, count: uint32, d: uint32)
    requires CasketSchema(schema) && -1 <= delta <= 1 && 0 <= count + delta <= CAPACITY && count <= CAPACITY
    requires NumbersOf(schema, a, ATTRIBUTE_CASKET_ITEMS_COUNT) == [count]
    requires IsReference(d) || d == ATTRIBUTE_CASKET_ITEMS_COUNT
    ensures Counted(schema, a, delta, now).Some?
    ensures NumbersOf(schema, Counted(schema, a, delta, now).value, d)
         == if IsReference(d) then NumbersOf(schema, a, d) else [count + delta]
  {
    hide NumbersOf, NumberOf, WithNumber;
    CounterIndex(schema, a, count);
    CountedNumbers(schema, a, LastIndex(a, ATTRIBUTE_CASKET_ITEMS_COUNT), count + delta, now, d);
  }

  lemma SoleNumber(before: seq<uint32>, n: uint32, after: seq<uint32>, count: uint32)
    requires before + [n] + after == [count]
    ensures before == [] && after == [] && n == count
  {
    assert |before + [n] + after| == 1;
    assert (before + [n] + after)[|before|] == n;
  }

  /** Writing the counter and then the date: what the values of another definition become. */
  lemma CountedNumbers(schema: Schema, a: seq<Attribute>, i: nat, n: uint32, now: uint32, d: uint32)
    requires CasketSchema(schema) && i < |a| && a[i].defIndex == ATTRIBUTE_CASKET_ITEMS_COUNT
    requires d != ATTRIBUTE_CASKET_MODIFICATION_DATE
    ensures var date := LastIndex(a, ATTRIBUTE_CASKET_MODIFICATION_DATE);
      var b := a[i := WithNumber(schema, a[i], n)];
      var c := if date < 0 then b else b[date := WithNumber(schema, b[date], now)];
      NumbersOf(schema, c, d) ==
        if d != ATTRIBUTE_CASKET_ITEMS_COUNT then NumbersOf(schema, a, d)
        else NumbersOf(schema, a[..i], d) + [n] + NumbersOf(schema, a[i + 1..], d)
  {
    var date := LastIndex(a, ATTRIBUTE_CASKET_MODIFICATION_DATE);
    var b := a[i := WithNumber(schema, a[i], n)];
    NumbersOfUpdate(schema, a, i, n, d);
    if date >= 0 {
      assert b[date] == a[date];
      NumbersOfUpdate(schema, b, date, now, d);
    }
  }

  lemma EmbeddedMeaning(schema: Schema, a: seq<Attribute>, storageId: uint64, d: uint32)
    requires CasketSchema(schema)
    ensures NumbersOf(schema, Embedded(schema, a, storageId), d) ==
      if d == ATTRIBUTE_CASKET_ID_LOW then [storageId % WORD]
      else if d == ATTRIBUTE_CASKET_ID_HIGH then [storageId / WORD]
      else NumbersOf(schema, a, d)
  {
    var low := WithNumber(schema, Attribute(ATTRIBUTE_CASKET_ID_LOW, Unset), storageId % WORD);
    var high := WithNumber(schema, Attribute(ATTRIBUTE_CASKET_ID_HIGH, Unset), storageId / WORD);
    NumbersOfStripped(schema, a, d);
    NumbersOfJoin(schema, Stripped(a), [low, high], d);
    assert [low, high] == [low] + [high];
    NumbersOfJoin(schema, [low], [high], d);
    NumbersOfOne(schema, low, d);
    NumbersOfOne(schema, high, d);
  }

  /** The two halves of a casket id are put together again. */
  lemma DepositedReference(schema: Schema, item: Item, storageId: uint64)
    requires CasketSchema(schema)
    ensures Reference(schema, DepositedItem(schema, item, storageId)) == Some(storageId)
  {
    EmbeddedMeaning(schema, item.attributes, storageId, ATTRIBUTE_CASKET_ID_LOW);
    EmbeddedMeaning(schema, item.attributes, storageId, ATTRIBUTE_CASKET_ID_HIGH);
  }

  lemma CountedCasketValues(schema: Schema, casket: Item, n: int, delta: int, now: uint32)
    requires CasketSchema(schema) && Counts(schema, casket, n) && -1 <= delta <= 1
    requires Counted(schema, casket.attributes, delta, now).Some?
    ensures var counted := CountedCasket(schema, casket, delta, now);
      && Counts(schema, counted, n + delta)
      && Reference(schema, counted) == Reference(schema, casket)
      && (Whole(schema, counted) <==> Whole(schema, casket))
  {
    hide NumbersOf, Counted;
    CountedSucceeds(schema, casket.attributes, delta, now, n);
    CountedMeaning(schema, casket.attributes, delta, now, n, ATTRIBUTE_CASKET_ITEMS_COUNT);
    CountedMeaning(schema, casket.attributes, delta, now, n, ATTRIBUTE_CASKET_ID_LOW);
    CountedMeaning(schema, casket.attributes, delta, now, n, ATTRIBUTE_CASKET_ID_HIGH);
  }

  /** A casket without a counter cannot be counted up or down. */
  lemma UncountedIsRefused(schema: Schema, a: seq<Attribute>, delta: int, now: uint32)
    requires NumbersOf(schema, a, ATTRIBUTE_CASKET_ITEMS_COUNT) == []
    ensures Counted(schema, a, delta, now).None?
  {
    AbsentMeansNone(schema, a, ATTRIBUTE_CASKET_ITEMS_COUNT);
  }

  /** A casket that is counted up or down by one, and its references. */
  lemma CountedCasketMeaning(schema: Schema, items: map<uint64, Item>, s: uint64, delta: int, now: uint32)
    requires CasketSchema(schema) && Consistent(schema, items) && -1 <= delta <= 1
    requires s in items && items[s].defIndex == ITEM_CASKET
    requires Counted(schema, items[s].attributes, delta, now).Some?
    ensures var casket := CountedCasket(schema, items[s], delta, now);
      && Counts(schema, casket, |StoredIn(schema, items, s)| + delta)
      && Whole(schema, casket) && Reference(schema, casket) == Reference(schema, items[s]) == None
  {
    hide Whole, Counts, Reference, Counted;
    assert CountConsistent(schema, items, s) && ReferenceConsistent(schema, items, items[s]);
    if Uncounted(schema, items[s]) {
      UncountedIsRefused(schema, items[s].attributes, delta, now);
    }
    CountedCasketValues(schema, items[s], |StoredIn(schema, items, s)|, delta, now);
  }

  // ------------------------------------------------------------ preservation

  /** Moving one item into or out of a casket whose counter follows. */
  lemma MoveKeepsConsistent(schema: Schema, items: map<uint64, Item>, s: uint64, i: uint64, casket: Item, item: Item)
    requires Consistent(schema, items) && s in items && i in items
    requires items[s].defIndex == casket.defIndex == ITEM_CASKET && items[i].defIndex == item.defIndex != ITEM_CASKET
    requires Reference(schema, items[s]) == Reference(schema, casket) == None && Whole(schema, casket) && Whole(schema, item)
    requires
      || (Reference(schema, items[i]) == None && Reference(schema, item) == Some(s) && item.equipped == []
          && Counts(schema, casket, |StoredIn(schema, items, s)| + 1))
      || (Reference(schema, items[i]) == Some(s) && Reference(schema, item) == None
          && Counts(schema, casket, |StoredIn(schema, items, s)| - 1))
    ensures var after := items[s := casket][i := item];
      && Consistent(schema, after)
      && StoredIn(schema, after, s) == (if Reference(schema, item) == Some(s)
           then StoredIn(schema, items, s) + {i} else StoredIn(schema, items, s) - {i})
  {
    hide Whole, Counts, Reference;
    var after := items[s := casket][i := item];
    MovedSets(schema, items, s, i, casket, item, s);
    forall id | id in after
      ensures ReferenceConsistent(schema, after, after[id]) && CountConsistent(schema, after, id)
    {
      MovedReference(schema, items, s, i, casket, item, id);
      MovedCount(schema, items, s, i, casket, item, id);
    }
  }

  lemma MovedReference(schema: Schema, items: map<uint64, Item>, s: uint64, i: uint64, casket: Item, item: Item, id: uint64)
    requires Consistent(schema, items) && s in items && i in items && id in items
    requires items[s].defIndex == casket.defIndex == ITEM_CASKET && items[i].defIndex == item.defIndex != ITEM_CASKET
    requires Reference(schema, casket) == None && Whole(schema, casket) && Whole(schema, item)
    requires Reference(schema, item) == None || (Reference(schema, item) == Some(s) && item.equipped == [])
    ensures var after := items[s := casket][i := item]; ReferenceConsistent(schema, after, after[id])
  {
    hide Whole, Reference;
    assert ReferenceConsistent(schema, items, items[id]);
  }

  lemma MovedCount(schema: Schema, items: map<uint64, Item>, s: uint64, i: uint64, casket: Item, item: Item, id: uint64)
    requires Consistent(schema, items) && s in items && i in items && id in items && s != i
    requires items[i].defIndex == item.defIndex != ITEM_CASKET && Reference(schema, items[s]) == Reference(schema, casket) == None
    requires
      || (Reference(schema, items[i]) == None && Reference(schema, item) == Some(s)
          && Counts(schema, casket, |StoredIn(schema, items, s)| + 1))
      || (Reference(schema, items[i]) == Some(s) && Reference(schema, item) == None
          && Counts(schema, casket, |StoredIn(schema, items, s)| - 1))
    ensures var after := items[s := casket][i := item]; CountConsistent(schema, after, id)
  {
    hide Counts, Reference;
    MovedSets(schema, items, s, i, casket, item, id);
    assert CountConsistent(schema, items, id);
  }

  lemma MovedSets(schema: Schema, items: map<uint64, Item>, s: uint64, i: uint64, casket: Item, item: Item, c: uint64)
    requires s in items && i in items && s != i && Reference(schema, items[s]) == Reference(schema, casket) == None
    requires (Reference(schema, items[i]) == None && Reference(schema, item) == Some(s))
      || (Reference(schema, items[i]) == Some(s) && Reference(schema, item) == None)
    ensures var before, after := StoredIn(schema, items, c), StoredIn(schema, items[s := casket][i := item], c);
      if c != s then after == before
      else if Reference(schema, item) == Some(s) then after == before + {i} && |after| == |before| + 1
      else after == before - {i} && |after| == |before| - 1
  {
    hide Reference;
    var refs: map<uint64, Option<uint64>> := References(schema, items);
    var r := Reference(schema, item);
    assert References(schema, items[s := casket][i := item]) == refs[s := None][i := r];
    MoveChangesOneSet(refs, s, i, r, c);
  }

  lemma PointingAfter(refs: map<uint64, Option<uint64>>, i: uint64, r: Option<uint64>, c: uint64)
    ensures PointingTo(refs[i := r], c) == if r == Some(c) then PointingTo(refs, c) + {i} else PointingTo(refs, c) - {i}
  {
  }

  lemma PointedFrom(refs: map<uint64, Option<uint64>>, i: uint64, c: uint64)
    requires i in refs
    ensures i in PointingTo(refs, c) <==> refs[i] == Some(c)
  {
  }

  /** Items of other caskets stay; the moved item joins or leaves this one. */
  lemma MoveChangesOneSet(refs: map<uint64, Option<uint64>>, s: uint64, i: uint64, r: Option<uint64>, c: uint64)
    requires s in refs && i in refs && s != i && refs[s] == None
    requires (refs[i] == None && r == Some(s)) || (refs[i] == Some(s) && r == None)
    ensures var before, after := PointingTo(refs, c), PointingTo(refs[s := None][i := r], c);
      if c != s then after == before
      else if r == Some(s) then after == before + {i} && |after| == |before| + 1
      else after == before - {i} && |after| == |before| - 1
  {
    var before := PointingTo(refs, c);
    PointingAfter(refs, s, None, c);
    PointedFrom(refs, s, c);
    assert before - {s} == before;
    PointingAfter(refs[s := None], i, r, c);
    PointedFrom(refs, i, c);
    if c != s {
      assert before - {i} == before;
    }
  }

  lemma DepositKeepsConsistent(schema: Schema, items: map<uint64, Item>, s: uint64, i: uint64, now: uint32)
    requires CasketSchema(schema) && Consistent(schema, items)
    requires DepositResult(schema, items, s, i, now) == Success
    ensures var after := Step(schema, items, Deposit(s, i, now));
      Consistent(schema, after) && StoredIn(schema, after, s) == StoredIn(schema, items, s) + {i}
  {
    CountedCasketMeaning(schema, items, s, 1, now);
    DepositedReference(schema, items[i], s);
    DepositedItemIsWhole(schema, items[i], s);
    MoveKeepsConsistent(schema, items, s, i, CountedCasket(schema, items[s], 1, now), DepositedItem(schema, items[i], s));
  }

  lemma DepositedItemIsWhole(schema: Schema, item: Item, s: uint64)
    requires CasketSchema(schema)
    ensures Whole(schema, DepositedItem(schema, item, s))
  {
    EmbeddedMeaning(schema, item.attributes, s, ATTRIBUTE_CASKET_ID_LOW);
    EmbeddedMeaning(schema, item.attributes, s, ATTRIBUTE_CASKET_ID_HIGH);
  }

  lemma WithdrawKeepsConsistent(schema: Schema, items: map<uint64, Item>, s: uint64, i: uint64, now: uint32)
    requires CasketSchema(schema) && Consistent(schema, items)
    requires WithdrawResult(schema, items, s, i, now) == Success
    ensures var after := Step(schema, items, Withdraw(s, i, now));
      Consistent(schema, after) && StoredIn(schema, after, s) == StoredIn(schema, items, s) - {i}
  {
    hide Whole, Counts, Reference, Counted, Stripped;
    assert ReferenceConsistent(schema, items, items[i]);
    CountedCasketMeaning(schema, items, s, -1, now);
    WithdrawnItemIsWhole(schema, items[i]);
    MoveKeepsConsistent(schema, items, s, i, CountedCasket(schema, items[s], -1, now), WithdrawnItem(items[i]));
  }

  lemma WithdrawnItemIsWhole(schema: Schema, item: Item)
    ensures Whole(schema, WithdrawnItem(item)) && Reference(schema, WithdrawnItem(item)) == None
  {
    NumbersOfStripped(schema, item.attributes, ATTRIBUTE_CASKET_ID_LOW);
    NumbersOfStripped(schema, item.attributes, ATTRIBUTE_CASKET_ID_HIGH);
  }

  lemma StartedNumbers(schema: Schema, a: seq<Attribute>, d: uint32)
    requires CasketSchema(schema)
    ensures NumbersOf(schema, WithCounter(schema, a), d) ==
      if d == ATTRIBUTE_CASKET_ITEMS_COUNT && NumbersOf(schema, a, d) == [] then [0] else NumbersOf(schema, a, d)
  {
    AbsentMeansNone(schema, a, ATTRIBUTE_CASKET_ITEMS_COUNT);
    if FindAttribute(a, ATTRIBUTE_CASKET_ITEMS_COUNT) == |a| {
      var added := WithNumber(schema, Attribute(ATTRIBUTE_CASKET_ITEMS_COUNT, Unset), 0);
      NumbersOfJoin(schema, a, [added], d);
      NumbersOfOne(schema, added, d);
    }
  }

  lemma DatedNumbers(schema: Schema, a: seq<Attribute>, now: uint32, d: uint32)
    requires CasketSchema(schema) && d != ATTRIBUTE_CASKET_MODIFICATION_DATE
    ensures NumbersOf(schema, Dated(schema, a, now), d) == NumbersOf(schema, a, d)
  {
    var date := FindAttribute(a, ATTRIBUTE_CASKET_MODIFICATION_DATE);
    if date < |a| {
      NumbersOfUpdate(schema, a, date, now, d);
    } else {
      var added := WithNumber(schema, Attribute(ATTRIBUTE_CASKET_MODIFICATION_DATE, Unset), now);
      NumbersOfJoin(schema, a, [added], d);
      NumbersOfOne(schema, added, d);
    }
  }

  lemma RenamedNumbers(schema: Schema, a: seq<Attribute>, name: Text, d: uint32)
    requires d != ATTRIBUTE_CUSTOM_NAME
    ensures NumbersOf(schema, Named(schema, a, name), d) == NumbersOf(schema, a, d)
  {
    NumbersOfUnnamed(schema, a, d);
    if name != [] {
      var text := WithText(schema, Attribute(ATTRIBUTE_CUSTOM_NAME, Unset), name);
      NumbersOfJoin(schema, Unnamed(a), [text], d);
      NumbersOfOne(schema, text, d);
    } else {
      assert Unnamed(a) + [] == Unnamed(a);
    }
  }

  /** Naming touches the date and the name, and starts a counter that is missing; references stay. */
  lemma NamedNumbers(schema: Schema, a: seq<Attribute>, name: Text, now: uint32, d: uint32)
    requires CasketSchema(schema)
    requires d != ATTRIBUTE_CUSTOM_NAME && d != ATTRIBUTE_CASKET_MODIFICATION_DATE
    ensures NumbersOf(schema, Named(schema, Prepared(schema, a, now), name), d) ==
      if d == ATTRIBUTE_CASKET_ITEMS_COUNT && NumbersOf(schema, a, d) == [] then [0] else NumbersOf(schema, a, d)
  {
    hide NumbersOf, Named, Dated, WithCounter;
    StartedNumbers(schema, a, d);
    DatedNumbers(schema, WithCounter(schema, a), now, d);
    RenamedNumbers(schema, Prepared(schema, a, now), name, d);
  }

  function NamedCasket(schema: Schema, casket: Item, name: Text, now: uint32): Item {
    casket.(attributes := Named(schema, Prepared(schema, casket.attributes, now), name))
  }

  /** Naming keeps the count; a casket that has none counts from zero. */
  lemma NamedCasketMeaning(schema: Schema, casket: Item, name: Text, now: uint32, n: int)
    requires CasketSchema(schema) && (Counts(schema, casket, n) || (Uncounted(schema, casket) && n == 0))
    ensures var named := NamedCasket(schema, casket, name, now);
      && Reference(schema, named) == Reference(schema, casket)
      && (Whole(schema, named) <==> Whole(schema, casket)) && Counts(schema, named, n)
  {
    hide Named, Prepared, NumbersOf, CasketSchema;
    NamedNumbers(schema, casket.attributes, name, now, ATTRIBUTE_CASKET_ITEMS_COUNT);
    NamedNumbers(schema, casket.attributes, name, now, ATTRIBUTE_CASKET_ID_LOW);
    NamedNumbers(schema, casket.attributes, name, now, ATTRIBUTE_CASKET_ID_HIGH);
  }

  lemma NamingKeepsConsistent(schema: Schema, items: map<uint64, Item>, c: uint64, name: Text, now: uint32)
    requires CasketSchema(schema) && Consistent(schema, items)
    ensures var after := Step(schema, items, NameCasket(c, name, now));
      && Consistent(schema, after)
      && (c in items && items[c].defIndex == ITEM_CASKET ==>
            c in after && Counts(schema, after[c], |StoredIn(schema, items, c)|))
  {
    if c in items && items[c].defIndex == ITEM_CASKET {
      assert Step(schema, items, NameCasket(c, name, now)) == items[c := NamedCasket(schema, items[c], name, now)];
      hide Whole, Counts, Reference, NamedCasket, Uncounted;
      assert CountConsistent(schema, items, c);
      NamedCasketMeaning(schema, items[c], name, now, |StoredIn(schema, items, c)|);
      ReplaceKeepsConsistent(schema, items, c, NamedCasket(schema, items[c], name, now));
    }
  }

  lemma ReplaceKeepsConsistent(schema: Schema, items: map<uint64, Item>, c: uint64, casket: Item)
    requires Consistent(schema, items) && c in items && items[c].defIndex == casket.defIndex == ITEM_CASKET
    requires Reference(schema, casket) == Reference(schema, items[c]) && Whole(schema, casket)
    requires Counts(schema, casket, |StoredIn(schema, items, c)|)
    ensures Consistent(schema, items[c := casket])
  {
    hide Whole, Counts, Reference;
    var after := items[c := casket];
    assert ReferenceConsistent(schema, items, items[c]);
    assert References(schema, after) == References(schema, items);
    forall id | id in after
      ensures ReferenceConsistent(schema, after, after[id]) && CountConsistent(schema, after, id)
    {
      assert ReferenceConsistent(schema, items, items[id]) && CountConsistent(schema, items, id);
    }
  }

  lemma StepKeepsConsistent(schema: Schema, items: map<uint64, Item>, op: Op)
    requires CasketSchema(schema) && Consistent(schema, items)
    ensures Consistent(schema, Step(schema, items, op))
  {
    match op
    case Deposit(s, i, now) =>
      if DepositResult(schema, items, s, i, now) == Success {
        DepositKeepsConsistent(schema, items, s, i, now);
      }
    case Withdraw(s, i, now) =>
      if WithdrawResult(schema, items, s, i, now) == Success {
        WithdrawKeepsConsistent(schema, items, s, i, now);
      }
    case NameCasket(c, name, now) => NamingKeepsConsistent(schema, items, c, name, now);
  }

  /** Over every run, each counter equals the number of items that refer to the casket. */
  lemma {:induction false} RunKeepsConsistent(schema: Schema, items: map<uint64, Item>, ops: seq<Op>)
    requires CasketSchema(schema) && Consistent(schema, items)
    ensures Consistent(schema, Run(schema, items, ops))
    decreases ops
  {
    if ops != [] {
      StepKeepsConsistent(schema, items, ops[0]);
      RunKeepsConsistent(schema, Step(schema, items, ops[0]), ops[1..]);
    }
  }

  // ------------------------------------------------- caskets without a counter

  function UncountedCaskets(schema: Schema, items: map<uint64, Item>): set<uint64> {
    set id | id in items && items[id].defIndex == ITEM_CASKET && Uncounted(schema, items[id])
  }

  /** The caskets that are named in a run. */
  function NamedIn(ops: seq<Op>): set<uint64>
    decreases ops
  {
    if ops == [] then {} else (if ops[0].NameCasket? then {ops[0].casketId} else {}) + NamedIn(ops[1..])
  }

  lemma CountedIsNotUncounted(schema: Schema, casket: Item, n: int)
    requires Counts(schema, casket, n)
    ensures !Uncounted(schema, casket)
  {
  }

  lemma DepositCounts(schema: Schema, items: map<uint64, Item>, s: uint64, i: uint64, now: uint32)
    requires CasketSchema(schema) && Consistent(schema, items)
    ensures UncountedCaskets(schema, Step(schema, items, Deposit(s, i, now))) == UncountedCaskets(schema, items)
  {
    hide Uncounted, UncountedCaskets, Consistent, Counted, Embedded, Reference, CountedCasket, DepositedItem;
    if DepositResult(schema, items, s, i, now) == Success {
      CountedCasketIsCounted(schema, items, s, 1, now);
      DepositedIsSame(schema, items[i], s);
      MoveCounts(schema, items, s, CountedCasket(schema, items[s], 1, now), i, DepositedItem(schema, items[i], s));
    }
  }

  lemma DepositedIsSame(schema: Schema, item: Item, s: uint64)
    ensures DepositedItem(schema, item, s).defIndex == item.defIndex && DepositedItem(schema, item, s).id == item.id
  {
  }

  lemma WithdrawCounts(schema: Schema, items: map<uint64, Item>, s: uint64, i: uint64, now: uint32)
    requires CasketSchema(schema) && Consistent(schema, items)
    ensures UncountedCaskets(schema, Step(schema, items, Withdraw(s, i, now))) == UncountedCaskets(schema, items)
  {
    hide Uncounted, UncountedCaskets, Consistent, Counted, Reference, CountedCasket, Stripped;
    if WithdrawResult(schema, items, s, i, now) == Success {
      CountedCasketIsCounted(schema, items, s, -1, now);
      StoredIsNoCasket(schema, items, i);
      MoveCounts(schema, items, s, CountedCasket(schema, items[s], -1, now), i, WithdrawnItem(items[i]));
    }
  }

  lemma NamingCounts(schema: Schema, items: map<uint64, Item>, c: uint64, name: Text, now: uint32)
    requires CasketSchema(schema) && Consistent(schema, items)
    ensures UncountedCaskets(schema, Step(schema, items, NameCasket(c, name, now))) == UncountedCaskets(schema, items) - {c}
  {
    hide Uncounted, UncountedCaskets, Consistent, Prepared, PartlyPrepared, Named;
    if c in items && items[c].defIndex == ITEM_CASKET {
      var casket := Step(schema, items, NameCasket(c, name, now))[c];
      NamingKeepsConsistent(schema, items, c, name, now);
      CountedIsNotUncounted(schema, casket, |StoredIn(schema, items, c)|);
      UncountedAfter(schema, items, c, casket);
    } else {
      OnlyCasketsAreUncounted(schema, items, c);
    }
  }

  /** An operation gives a casket its counter exactly when it names it. */
  lemma StepCounts(schema: Schema, items: map<uint64, Item>, op: Op)
    requires CasketSchema(schema) && Consistent(schema, items)
    ensures UncountedCaskets(schema, Step(schema, items, op)) == UncountedCaskets(schema, items) - NamedIn([op])
  {
    assert NamedIn([op]) == if op.NameCasket? then {op.casketId} else {} by {
      assert [op][1..] == [];
    }
    hide UncountedCaskets, Consistent, Step, CasketSchema;
    match op
    case Deposit(s, i, now) => DepositCounts(schema, items, s, i, now);
    case Withdraw(s, i, now) => WithdrawCounts(schema, items, s, i, now);
    case NameCasket(c, name, now) => NamingCounts(schema, items, c, name, now);
  }

  lemma StoredIsNoCasket(schema: Schema, items: map<uint64, Item>, i: uint64)
    requires Consistent(schema, items) && i in items && Reference(schema, items[i]).Some?
    ensures items[i].defIndex != ITEM_CASKET
  {
    assert ReferenceConsistent(schema, items, items[i]);
  }

  lemma OnlyCasketsAreUncounted(schema: Schema, items: map<uint64, Item>, c: uint64)
    requires c !in items || items[c].defIndex != ITEM_CASKET
    ensures c !in UncountedCaskets(schema, items)
  {
  }

  lemma UncountedAfter(schema: Schema, items: map<uint64, Item>, id: uint64, item: Item)
    ensures UncountedCaskets(schema, items[id := item]) ==
      if item.defIndex == ITEM_CASKET && Uncounted(schema, item) then UncountedCaskets(schema, items) + {id}
      else UncountedCaskets(schema, items) - {id}
    ensures id in items && !(items[id].defIndex == ITEM_CASKET && Uncounted(schema, items[id])) ==>
      id !in UncountedCaskets(schema, items)
  {
    hide Uncounted;
  }

  /** Moving an item between a counted casket and the inventory gives no casket a counter and takes none away. */
  lemma MoveCounts(schema: Schema, items: map<uint64, Item>, s: uint64, casket: Item, i: uint64, item: Item)
    requires s in items && !Uncounted(schema, items[s]) && !Uncounted(schema, casket)
    requires i in items && s != i && items[i].defIndex == item.defIndex != ITEM_CASKET
    ensures UncountedCaskets(schema, items[s := casket][i := item]) == UncountedCaskets(schema, items)
  {
    hide Uncounted, UncountedCaskets;
    UncountedAfter(schema, items, s, casket);
    UncountedAfter(schema, items, i, items[i]);
    UncountedAfter(schema, items[s := casket], i, item);
    assert UncountedCaskets(schema, items) - {s} - {i} == UncountedCaskets(schema, items);
  }

  lemma CountedCasketIsCounted(schema: Schema, items: map<uint64, Item>, s: uint64, delta: int, now: uint32)
    requires CasketSchema(schema) && Consistent(schema, items) && -1 <= delta <= 1
    requires s in items && items[s].defIndex == ITEM_CASKET
    requires Counted(schema, items[s].attributes, delta, now).Some?
    ensures !Uncounted(schema, items[s]) && !Uncounted(schema, CountedCasket(schema, items[s], delta, now))
  {
    CountedCasketMeaning(schema, items, s, delta, now);
    if Uncounted(schema, items[s]) {
      UncountedIsRefused(schema, items[s].attributes, delta, now);
    }
  }

  /** Over every run, the caskets without a counter are those that had none and were not named. */
  lemma {:induction false} RunCounts(schema: Schema, items: map<uint64, Item>, ops: seq<Op>)
    requires CasketSchema(schema) && Consistent(schema, items)
    ensures UncountedCaskets(schema, Run(schema, items, ops)) == UncountedCaskets(schema, items) - NamedIn(ops)
    decreases ops
  {
    if ops != [] {
      hide UncountedCaskets, Consistent, Step;
      StepKeepsConsistent(schema, items, ops[0]);
      StepCounts(schema, items, ops[0]);
      RunCounts(schema, Step(schema, items, ops[0]), ops[1..]);
      assert NamedIn([ops[0]]) == if ops[0].NameCasket? then {ops[0].casketId} else {} by {
        assert [ops[0]][1..] == [];
      }
    }
  }

  // --------------------------------------------------------------- the inverse

  lemma {:induction false} StrippedIsUnchanged(a: seq<Attribute>)
    requires forall x <- a :: !IsReference(x.defIndex)
    ensures Stripped(a) == a
  {
    if a != [] {
      StrippedIsUnchanged(a[1..]);
    }
  }

  lemma {:induction false} StrippedJoin(a: seq<Attribute>, b: seq<Attribute>)
    ensures Stripped(a + b) == Stripped(a) + Stripped(b)
  {
    if a == [] {
      assert a + b == b;
    } else {
      assert (a + b)[1..] == a[1..] + b;
      StrippedJoin(a[1..], b);
    }
  }

  lemma {:induction false} StrippedHasNoReference(a: seq<Attribute>)
    ensures forall x <- Stripped(a) :: !IsReference(x.defIndex)
  {
    if a != [] {
      StrippedHasNoReference(a[1..]);
    }
  }

  /** Below capacity a deposit of an item that is in no casket into a counted one succeeds, and so does taking it out again. */
  lemma DepositThenWithdraw(schema: Schema, items: map<uint64, Item>, s: uint64, i: uint64, now: uint32, later: uint32)
    requires CasketSchema(schema) && Consistent(schema, items)
    requires s in items && i in items && items[s].defIndex == ITEM_CASKET && items[i].defIndex != ITEM_CASKET
    requires Reference(schema, items[i]).None? && |StoredIn(schema, items, s)| < CAPACITY && !Uncounted(schema, items[s])
    ensures DepositResult(schema, items, s, i, now) == Success
    ensures var stored := Step(schema, items, Deposit(s, i, now));
      var after := Step(schema, stored, Withdraw(s, i, later));
      && WithdrawResult(schema, stored, s, i, later) == Success
      && after[i] == items[i].(equipped := [])
      && StoredIn(schema, after, s) == StoredIn(schema, items, s)
      && forall id <- items :: id != s && id != i ==> after[id] == items[id]
  {
    hide Whole, Counts, Reference, Embedded, Stripped, Counted, DepositedItem, WithdrawnItem;
    DepositSucceeds(schema, items, s, i, now);
    DepositKeepsConsistent(schema, items, s, i, now);
    DepositedReference(schema, items[i], s);
    var stored := Step(schema, items, Deposit(s, i, now));
    assert stored[i] == DepositedItem(schema, items[i], s);
    WithdrawSucceeds(schema, stored, s, i, later);
    WithdrawKeepsConsistent(schema, stored, s, i, later);
    PointedFrom(References(schema, items), i, s);
    PointedFrom(References(schema, stored), i, s);
    WithdrawnIsOriginal(schema, items, i, s);
  }

  lemma WithdrawnIsOriginal(schema: Schema, items: map<uint64, Item>, i: uint64, s: uint64)
    requires Consistent(schema, items) && i in items && Reference(schema, items[i]).None?
    ensures WithdrawnItem(DepositedItem(schema, items[i], s)) == items[i].(equipped := [])
  {
    assert ReferenceConsistent(schema, items, items[i]);
    StripUndoesEmbed(schema, items[i]);
    RestoredAttributes(schema, items[i], s);
  }

  lemma DepositSucceeds(schema: Schema, items: map<uint64, Item>, s: uint64, i: uint64, now: uint32)
    requires CasketSchema(schema) && Consistent(schema, items)
    requires s in items && i in items && items[s].defIndex == ITEM_CASKET && items[i].defIndex != ITEM_CASKET
    ensures DepositResult(schema, items, s, i, now) ==
      if Reference(schema, items[i]).Some? then InternalError
      else if |StoredIn(schema, items, s)| == 1000 || Uncounted(schema, items[s]) then CapacityExceeded
      else Success
  {
    hide NumbersOf;
    assert CountConsistent(schema, items, s);
    if Uncounted(schema, items[s]) {
      UncountedIsRefused(schema, items[s].attributes, 1, now);
    } else {
      CountedSucceeds(schema, items[s].attributes, 1, now, |StoredIn(schema, items, s)|);
    }
  }

  lemma WithdrawSucceeds(schema: Schema, items: map<uint64, Item>, s: uint64, i: uint64, now: uint32)
    requires CasketSchema(schema) && Consistent(schema, items)
    requires s in items && i in items && items[s].defIndex == ITEM_CASKET
    ensures WithdrawResult(schema, items, s, i, now) == if i in StoredIn(schema, items, s) then Success else ItemNotFound
  {
    assert CountConsistent(schema, items, s);
    if Uncounted(schema, items[s]) {
      assert StoredIn(schema, items, s) == {};
    } else {
      CountedSucceeds(schema, items[s].attributes, -1, now, |StoredIn(schema, items, s)|);
    }
  }

  lemma StripUndoesEmbed(schema: Schema, item: Item)
    requires |NumbersOf(schema, item.attributes, ATTRIBUTE_CASKET_ID_LOW)| == |NumbersOf(schema, item.attributes, ATTRIBUTE_CASKET_ID_HIGH)|
    requires Reference(schema, item).None?
    ensures Stripped(item.attributes) == item.attributes
  {
    AbsentMeansNone(schema, item.attributes, ATTRIBUTE_CASKET_ID_LOW);
    AbsentMeansNone(schema, item.attributes, ATTRIBUTE_CASKET_ID_HIGH);
    StrippedIsUnchanged(item.attributes);
  }

  lemma RestoredAttributes(schema: Schema, item: Item, s: uint64)
    ensures Stripped(Embedded(schema, item.attributes, s)) == Stripped(item.attributes)
  {
    var low := WithNumber(schema, Attribute(ATTRIBUTE_CASKET_ID_LOW, Unset), s % WORD);
    var high := WithNumber(schema, Attribute(ATTRIBUTE_CASKET_ID_HIGH, Unset), s / WORD);
    StrippedJoin(Stripped(item.attributes), [low, high]);
    assert Stripped([low, high]) == [] by {
      assert [low, high][1..] == [high] && [high][1..] == [];
      assert Stripped([high]) == Stripped([]);
    }
    StrippedHasNoReference(item.attributes);
    StrippedIsUnchanged(Stripped(item.attributes));
  }
}
