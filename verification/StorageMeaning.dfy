/** What a storage operation leaves alone, what it dates and names, and why it fails (inventory.cpp). */
module StorageMeaning {
  import opened Prelude
  import opened Items
  import opened ItemSchema
  import opened Storage
  import opened StorageTheorems
  import InventoryFile

  // ----------------------------------------------------- what is left alone

  /** The attributes of all other definitions, in their order. */
  function Except(attributes: seq<Attribute>, ds: set<uint32>): seq<Attribute> {
    if attributes == [] then []
    else (if attributes[0].defIndex in ds then [] else [attributes[0]]) + Except(attributes[1..], ds)
  }

  const COUNTER_AND_DATE: set<uint32> := {270, 271}
  const REFERENCES: set<uint32> := {272, 273}
  const NAME_COUNTER_AND_DATE: set<uint32> := {111, 270, 271}

  lemma {:induction false} ExceptUpdate(attributes: seq<Attribute>, i: nat, a: Attribute, ds: set<uint32>)
    requires i < |attributes| && attributes[i].defIndex in ds && a.defIndex in ds
    ensures Except(attributes[i := a], ds) == Except(attributes, ds)
  {
    var changed := attributes[i := a];
    if i == 0 {
      assert changed[1..] == attributes[1..];
    } else {
      assert changed[1..] == attributes[1..][i - 1 := a];
      ExceptUpdate(attributes[1..], i - 1, a, ds);
    }
  }

  lemma {:induction false} ExceptJoin(a: seq<Attribute>, b: seq<Attribute>, ds: set<uint32>)
    ensures Except(a + b, ds) == Except(a, ds) + Except(b, ds)
  {
    TailOfJoin(a, b);
    if a != [] {
      ExceptJoin(a[1..], b, ds);
    }
  }

  lemma KeepsDefinition(schema: Schema, a: Attribute, n: uint32)
    ensures WithNumber(schema, a, n).defIndex == a.defIndex
  {
  }

  /** Counting touches the counter and the date alone. */
  lemma CountedLeavesRest(schema: Schema, a: seq<Attribute>, delta: int, now: uint32)
    requires Counted(schema, a, delta, now).Some?
    ensures var after := Counted(schema, a, delta, now).value;
      |after| == |a| && Except(after, COUNTER_AND_DATE) == Except(a, COUNTER_AND_DATE)
  {
    hide WithNumber, NumberOf;
    var i, date := LastIndex(a, ATTRIBUTE_CASKET_ITEMS_COUNT), LastIndex(a, ATTRIBUTE_CASKET_MODIFICATION_DATE);
    var n := ToInt32(NumberOf(schema, a[i])) + delta;
    var counted := a[i := WithNumber(schema, a[i], n)];
    KeepsDefinition(schema, a[i], n);
    ExceptUpdate(a, i, counted[i], COUNTER_AND_DATE);
    if date >= 0 {
      assert counted[date] == a[date];
      KeepsDefinition(schema, a[date], now);
      ExceptUpdate(counted, date, WithNumber(schema, counted[date], now), COUNTER_AND_DATE);
    }
  }

  lemma {:induction false} StrippedLeavesRest(a: seq<Attribute>)
    ensures Except(Stripped(a), REFERENCES) == Except(a, REFERENCES) == Stripped(a)
  {
    if a != [] {
      StrippedLeavesRest(a[1..]);
      if !IsReference(a[0].defIndex) {
        assert Stripped(a)[1..] == Stripped(a[1..]);
      }
    }
  }

  lemma {:induction false} UnnamedLeavesRest(a: seq<Attribute>, ds: set<uint32>)
    requires ATTRIBUTE_CUSTOM_NAME in ds
    ensures Except(Unnamed(a), ds) == Except(a, ds)
  {
    if a != [] {
      UnnamedLeavesRest(a[1..], ds);
      if a[0].defIndex != ATTRIBUTE_CUSTOM_NAME {
        assert Unnamed(a)[1..] == Unnamed(a[1..]);
      } else {
        assert Unnamed(a) == Unnamed(a[1..]);
      }
    }
  }

  /** Naming touches the name, the counter and the date alone. */
  lemma NamedLeavesRest(schema: Schema, a: seq<Attribute>, name: Text, now: uint32)
    ensures Except(Named(schema, Prepared(schema, a, now), name), NAME_COUNTER_AND_DATE) == Except(a, NAME_COUNTER_AND_DATE)
  {
    hide WithNumber, Unnamed, Except;
    var counted, prepared := WithCounter(schema, a), Prepared(schema, a, now);
    CounterLeavesRest(schema, a);
    DateLeavesRest(schema, counted, now);
    UnnamedLeavesRest(prepared, NAME_COUNTER_AND_DATE);
    var named := if name == [] then [] else [WithText(schema, Attribute(ATTRIBUTE_CUSTOM_NAME, Unset), name)];
    ExceptJoin(Unnamed(prepared), named, NAME_COUNTER_AND_DATE);
    NameIsLeftOut(schema, name);
    assert Except(Unnamed(prepared), NAME_COUNTER_AND_DATE) + [] == Except(Unnamed(prepared), NAME_COUNTER_AND_DATE);
  }

  lemma NameIsLeftOut(schema: Schema, name: Text)
    ensures Except([WithText(schema, Attribute(ATTRIBUTE_CUSTOM_NAME, Unset), name)], NAME_COUNTER_AND_DATE) == []
    ensures Except([], NAME_COUNTER_AND_DATE) == []
  {
    var a := WithText(schema, Attribute(ATTRIBUTE_CUSTOM_NAME, Unset), name);
    assert [a][1..] == [];
  }

  lemma CounterLeavesRest(schema: Schema, a: seq<Attribute>)
    ensures Except(WithCounter(schema, a), NAME_COUNTER_AND_DATE) == Except(a, NAME_COUNTER_AND_DATE)
  {
    var counter := WithNumber(schema, Attribute(ATTRIBUTE_CASKET_ITEMS_COUNT, Unset), 0);
    ExceptJoin(a, [counter], NAME_COUNTER_AND_DATE);
    assert [counter][1..] == [];
  }

  lemma DateLeavesRest(schema: Schema, a: seq<Attribute>, now: uint32)
    ensures Except(Dated(schema, a, now), NAME_COUNTER_AND_DATE) == Except(a, NAME_COUNTER_AND_DATE)
  {
    hide WithNumber;
    var date, added := FindAttribute(a, ATTRIBUTE_CASKET_MODIFICATION_DATE), WithNumber(schema, Attribute(ATTRIBUTE_CASKET_MODIFICATION_DATE, Unset), now);
    KeepsDefinition(schema, Attribute(ATTRIBUTE_CASKET_MODIFICATION_DATE, Unset), now);
    if date < |a| {
      KeepsDefinition(schema, a[date], now);
      ExceptUpdate(a, date, WithNumber(schema, a[date], now), NAME_COUNTER_AND_DATE);
    } else {
      ExceptJoin(a, [added], NAME_COUNTER_AND_DATE);
      assert [added][1..] == [];
    }
  }

  /**
   Whatever is stored, taken out or named: no item comes or goes, none changes but the item
   and the casket of the operation, and those only in their attributes, except that a stored
   item is no longer equipped.
   */
  lemma StepLeavesItems(schema: Schema, items: map<uint64, Item>, op: Op)
    ensures var after := Step(schema, items, op);
      && after.Keys == items.Keys
      && (forall id <- items :: after[id] == items[id].(attributes := after[id].attributes, equipped := after[id].equipped))
      && (forall id <- items :: after[id].equipped != items[id].equipped ==>
            op.Deposit? && op.itemId == id && after[id].equipped == [])
      && (forall id <- items :: after[id] != items[id] ==>
            if op.NameCasket? then id == op.casketId else id == op.itemId || id == op.storageId)
  {
    hide Counted, Embedded, Stripped, Reference, Prepared, Named, PartlyPrepared, CanPrepare, DepositResult, WithdrawResult;
    match op
    case Deposit(s, i, now) => DepositIsPlain(schema, items, s, i, now);
    case Withdraw(s, i, now) => WithdrawIsPlain(schema, items, s, i, now);
    case NameCasket(_, _, _) =>
  }

  predicate OnlyAttributes(before: Item, after: Item) {
    after == before.(attributes := after.attributes)
  }

  lemma DepositIsPlain(schema: Schema, items: map<uint64, Item>, s: uint64, i: uint64, now: uint32)
    ensures DepositResult(schema, items, s, i, now) == Success ==> s != i && s in items && i in items
    ensures s in items ==> OnlyAttributes(items[s], CountedCasket(schema, items[s], 1, now))
  {
    hide Counted, Reference;
  }

  lemma WithdrawIsPlain(schema: Schema, items: map<uint64, Item>, s: uint64, i: uint64, now: uint32)
    ensures WithdrawResult(schema, items, s, i, now) == Success ==> s in items && i in items
    ensures s in items ==> OnlyAttributes(items[s], CountedCasket(schema, items[s], -1, now))
  {
    hide Counted, Reference;
  }

  // -------------------------------------------------------------- date and name

  /** The date of a casket that has one is that of the operation. */
  lemma CountedIsDated(schema: Schema, a: seq<Attribute>, delta: int, now: uint32)
    requires CasketSchema(schema) && Counted(schema, a, delta, now).Some?
    ensures var after := Counted(schema, a, delta, now).value;
      var i := LastIndex(after, ATTRIBUTE_CASKET_MODIFICATION_DATE);
      (i >= 0 <==> LastIndex(a, ATTRIBUTE_CASKET_MODIFICATION_DATE) >= 0) && (i >= 0 ==> NumberOf(schema, after[i]) == now)
  {
    var after, date := Counted(schema, a, delta, now).value, LastIndex(a, ATTRIBUTE_CASKET_MODIFICATION_DATE);
    assert forall k :: 0 <= k < |a| ==> after[k].defIndex == a[k].defIndex;
    LastIndexSame(a, after, ATTRIBUTE_CASKET_MODIFICATION_DATE);
  }

  lemma LastIndexSame(a: seq<Attribute>, b: seq<Attribute>, d: uint32)
    requires |a| == |b| && forall k :: 0 <= k < |a| ==> b[k].defIndex == a[k].defIndex
    ensures LastIndex(a, d) == LastIndex(b, d)
  {
    var i, j := LastIndex(a, d), LastIndex(b, d);
    if i >= 0 {
      assert b[i].defIndex == d;
    }
    if j >= 0 {
      assert a[j].defIndex == d;
    }
  }

  /** A named casket is dated, and goes by the name it was given, or by none. */
  lemma NamedReads(schema: Schema, a: seq<Attribute>, name: Text, now: uint32)
    requires CasketSchema(schema)
    requires ATTRIBUTE_CUSTOM_NAME in schema.attributeTypes && schema.attributeTypes[ATTRIBUTE_CUSTOM_NAME] == StringType
    ensures var named := Named(schema, Prepared(schema, a, now), name);
      && InventoryFile.CustomName(schema, named) == name
      && FindAttribute(named, ATTRIBUTE_CASKET_MODIFICATION_DATE) < |named|
      && NumberOf(schema, named[FindAttribute(named, ATTRIBUTE_CASKET_MODIFICATION_DATE)]) == now
  {
    var prepared := Prepared(schema, a, now);
    var unnamed, more := Unnamed(prepared), if name == [] then [] else [WithText(schema, Attribute(ATTRIBUTE_CUSTOM_NAME, Unset), name)];
    DatedReads(schema, WithCounter(schema, a), now);
    UnnamedHasNoName(prepared);
    UnnamedKeepsFirst(prepared, ATTRIBUTE_CASKET_MODIFICATION_DATE);
    FindInJoin(unnamed, more, ATTRIBUTE_CASKET_MODIFICATION_DATE);
    FindInJoin(unnamed, more, ATTRIBUTE_CUSTOM_NAME);
  }

  lemma DatedReads(schema: Schema, a: seq<Attribute>, now: uint32)
    requires CasketSchema(schema)
    ensures var after := Dated(schema, a, now); var i := FindAttribute(after, ATTRIBUTE_CASKET_MODIFICATION_DATE);
      i < |after| && NumberOf(schema, after[i]) == now
  {
    var after, i := Dated(schema, a, now), FindAttribute(a, ATTRIBUTE_CASKET_MODIFICATION_DATE);
    assert after[i].defIndex == ATTRIBUTE_CASKET_MODIFICATION_DATE;
    assert forall k :: 0 <= k < i ==> after[k].defIndex != ATTRIBUTE_CASKET_MODIFICATION_DATE;
    assert FindAttribute(after, ATTRIBUTE_CASKET_MODIFICATION_DATE) == i;
  }

  lemma {:induction false} UnnamedHasNoName(a: seq<Attribute>)
    ensures FindAttribute(Unnamed(a), ATTRIBUTE_CUSTOM_NAME) == |Unnamed(a)|
  {
    if a != [] {
      UnnamedHasNoName(a[1..]);
      if a[0].defIndex != ATTRIBUTE_CUSTOM_NAME {
        assert Unnamed(a)[1..] == Unnamed(a[1..]);
      } else {
        assert Unnamed(a) == Unnamed(a[1..]);
      }
    }
  }

  lemma {:induction false} UnnamedKeepsFirst(a: seq<Attribute>, d: uint32)
    requires d != ATTRIBUTE_CUSTOM_NAME && FindAttribute(a, d) < |a|
    ensures var i := FindAttribute(Unnamed(a), d); i < |Unnamed(a)| && Unnamed(a)[i] == a[FindAttribute(a, d)]
  {
    if a[0].defIndex != d {
      UnnamedKeepsFirst(a[1..], d);
      if a[0].defIndex != ATTRIBUTE_CUSTOM_NAME {
        assert Unnamed(a)[1..] == Unnamed(a[1..]);
      } else {
        assert Unnamed(a) == Unnamed(a[1..]);
      }
    }
  }

  lemma FindInJoin(a: seq<Attribute>, b: seq<Attribute>, d: uint32)
    ensures FindAttribute(a + b, d) == if FindAttribute(a, d) < |a| then FindAttribute(a, d) else |a| + FindAttribute(b, d)
  {
    var i := if FindAttribute(a, d) < |a| then FindAttribute(a, d) else |a| + FindAttribute(b, d);
    var all := a + b;
    assert forall k :: 0 <= k < i ==> all[k].defIndex != d;
    assert i < |all| ==> all[i].defIndex == d;
  }

  // ------------------------------------------------------------- why it fails

  /** The reasons a deposit fails for, each with its result. */
  lemma DepositFails(schema: Schema, items: map<uint64, Item>, s: uint64, i: uint64, now: uint32)
    ensures var r := DepositResult(schema, items, s, i, now);
      && (r == ContainerNotFound <==> s != i && s !in items)
      && (r == ItemNotFound <==> s in items && i !in items)
      && (r == InvalidContainerType <==>
            s == i || (s in items && i in items && (items[s].defIndex != 1201 || items[i].defIndex == 1201)))
      && (r == InternalError ==> i in items && Reference(schema, items[i]).Some?)
      && (r == CapacityExceeded || r == Success ==> i in items && Reference(schema, items[i]).None?)
  {
    hide Counted, Reference;
  }

  /** And a withdrawal. */
  lemma WithdrawFails(schema: Schema, items: map<uint64, Item>, s: uint64, i: uint64, now: uint32)
    ensures var r := WithdrawResult(schema, items, s, i, now);
      && (r == ContainerNotFound <==> s !in items)
      && (r == InvalidContainerType <==> s in items && i in items && items[s].defIndex != 1201)
      && (r == ItemNotFound <==> s in items && (i !in items || (items[s].defIndex == 1201 && Reference(schema, items[i]) != Some(s))))
      && r != CapacityExceeded
  {
    hide Counted, Reference;
  }
}
