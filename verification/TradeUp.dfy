/**
 Trade-up contracts: ten items of one rarity become one of the next, from the collection
 of one of them (inventory.cpp, TradeUp).
 */
module TradeUp {
  import opened Prelude
  import opened Items
  import opened ItemSchema
  import opened ItemIds
  import opened InventoryState
  import opened Purchases
  import opened Numbers

  const INPUTS := 10

  // --------------------------------------------------------------- one item

  /** What an item that may be traded up contributes. */
  datatype Input = Input(rarity: uint32, statTrak: bool, collection: Text, wears: seq<real>)

  function PaintKitOf(schema: Schema, item: Item): Option<uint32> {
    var i := FindAttribute(item.attributes, ATTRIBUTE_TEXTURE_PREFAB);
    if i < |item.attributes| then Some(NumberOf(schema, item.attributes[i])) else None
  }

  function WearsOf(schema: Schema, attributes: seq<Attribute>): seq<real>
    decreases |attributes|
  {
    if attributes == [] then []
    else
      var last := attributes[|attributes| - 1];
      WearsOf(schema, attributes[..|attributes| - 1])
      + if last.defIndex == ATTRIBUTE_TEXTURE_WEAR then [RealOf(schema, last)] else []
  }

  predicate Carries(attributes: seq<Attribute>, defIndex: uint32) {
    exists a <- attributes :: a.defIndex == defIndex
  }

  /** The last score type counts, and must be that of weapons. */
  function CountsWeaponKills(schema: Schema, attributes: seq<Attribute>): bool
    decreases |attributes|
  {
    if attributes == [] then false
    else
      var last := attributes[|attributes| - 1];
      if last.defIndex == ATTRIBUTE_KILL_EATER_SCORE_TYPE then NumberOf(schema, last) == 0
      else CountsWeaponKills(schema, attributes[..|attributes| - 1])
  }

  predicate IsNormal(item: Item) {
    (item.quality == QUALITY_UNIQUE || item.quality == QUALITY_TOURNAMENT) && !Carries(item.attributes, ATTRIBUTE_KILL_EATER)
  }

  predicate IsStatTrak(schema: Schema, item: Item) {
    && item.quality == QUALITY_STRANGE
    && Carries(item.attributes, ATTRIBUTE_KILL_EATER) && CountsWeaponKills(schema, item.attributes)
  }

  function CollectionNames(schema: Schema, defIndex: uint32, paintKit: uint32): set<Text> {
    var own := Collections(schema, Some(defIndex), paintKit);
    if own != {} then own else Collections(schema, None, paintKit)
  }

  /** None for an item that cannot go into a contract. */
  ghost function Inspect(schema: Schema, item: Item): Option<Input> {
    match PaintKitOf(schema, item)
    case None => None
    case Some(kit) =>
      var rarity := PaintedRarity(schema, item.defIndex, kit, item.rarity);
      var names := CollectionNames(schema, item.defIndex, kit);
      var wears := WearsOf(schema, item.attributes);
      if !(RARITY_COMMON <= rarity <= RARITY_LEGENDARY) || names == {} || wears == [] then None
      else if !IsNormal(item) && !IsStatTrak(schema, item) then None
      else
        LeastName(names);
        var least :| IsLeast(least, names);
        Some(Input(rarity, IsStatTrak(schema, item), least, wears))
  }

  lemma LeastName(names: set<Text>)
    requires names != {}
    ensures exists m :: IsLeast(m, names)
  {
    var m := LeastExists(names);
  }

  /** It is in a collection, as this item or on whatever item. */
  ghost predicate IsCollected(schema: Schema, defIndex: uint32, kit: uint32, name: Text) {
    && name in schema.itemSets && schema.itemSets[name].isCollection
    && exists e <- schema.itemSets[name].items :: e.paintKitInfo.Some? && e.paintKitInfo.value.defIndex == kit
  }

  /**
   What can be traded up: a painted and worn item of a collection, of rarity 1 to 5, that is
   normal (quality 4 or 12) and counts no kills, or StatTrak (quality 9) and counts them.
   */
  lemma TradableMeaning(schema: Schema, item: Item, kit: uint32)
    requires PaintKitOf(schema, item) == Some(kit)
    ensures Inspect(schema, item).Some? <==>
      (&& 1 <= PaintedRarity(schema, item.defIndex, kit, item.rarity) <= 5
       && (exists name: Text :: IsCollected(schema, item.defIndex, kit, name))
       && Carries(item.attributes, 8)
       && (((item.quality == 4 || item.quality == 12) && !Carries(item.attributes, 80))
           || (item.quality == 9 && Carries(item.attributes, 80) && CountsWeaponKills(schema, item.attributes))))
    ensures Inspect(schema, item).Some? ==>
      var input := Inspect(schema, item).value;
      && input.rarity == PaintedRarity(schema, item.defIndex, kit, item.rarity)
      && (input.statTrak <==> item.quality == 9)
      && IsCollected(schema, item.defIndex, kit, input.collection)
  {
    hide PaintedRarity, CountsWeaponKills, IsLeast;
    WearsMeaning(schema, item.attributes);
    CollectedMeaning(schema, item.defIndex, kit);
    if CollectionNames(schema, item.defIndex, kit) != {} {
      LeastIsIn(CollectionNames(schema, item.defIndex, kit));
    }
  }

  lemma LeastIsIn(names: set<Text>)
    ensures forall m :: IsLeast(m, names) ==> m in names
  {
  }

  lemma {:induction false} WearsMeaning(schema: Schema, attributes: seq<Attribute>)
    ensures WearsOf(schema, attributes) != [] <==> Carries(attributes, 8)
    decreases |attributes|
  {
    if attributes != [] {
      var n := |attributes| - 1;
      WearsMeaning(schema, attributes[..n]);
      assert forall a :: a in attributes <==> a in attributes[..n] || a == attributes[n];
    }
  }

  lemma CollectedMeaning(schema: Schema, defIndex: uint32, kit: uint32)
    ensures CollectionNames(schema, defIndex, kit) != {} <==> exists name: Text :: IsCollected(schema, defIndex, kit, name)
    ensures forall name <- CollectionNames(schema, defIndex, kit) :: IsCollected(schema, defIndex, kit, name)
  {
    forall name | name in Collections(schema, Some(defIndex), kit) || name in Collections(schema, None, kit)
      ensures IsCollected(schema, defIndex, kit, name)
    {
    }
    forall name: Text | IsCollected(schema, defIndex, kit, name)
      ensures name in Collections(schema, None, kit)
    {
    }
  }

  method InspectItem(schema: Schema, item: Item) returns (input: Option<Input>)
    ensures input == Inspect(schema, item)
  {
    hide IsLeast, Collections, PaintedRarity;
    var kit := PaintKitOf(schema, item);
    if kit.None? {
      return None;
    }
    var rarity := PaintedRarity(schema, item.defIndex, kit.value, item.rarity);
    if rarity < RARITY_COMMON || rarity > RARITY_LEGENDARY {
      return None;
    }
    var found, names := GetCollections(schema, Some(item.defIndex), kit.value);
    if !found {
      found, names := GetCollections(schema, None, kit.value);
      if !found {
        return None;
      }
    }
    var collection := FindLeast(names);
    LeastIsUnique(names);
    var wears, hasKillEater, countsWeaponKills := ReadAttributes(schema, item.attributes);
    if wears == [] {
      return None;
    }
    var normal := (item.quality == QUALITY_UNIQUE || item.quality == QUALITY_TOURNAMENT) && !hasKillEater;
    var statTrak := item.quality == QUALITY_STRANGE && hasKillEater && countsWeaponKills;
    if !normal && !statTrak {
      return None;
    }
    return Some(Input(rarity, statTrak, collection, wears));
  }

  lemma LeastIsUnique(names: set<Text>)
    ensures forall a, b :: IsLeast(a, names) && IsLeast(b, names) ==> a == b
  {
    forall a, b | IsLeast(a, names) && IsLeast(b, names)
      ensures a == b
    {
      LexAntisymmetric(a, b);
    }
  }

  method ReadAttributes(schema: Schema, attributes: seq<Attribute>)
    returns (wears: seq<real>, hasKillEater: bool, countsWeaponKills: bool)
    ensures wears == WearsOf(schema, attributes)
    ensures hasKillEater <==> Carries(attributes, ATTRIBUTE_KILL_EATER)
    ensures countsWeaponKills <==> CountsWeaponKills(schema, attributes)
  {
    wears, hasKillEater, countsWeaponKills := [], false, false;
    for i := 0 to |attributes|
      invariant wears == WearsOf(schema, attributes[..i])
      invariant hasKillEater <==> Carries(attributes[..i], ATTRIBUTE_KILL_EATER)
      invariant countsWeaponKills <==> CountsWeaponKills(schema, attributes[..i])
    {
      var a := attributes[i];
      assert attributes[..i + 1] == attributes[..i] + [a];
      assert attributes[..i + 1][..i] == attributes[..i];
      if a.defIndex == ATTRIBUTE_KILL_EATER {
        hasKillEater := true;
      } else if a.defIndex == ATTRIBUTE_KILL_EATER_SCORE_TYPE {
        countsWeaponKills := NumberOf(schema, a) == 0;
      } else if a.defIndex == ATTRIBUTE_TEXTURE_WEAR {
        wears := wears + [RealOf(schema, a)];
      }
    }
    assert attributes[..|attributes|] == attributes;
  }

  // --------------------------------------------------------------- all inputs

  /** Distinct items there are, each fit for a contract, all of one kind. */
  ghost predicate Fit(schema: Schema, items: map<uint64, Item>, ids: seq<uint64>) {
    && Distinct(ids)
    && (forall id <- ids :: id in items && Inspect(schema, items[id]).Some?)
    && forall id <- ids, other <- ids ::
         && Inspect(schema, items[id]).value.rarity == Inspect(schema, items[other]).value.rarity
         && Inspect(schema, items[id]).value.statTrak == Inspect(schema, items[other]).value.statTrak
  }

  ghost function InputOf(schema: Schema, items: map<uint64, Item>, id: uint64): Input {
    if id in items && Inspect(schema, items[id]).Some? then Inspect(schema, items[id]).value else Input(0, false, [], [])
  }

  ghost function CollectionsOf(schema: Schema, items: map<uint64, Item>, ids: seq<uint64>): (cs: seq<Text>)
    ensures |cs| == |ids|
    ensures forall k :: 0 <= k < |ids| ==> cs[k] == InputOf(schema, items, ids[k]).collection
    decreases |ids|
  {
    if ids == [] then []
    else CollectionsOf(schema, items, ids[..|ids| - 1]) + [InputOf(schema, items, ids[|ids| - 1]).collection]
  }

  function Sum(xs: seq<real>): real
    decreases |xs|
  {
    if xs == [] then 0.0 else Sum(xs[..|xs| - 1]) + xs[|xs| - 1]
  }

  /** The wear of all inputs, every wear attribute counting. */
  ghost function AllWears(schema: Schema, items: map<uint64, Item>, ids: seq<uint64>): seq<real>
    decreases |ids|
  {
    if ids == [] then []
    else AllWears(schema, items, ids[..|ids| - 1]) + InputOf(schema, items, ids[|ids| - 1]).wears
  }

  function Clamped(x: real): real {
    if x < 0.0 then 0.0 else if x > 1.0 then 1.0 else x
  }

  function Average(wears: seq<real>): (r: real)
    ensures 0.0 <= r <= 1.0
  {
    if wears == [] then 0.15 else Clamped(Sum(wears) / (|wears| as real))
  }

  /** What the inputs amount to. */
  datatype Contract = Contract(rarity: uint32, statTrak: bool, counts: map<Text, nat>, averageWear: real)

  function Counts(cs: seq<Text>): map<Text, nat> {
    map c | c in cs :: multiset(cs)[c]
  }

  ghost function ContractOf(schema: Schema, items: map<uint64, Item>, ids: seq<uint64>): Option<Contract> {
    if |ids| != INPUTS || !Fit(schema, items, ids) then None
    else
      var first := InputOf(schema, items, ids[0]);
      Some(Contract(first.rarity, first.statTrak, Counts(CollectionsOf(schema, items, ids)),
                    Average(AllWears(schema, items, ids))))
  }

  lemma {:induction false} SumJoin(a: seq<real>, b: seq<real>)
    ensures Sum(a + b) == Sum(a) + Sum(b)
    decreases |b|
  {
    if b == [] {
      assert a + b == a;
    } else {
      assert (a + b)[..|a + b| - 1] == a + b[..|b| - 1];
      SumJoin(a, b[..|b| - 1]);
    }
  }

  /** One more input either fits with the others or spoils the contract. */
  lemma FitNext(schema: Schema, items: map<uint64, Item>, ids: seq<uint64>, i: nat)
    requires i < |ids| && Fit(schema, items, ids[..i])
    ensures Fit(schema, items, ids[..i + 1]) <==>
      (&& ids[i] !in ids[..i] && ids[i] in items && Inspect(schema, items[ids[i]]).Some?
       && (i > 0 ==>
             && InputOf(schema, items, ids[i]).rarity == InputOf(schema, items, ids[0]).rarity
             && InputOf(schema, items, ids[i]).statTrak == InputOf(schema, items, ids[0]).statTrak))
  {
    hide Inspect;
    assert ids[..i + 1] == ids[..i] + [ids[i]];
    assert ids[i] in ids[..i + 1];
    assert i > 0 ==> ids[0] in ids[..i];
    assert forall id <- ids[..i] :: id in ids[..i + 1];
    assert forall k :: 0 <= k < i ==> ids[..i + 1][k] == ids[..i][k];
  }

  lemma NotFitLater(schema: Schema, items: map<uint64, Item>, ids: seq<uint64>, i: nat)
    requires i <= |ids| && !Fit(schema, items, ids[..i])
    ensures !Fit(schema, items, ids)
  {
    hide Inspect;
    var some := ids[..i];
    assert forall id <- some :: id in ids;
    assert Fit(schema, items, ids) ==> Fit(schema, items, some);
  }

  lemma CountsNext(cs: seq<Text>, c: Text)
    ensures Counts(cs + [c]) == Counts(cs)[c := (if c in Counts(cs) then Counts(cs)[c] else 0) + 1]
  {
  }

  /** The variables of the loop over the inputs. */
  datatype Gathering = Gathering(
    seen: set<uint64>, first: Option<Input>, counts: map<Text, nat>, totalWear: real, wearCount: nat)

  ghost function GatheringOf(schema: Schema, items: map<uint64, Item>, ids: seq<uint64>): Gathering {
    Gathering((set id | id in ids), if ids == [] then None else Some(InputOf(schema, items, ids[0])),
              Counts(CollectionsOf(schema, items, ids)), Sum(AllWears(schema, items, ids)), |AllWears(schema, items, ids)|)
  }

  /** One turn of the loop; None when the contract is rejected. */
  method CheckInput(schema: Schema, items: map<uint64, Item>, g: Gathering, id: uint64) returns (next: Option<Gathering>)
    ensures next == Gathered(schema, items, g, id)
  {
    hide Inspect;
    if id in g.seen || id !in items {
      return None;
    }
    var input := InspectItem(schema, items[id]);
    if input.None? || (g.first.Some? && (input.value.rarity != g.first.value.rarity || input.value.statTrak != g.first.value.statTrak)) {
      return None;
    }
    var c := input.value.collection;
    return Some(Gathering(g.seen + {id}, if g.first.None? then input else g.first,
                          g.counts[c := (if c in g.counts then g.counts[c] else 0) + 1],
                          g.totalWear + Sum(input.value.wears), g.wearCount + |input.value.wears|));
  }

  ghost function Gathered(schema: Schema, items: map<uint64, Item>, g: Gathering, id: uint64): Option<Gathering> {
    if id in g.seen || id !in items || Inspect(schema, items[id]).None? then None
    else
      var input := InputOf(schema, items, id);
      if g.first.Some? && (input.rarity != g.first.value.rarity || input.statTrak != g.first.value.statTrak) then None
      else
        var c := input.collection;
        Some(Gathering(g.seen + {id}, if g.first.None? then Some(input) else g.first,
                       g.counts[c := (if c in g.counts then g.counts[c] else 0) + 1],
                       g.totalWear + Sum(input.wears), g.wearCount + |input.wears|))
  }

  lemma GatheredNext(schema: Schema, items: map<uint64, Item>, ids: seq<uint64>, i: nat)
    requires i < |ids| && Fit(schema, items, ids[..i])
    ensures var next := Gathered(schema, items, GatheringOf(schema, items, ids[..i]), ids[i]);
      && (next.Some? <==> Fit(schema, items, ids[..i + 1]))
      && (next.Some? ==> next.value == GatheringOf(schema, items, ids[..i + 1]))
  {
    hide Fit, Inspect, Counts, Sum;
    FitNext(schema, items, ids, i);
    assert ids[..i + 1] == ids[..i] + [ids[i]] && ids[..i + 1][..i] == ids[..i];
    var input := InputOf(schema, items, ids[i]);
    CountsNext(CollectionsOf(schema, items, ids[..i]), input.collection);
    SumJoin(AllWears(schema, items, ids[..i]), input.wears);
  }

  method CheckInputs(schema: Schema, items: map<uint64, Item>, ids: seq<uint64>) returns (contract: Option<Contract>)
    ensures contract == ContractOf(schema, items, ids)
  {
    hide Fit, Inspect, Gathered, Counts, Sum, InputOf;
    if |ids| != INPUTS {
      return None;
    }
    var g := Gathering({}, None, map[], 0.0, 0);
    GatheringNothing(schema, items);
    for i := 0 to INPUTS
      invariant Fit(schema, items, ids[..i]) && g == GatheringOf(schema, items, ids[..i])
    {
      var next := CheckInput(schema, items, g, ids[i]);
      GatheredNext(schema, items, ids, i);
      if next.None? {
        NotFitLater(schema, items, ids, i + 1);
        return None;
      }
      g := next.value;
    }
    assert ids[..INPUTS] == ids;
    var averageWear := if g.wearCount > 0 then Clamped(g.totalWear / (g.wearCount as real)) else 0.15;
    return Some(Contract(g.first.value.rarity, g.first.value.statTrak, g.counts, averageWear));
  }

  lemma GatheringNothing(schema: Schema, items: map<uint64, Item>)
    ensures Fit(schema, items, []) && GatheringOf(schema, items, []) == Gathering({}, None, map[], 0.0, 0)
  {
  }

  // ----------------------------------------------------------------- the draw

  /** Every collection of the inputs has something of the next rarity to give. */
  predicate Fulfillable(schema: Schema, contract: Contract) {
    forall c <- contract.counts :: Candidates(schema, c, contract.rarity + 1) != []
  }

  function Repeat(c: Text, n: nat): seq<Text> {
    seq(n, _ => c)
  }

  ghost function Weigh(names: seq<Text>, counts: map<Text, nat>): seq<Text>
    decreases |names|
  {
    if names == [] then []
    else
      var last := names[|names| - 1];
      Weigh(names[..|names| - 1], counts) + Repeat(last, if last in counts then counts[last] else 0)
  }

  lemma {:induction false} CountRepeat(c: Text, n: nat, d: Text)
    ensures multiset(Repeat(c, n))[d] == if c == d then n else 0
  {
    if n > 0 {
      CountRepeat(c, n - 1, d);
      assert Repeat(c, n) == Repeat(c, n - 1) + [c];
    }
  }

  lemma {:induction false} WeighCounts(names: seq<Text>, counts: map<Text, nat>, d: Text)
    requires forall i, j :: 0 <= i < j < |names| ==> names[i] != names[j]
    ensures multiset(Weigh(names, counts))[d] == if d in names && d in counts then counts[d] else 0
    decreases |names|
  {
    if names != [] {
      var n := |names| - 1;
      assert names == names[..n] + [names[n]];
      WeighCounts(names[..n], counts, d);
      CountRepeat(names[n], if names[n] in counts then counts[names[n]] else 0, d);
      assert d in names[..n] ==> d != names[n];
    }
  }

  /** Each collection has as many places in the draw as there are inputs from it. */
  lemma WeightsAreCounts(cs: seq<Text>)
    ensures multiset(Weigh(SortedNames(Counts(cs).Keys), Counts(cs))) == multiset(cs)
  {
    var names := SortedNames(Counts(cs).Keys);
    SortedNamesMeaning(Counts(cs).Keys);
    forall d: Text
      ensures multiset(Weigh(names, Counts(cs)))[d] == multiset(cs)[d]
    {
      WeighCounts(names, Counts(cs), d);
      assert d in cs <==> d in Counts(cs);
    }
  }

  /** The loop over the collections, in the order of std::map. */
  method WeighCollections(schema: Schema, contract: Contract) returns (ok: bool, weighted: seq<Text>)
    ensures ok <==> Fulfillable(schema, contract)
    ensures ok ==> weighted == Weigh(SortedNames(contract.counts.Keys), contract.counts)
  {
    hide Weigh, SortedNames, Candidates;
    weighted := [];
    var names := SortNames(contract.counts.Keys);
    SortedNamesMeaning(contract.counts.Keys);
    WeighNext(names, contract.counts, 0);
    for i := 0 to |names|
      invariant forall j :: 0 <= j < i ==> Candidates(schema, names[j], contract.rarity + 1) != []
      invariant weighted == Weigh(names[..i], contract.counts)
    {
      assert names[i] in names;
      var found, _ := GetTradeUpCandidates(schema, names[i], contract.rarity + 1);
      if !found {
        return false, [];
      }
      WeighNext(names, contract.counts, i);
      var places := Copies(names[i], contract.counts[names[i]]);
      weighted := weighted + places;
    }
    assert names[..|names|] == names;
    ok := true;
  }

  method Copies(c: Text, count: nat) returns (places: seq<Text>)
    ensures places == Repeat(c, count)
  {
    places := [];
    for k := 0 to count
      invariant places == Repeat(c, k)
    {
      places := places + [c];
    }
  }

  lemma WeighNext(names: seq<Text>, counts: map<Text, nat>, i: nat)
    requires i <= |names|
    ensures Weigh(names[..0], counts) == []
    ensures i < |names| ==>
      (var n := if names[i] in counts then counts[names[i]] else 0;
       Weigh(names[..i + 1], counts) == Weigh(names[..i], counts) + Repeat(names[i], n))
  {
    if i < |names| {
      assert names[..i + 1][..i] == names[..i];
    }
  }

  function MappedWear(kit: PaintKitInfo, averageWear: real): real {
    kit.minFloat + averageWear * (kit.maxFloat - kit.minFloat)
  }

  predicate WearFits(kit: PaintKitInfo, averageWear: real) {
    kit.minFloat <= MappedWear(kit, averageWear) <= kit.maxFloat
  }

  /** What the float filter keeps: the kits whose range is one. */
  lemma WearFitsRange(kit: PaintKitInfo, averageWear: real)
    requires 0.0 <= averageWear <= 1.0
    ensures WearFits(kit, averageWear) <==> kit.minFloat <= kit.maxFloat
  {
    var span := kit.maxFloat - kit.minFloat;
    if span >= 0.0 {
      assert 0.0 <= averageWear * span <= span;
    } else if averageWear == 0.0 {
      assert averageWear * span == 0.0;
    } else {
      assert averageWear * span < 0.0;
    }
  }

  predicate Obtainable(entry: LootListItem, averageWear: real) {
    entry.itemInfo.Some? && entry.paintKitInfo.Some? && WearFits(entry.paintKitInfo.value, averageWear)
  }

  function Remaining(cs: seq<LootListItem>, averageWear: real): (r: seq<LootListItem>)
    ensures forall e :: e in r <==> e in cs && Obtainable(e, averageWear)
    decreases |cs|
  {
    if cs == [] then []
    else
      var last := cs[|cs| - 1];
      Remaining(cs[..|cs| - 1], averageWear) + if Obtainable(last, averageWear) then [last] else []
  }

  method RandomBelow(n: nat) returns (r: nat)
    requires n > 0
    ensures r < n
  {
    r :| 0 <= r < n;
  }

  /** The two draws: a collection by weight, and one of its candidates that is left after the float filter. */
  method DrawOutput(schema: Schema, contract: Contract, weighted: seq<Text>)
    returns (entry: Option<LootListItem>, roll: nat)
    requires weighted != []
    ensures roll < |weighted|
    ensures var cs := Remaining(Candidates(schema, weighted[roll], contract.rarity + 1), contract.averageWear);
      (entry.Some? <==> cs != []) && (entry.Some? ==> entry.value in cs)
  {
    roll := RandomBelow(|weighted|);
    var found, candidates := GetTradeUpCandidates(schema, weighted[roll], contract.rarity + 1);
    if !found {
      return None, roll;
    }
    var valid: seq<LootListItem> := [];
    for i := 0 to |candidates|
      invariant valid == Remaining(candidates[..i], contract.averageWear)
    {
      assert candidates[..i + 1][..i] == candidates[..i];
      var candidate := candidates[i];
      assert candidate in candidates;
      if candidate.paintKitInfo.Some? && WearFits(candidate.paintKitInfo.value, contract.averageWear) {
        valid := valid + [candidate];
      }
    }
    assert candidates[..|candidates|] == candidates;
    if valid == [] {
      return None, roll;
    }
    var i := RandomBelow(|valid|);
    return Some(valid[i]), roll;
  }

  // --------------------------------------------------------------- the output

  /** The attributes of the output: paint kit, seed and wear, and for StatTrak a fresh weapon counter. */
  function OutputAttributes(schema: Schema, kit: uint32, seed: uint32, wear: real, statTrak: bool): seq<Attribute> {
    [WithNumber(schema, Attribute(ATTRIBUTE_TEXTURE_PREFAB, Unset), kit),
     WithNumber(schema, Attribute(ATTRIBUTE_TEXTURE_SEED, Unset), seed),
     WithReal(schema, Attribute(ATTRIBUTE_TEXTURE_WEAR, Unset), wear)]
    + if statTrak then
        [WithNumber(schema, Attribute(ATTRIBUTE_KILL_EATER, Unset), 0),
         WithNumber(schema, Attribute(ATTRIBUTE_KILL_EATER_SCORE_TYPE, Unset), 0)]
      else []
  }

  function Output(schema: Schema, contract: Contract, entry: LootListItem, seed: uint32): Item
    requires entry.itemInfo.Some? && entry.paintKitInfo.Some? && contract.rarity <= RARITY_LEGENDARY
  {
    var kit := entry.paintKitInfo.value;
    EmptyItem(0, 0).(
      defIndex := entry.itemInfo.value.defIndex,
      inventory := Unacknowledged(UNACKNOWLEDGED_RECYCLING),
      quantity := 1, level := 1, origin := ORIGIN_CRATE, rarity := contract.rarity + 1,
      quality := if contract.statTrak then QUALITY_STRANGE else QUALITY_UNIQUE,
      attributes := OutputAttributes(schema, kit.defIndex, seed, MappedWear(kit, contract.averageWear), contract.statTrak))
  }

  /** The recipe in the response. */
  function RecipeIndex(contract: Contract): int {
    contract.rarity - RARITY_COMMON + if contract.statTrak then 10 else 0
  }

  /** The response tells which rarity was traded and whether it was StatTrak. */
  lemma RecipeTellsContract(a: Contract, b: Contract)
    requires RARITY_COMMON <= a.rarity <= RARITY_LEGENDARY && RARITY_COMMON <= b.rarity <= RARITY_LEGENDARY
    ensures RecipeIndex(a) == RecipeIndex(b) <==> (a.rarity == b.rarity && a.statTrak == b.statTrak)
  {
  }

  /** Memory after the exchange: the output is added while the inputs are still there, then they go. */
  ghost function Traded(m: Memory, accountId: uint32, output: Item, ids: seq<uint64>): Memory
    requires |m.items| < USABLE
  {
    var r := RemoveAll(Adding(m, accountId, output), ids);
    r.(version := NextVersion(r.version))
  }

  /** A contract that goes through, with the draw it was decided by. */
  ghost predicate Goes(schema: Schema, items: map<uint64, Item>, ids: seq<uint64>, contract: Contract,
                       entry: LootListItem, weighted: seq<Text>, roll: nat)
  {
    && ContractOf(schema, items, ids) == Some(contract)
    && multiset(weighted) == multiset(CollectionsOf(schema, items, ids))
    && roll < |weighted|
    && entry in Remaining(Candidates(schema, weighted[roll], contract.rarity + 1), contract.averageWear)
  }

  /** Everything a trade-up is decided by. */
  datatype Draw = NoDraw | Draw(contract: Contract, entry: LootListItem, weighted: seq<Text>, roll: nat, seed: uint32)

  ghost predicate Decided(schema: Schema, items: map<uint64, Item>, ids: seq<uint64>, draw: Draw) {
    && draw.Draw? && draw.seed <= 1000
    && Goes(schema, items, ids, draw.contract, draw.entry, draw.weighted, draw.roll)
    && draw.contract.rarity <= RARITY_LEGENDARY && draw.entry.itemInfo.Some? && draw.entry.paintKitInfo.Some?
  }

  function DrawnOutput(schema: Schema, draw: Draw): Item
    requires draw.Draw? && draw.entry.itemInfo.Some? && draw.entry.paintKitInfo.Some?
    requires draw.contract.rarity <= RARITY_LEGENDARY
  {
    Output(schema, draw.contract, draw.entry, draw.seed)
  }

  /** The contract goes through whichever collection is drawn. */
  ghost predicate Certain(schema: Schema, items: map<uint64, Item>, ids: seq<uint64>) {
    var contract := ContractOf(schema, items, ids);
    && contract.Some?
    && forall c <- CollectionsOf(schema, items, ids) :: HasRanged(schema, c, contract.value.rarity + 1)
  }

  predicate HasRanged(schema: Schema, c: Text, rarity: int) {
    exists e <- Candidates(schema, c, rarity) :: e.paintKitInfo.value.minFloat <= e.paintKitInfo.value.maxFloat
  }

  /** One message for each input, in order. */
  function DestroyMessages(version: uint64, ids: seq<uint64>): seq<SingleObject>
    decreases |ids|
  {
    if ids == [] then []
    else
      var n := |ids| - 1;
      DestroyMessages(version, ids[..n]) + [DestroyMessage(AdvancedBy(version, n + 1), ids[n])]
  }

  lemma RemoveNothing(m: Memory)
    ensures RemoveAll(m, []) == m && DestroyMessages(m.version, []) == []
  {
  }

  lemma {:induction false} RemovedVersion(m: Memory, ids: seq<uint64>)
    requires Distinct(ids) && forall id <- ids :: id in m.items
    ensures RemoveAll(m, ids).version == AdvancedBy(m.version, |ids|)
    decreases |ids|
  {
    if ids != [] {
      var n := |ids| - 1;
      assert ids == ids[..n] + [ids[n]];
      assert ids[n] !in ids[..n];
      RemovedVersion(m, ids[..n]);
      RemoveAllRemoves(m, ids[..n]);
    }
  }

  /** One more input goes. */
  lemma RemoveNext(m: Memory, ids: seq<uint64>, i: nat)
    requires i < |ids| && Distinct(ids) && (forall id <- ids :: id in m.items)
    ensures var r, next := RemoveAll(m, ids[..i]), RemoveAll(m, ids[..i + 1]);
      && ids[i] in r.items && r.items[ids[i]] == m.items[ids[i]]
      && next == Destroying(r, ids[i])
      && DestroyMessages(m.version, ids[..i + 1]) == DestroyMessages(m.version, ids[..i]) + [DestroyMessage(next.version, ids[i])]
  {
    var some, more := ids[..i], ids[..i + 1];
    assert more == some + [ids[i]] && more[..i] == some;
    assert ids[i] !in some && forall id <- some :: id in ids;
    RemoveAllRemoves(m, some);
    RemovedVersion(m, more);
  }

  lemma DecidedMeaning(schema: Schema, items: map<uint64, Item>, ids: seq<uint64>, draw: Draw)
    requires Decided(schema, items, ids, draw)
    ensures draw.Draw? && draw.entry.itemInfo.Some? && draw.entry.paintKitInfo.Some? && draw.contract.rarity <= RARITY_LEGENDARY
    ensures Distinct(ids) && forall id <- ids :: id in items
  {
    hide Inspect, Counts, Average;
  }

  /** The checks and the draws, before anything is changed. */
  method DrawTrade(schema: Schema, items: map<uint64, Item>, ids: seq<uint64>) returns (draw: Draw)
    ensures draw.Draw? ==> Decided(schema, items, ids, draw)
    ensures draw.NoDraw? ==> !Certain(schema, items, ids)
  {
    hide ContractOf, Candidates, Remaining, Weigh, SortedNames, Certain, Decided, Fulfillable, Counts, CollectionsOf, InputOf;
    var contract := CheckInputs(schema, items, ids);
    if contract.None? {
      NotCertain(schema, items, ids, []);
      return NoDraw;
    }
    var fulfillable, weighted := WeighCollections(schema, contract.value);
    ContractNumbers(schema, items, ids);
    if !fulfillable {
      NotFulfillable(schema, items, ids);
      return NoDraw;
    }
    WeightsAreCounts(CollectionsOf(schema, items, ids));
    DrawIsOneOf(schema, items, ids, weighted);
    var entry, roll := DrawOutput(schema, contract.value, weighted);
    if entry.None? {
      NotCertain(schema, items, ids, weighted[roll]);
      return NoDraw;
    }
    var seed := RandomBelow(1001);
    draw := Draw(contract.value, entry.value, weighted, roll, seed);
    IsDecided(schema, items, ids, draw);
  }

  lemma ContractNumbers(schema: Schema, items: map<uint64, Item>, ids: seq<uint64>)
    ensures var o := ContractOf(schema, items, ids);
      o.Some? ==> |ids| == INPUTS && 0.0 <= o.value.averageWear <= 1.0 && o.value.counts == Counts(CollectionsOf(schema, items, ids))
  {
    hide Fit, Inspect, Counts, CollectionsOf;
  }

  lemma NotFulfillable(schema: Schema, items: map<uint64, Item>, ids: seq<uint64>)
    requires ContractOf(schema, items, ids).Some? && !Fulfillable(schema, ContractOf(schema, items, ids).value)
    ensures !Certain(schema, items, ids)
  {
    hide ContractOf, CollectionsOf, Counts, Candidates, InputOf, HasRanged;
    ContractNumbers(schema, items, ids);
    CountsKeys(CollectionsOf(schema, items, ids));
    var contract := ContractOf(schema, items, ids).value;
    var c :| c in contract.counts && Candidates(schema, c, contract.rarity + 1) == [];
    assert c in CollectionsOf(schema, items, ids);
    NoneRanged(schema, c, contract.rarity + 1);
  }

  lemma NoneRanged(schema: Schema, c: Text, rarity: int)
    ensures HasRanged(schema, c, rarity) ==> Candidates(schema, c, rarity) != []
  {
  }

  lemma CountsKeys(cs: seq<Text>)
    ensures forall c :: c in Counts(cs) <==> c in cs
  {
  }

  /** Rejected inputs, or a drawn collection that has nothing left after the float filter. */
  lemma NotCertain(schema: Schema, items: map<uint64, Item>, ids: seq<uint64>, c: Text)
    requires var contract := ContractOf(schema, items, ids);
      contract.Some? ==>
        && c in CollectionsOf(schema, items, ids)
        && Remaining(Candidates(schema, c, contract.value.rarity + 1), contract.value.averageWear) == []
    ensures !Certain(schema, items, ids)
  {
    hide ContractOf, CollectionsOf, Remaining, Candidates, InputOf, Counts, HasRanged;
    ContractNumbers(schema, items, ids);
    if ContractOf(schema, items, ids).Some? {
      NothingLeft(schema, c, ContractOf(schema, items, ids).value);
    }
  }

  lemma IsDecided(schema: Schema, items: map<uint64, Item>, ids: seq<uint64>, draw: Draw)
    requires draw.Draw? && draw.seed <= 1000
    requires Goes(schema, items, ids, draw.contract, draw.entry, draw.weighted, draw.roll)
    ensures Decided(schema, items, ids, draw)
  {
    ContractMeaning(schema, items, ids);
    hide ContractOf, Fit, Inspect, InputOf;
  }

  lemma DrawIsOneOf(schema: Schema, items: map<uint64, Item>, ids: seq<uint64>, weighted: seq<Text>)
    requires multiset(weighted) == multiset(CollectionsOf(schema, items, ids)) && |ids| == INPUTS
    ensures |weighted| == INPUTS && forall c <- weighted :: c in CollectionsOf(schema, items, ids)
  {
    assert |multiset(weighted)| == |multiset(CollectionsOf(schema, items, ids))|;
    forall c | c in weighted
      ensures c in CollectionsOf(schema, items, ids)
    {
      assert c in multiset(weighted);
    }
  }

  /** A candidate whose kit has a range is never filtered out. */
  lemma NothingLeft(schema: Schema, c: Text, contract: Contract)
    requires 0.0 <= contract.averageWear <= 1.0
    requires Remaining(Candidates(schema, c, contract.rarity + 1), contract.averageWear) == []
    ensures !HasRanged(schema, c, contract.rarity + 1)
  {
    var cs := Candidates(schema, c, contract.rarity + 1);
    forall e | e in cs
      ensures e.paintKitInfo.value.minFloat > e.paintKitInfo.value.maxFloat
    {
      WearFitsRange(e.paintKitInfo.value, contract.averageWear);
      assert e !in Remaining(cs, contract.averageWear);
    }
  }

  /** What can be seen of a contract before it is drawn. */
  lemma ContractMeaning(schema: Schema, items: map<uint64, Item>, ids: seq<uint64>)
    ensures ContractOf(schema, items, ids).Some? <==> |ids| == INPUTS && Fit(schema, items, ids)
    ensures var o := ContractOf(schema, items, ids);
      o.Some? ==>
        && RARITY_COMMON <= o.value.rarity <= RARITY_LEGENDARY
        && 0.0 <= o.value.averageWear <= 1.0
        && o.value.counts == Counts(CollectionsOf(schema, items, ids))
        && forall id <- ids :: id in items && InputOf(schema, items, id).rarity == o.value.rarity
             && InputOf(schema, items, id).statTrak == o.value.statTrak
  {
    if |ids| == INPUTS && Fit(schema, items, ids) {
      assert ids[0] in ids;
      assert Inspect(schema, items[ids[0]]).Some?;
    }
  }

  function IdSet(ids: seq<uint64>): set<uint64> {
    set id | id in ids
  }

  lemma {:induction false} CountDistinct(ids: seq<uint64>)
    requires Distinct(ids)
    ensures |IdSet(ids)| == |ids|
    decreases |ids|
  {
    if ids != [] {
      var n := |ids| - 1;
      var some := ids[..n];
      assert ids == some + [ids[n]];
      CountDistinct(some);
      assert ids[n] !in some;
      assert IdSet(ids) == IdSet(some) + {ids[n]};
    }
  }

  lemma ExchangedCount(before: map<uint64, Item>, after: map<uint64, Item>, gone: set<uint64>, id: uint64, item: Item)
    requires Exchanged(before, after, gone, id, item)
    ensures |after| == |before| - |gone| + 1
  {
    assert |before.Keys - gone| == |before.Keys| - |gone|;
    assert |after.Keys| == |before.Keys - gone| + 1;
  }

  lemma TradedItems(m: Memory, accountId: uint32, ids: seq<uint64>, output: Item)
    requires |m.items| < USABLE && IdSet(ids) <= m.items.Keys
    ensures var id := NextId(m, accountId);
      Exchanged(m.items, Traded(m, accountId, output, ids).items, IdSet(ids), id, output.(id := id, accountId := accountId))
  {
    hide RemoveAll, NextId;
    NewIdIsFresh(m, accountId);
    RemoveAllRemoves(Adding(m, accountId, output), ids);
  }

  /** Ten items go, one comes, and nothing else in the inventory changes. */
  lemma ExchangesTenForOne(schema: Schema, m: Memory, accountId: uint32, ids: seq<uint64>, output: Item)
    requires |m.items| < USABLE && ContractOf(schema, m.items, ids).Some?
    ensures var id, after := NextId(m, accountId), Traded(m, accountId, output, ids).items;
      && Exchanged(m.items, after, IdSet(ids), id, output.(id := id, accountId := accountId))
      && |IdSet(ids)| == 10 && |after| == |m.items| - 9
  {
    hide Counts, Average, NextId, Traded, Exchanged, Inspect;
    ContractMeaning(schema, m.items, ids);
    CountDistinct(ids);
    TradedItems(m, accountId, ids, output);
    ExchangedCount(m.items, Traded(m, accountId, output, ids).items, IdSet(ids), NextId(m, accountId),
                   output.(id := NextId(m, accountId), accountId := accountId));
  }

  /** The output has the next rarity, comes from an input's collection and is worn within its kit's range. */
  lemma OutputMeaning(schema: Schema, items: map<uint64, Item>, ids: seq<uint64>, contract: Contract,
                      entry: LootListItem, weighted: seq<Text>, roll: nat, seed: uint32)
    requires Goes(schema, items, ids, contract, entry, weighted, roll)
    ensures |weighted| == INPUTS
    ensures exists id <- ids :: InputOf(schema, items, id).collection == weighted[roll]
    ensures weighted[roll] in schema.itemSets && entry in schema.itemSets[weighted[roll]].items
    ensures entry.itemInfo.Some? && entry.paintKitInfo.Some? && entry.rarity == contract.rarity + 1
    ensures var kit := entry.paintKitInfo.value;
      kit.minFloat <= MappedWear(kit, contract.averageWear) <= kit.maxFloat
    ensures RARITY_COMMON < contract.rarity + 1 <= RARITY_ANCIENT
  {
    hide Fit, Counts, Average, Inspect;
    ContractMeaning(schema, items, ids);
    var cs := CollectionsOf(schema, items, ids);
    assert |multiset(weighted)| == |multiset(cs)|;
    assert weighted[roll] in multiset(weighted);
    var k :| 0 <= k < |cs| && cs[k] == weighted[roll];
    assert ids[k] in ids;
  }

  // ------------------------------------------------------------------ closure

  /** Attribute types as they are, and collections whose entries agree with the item and paint kit tables. */
  ghost predicate TradeSchema(schema: Schema) {
    && IsNumber(schema, ATTRIBUTE_TEXTURE_PREFAB) && IsNumber(schema, ATTRIBUTE_TEXTURE_SEED)
    && IsNumber(schema, ATTRIBUTE_KILL_EATER) && IsNumber(schema, ATTRIBUTE_KILL_EATER_SCORE_TYPE)
    && ATTRIBUTE_TEXTURE_WEAR in schema.attributeTypes && schema.attributeTypes[ATTRIBUTE_TEXTURE_WEAR] == FloatType
    && forall c <- schema.itemSets, e <- schema.itemSets[c].items ::
         e.itemInfo.Some? && e.paintKitInfo.Some? ==> EntryAgrees(schema, e)
  }

  predicate EntryAgrees(schema: Schema, e: LootListItem)
    requires e.itemInfo.Some? && e.paintKitInfo.Some?
  {
    var item, kit := e.itemInfo.value, e.paintKitInfo.value;
    && item.defIndex in schema.itemInfo && schema.itemInfo[item.defIndex] == item
    && kit.defIndex in schema.paintKitInfo && schema.paintKitInfo[kit.defIndex] == kit
    && e.rarity == PaintedItemRarity(item.rarity, kit.rarity)
  }

  lemma OutputReads(schema: Schema, kit: uint32, seed: uint32, wear: real, statTrak: bool)
    requires TradeSchema(schema)
    ensures var a := OutputAttributes(schema, kit, seed, wear, statTrak);
      && a[0].defIndex == ATTRIBUTE_TEXTURE_PREFAB && NumberOf(schema, a[0]) == kit
      && WearsOf(schema, a) == [wear]
      && (Carries(a, ATTRIBUTE_KILL_EATER) <==> statTrak)
      && (statTrak ==> CountsWeaponKills(schema, a))
      && a[1].defIndex == ATTRIBUTE_TEXTURE_SEED && NumberOf(schema, a[1]) == seed
      && (statTrak ==> |a| == 5 && a[3].defIndex == ATTRIBUTE_KILL_EATER && NumberOf(schema, a[3]) == 0)
  {
    var base := OutputAttributes(schema, kit, seed, wear, false);
    var a := OutputAttributes(schema, kit, seed, wear, statTrak);
    assert base[..2][..1] == [base[0]] && base[..2] == [base[0], base[1]];
    assert WearsOf(schema, [base[0]]) == [] && WearsOf(schema, base[..2]) == [];
    assert WearsOf(schema, base) == [wear];
    if statTrak {
      assert a[..4][..3] == base && a[..4] == base + [a[3]] && a == a[..4] + [a[4]];
      assert WearsOf(schema, a[..4]) == [wear];
      assert a[3] in a;
    }
  }

  lemma {:induction false} SumWithin(xs: seq<real>, low: real, high: real)
    requires forall x <- xs :: low <= x <= high
    ensures low * (|xs| as real) <= Sum(xs) <= high * (|xs| as real)
    decreases |xs|
  {
    if xs != [] {
      var n := |xs| - 1;
      assert xs[n] in xs && forall x <- xs[..n] :: x in xs;
      SumWithin(xs[..n], low, high);
    }
  }

  /** The wear that is read from the item, which carries one. */
  predicate Worn(schema: Schema, item: Item, x: real) {
    WearsOf(schema, item.attributes) == [x]
  }

  /** Where the wear of the output is within the range of its kit, given the wear of the inputs. */
  predicate Placed(kit: PaintKitInfo, wears: seq<real>, x: real) {
    var span, n := kit.maxFloat - kit.minFloat, |wears| as real;
    if wears == [] then x - kit.minFloat == 0.15 * span
    else if Sum(wears) < 0.0 then x == kit.minFloat
    else if Sum(wears) > n then x == kit.maxFloat
    else (x - kit.minFloat) * n == Sum(wears) * span
  }

  lemma MappedIsPlaced(kit: PaintKitInfo, wears: seq<real>)
    ensures Placed(kit, wears, MappedWear(kit, Average(wears)))
  {
    hide Sum;
    if wears != [] && 0.0 <= Sum(wears) <= |wears| as real {
      var n, span, total := |wears| as real, kit.maxFloat - kit.minFloat, Sum(wears);
      assert Average(wears) == total / n by {
        assert 0.0 <= total / n <= 1.0;
      }
      assert total / n * span * n == total * span by {
        assert total / n * n == total;
      }
    } else {
      AverageOutside(wears);
    }
  }

  lemma AverageOutside(wears: seq<real>)
    requires wears != [] ==> Sum(wears) < 0.0 || Sum(wears) > |wears| as real
    ensures Average(wears) == if wears == [] then 0.15 else if Sum(wears) < 0.0 then 0.0 else 1.0
  {
    hide Sum;
    if wears != [] {
      var n, total := |wears| as real, Sum(wears);
      assert total / n * n == total;
      if total < 0.0 {
        assert total / n < 0.0;
      } else {
        assert total / n > 1.0;
      }
    }
  }

  /**
   The wear read from the output is as far into the range of its kit as the inputs are worn
   on average, and if none of them carries a wear, 15 hundredths.
   */
  lemma OutputWear(schema: Schema, items: map<uint64, Item>, ids: seq<uint64>, contract: Contract,
                   entry: LootListItem, weighted: seq<Text>, roll: nat, seed: uint32)
    requires TradeSchema(schema) && Goes(schema, items, ids, contract, entry, weighted, roll)
    requires contract.rarity <= RARITY_LEGENDARY && entry.itemInfo.Some? && entry.paintKitInfo.Some?
    ensures exists x :: Worn(schema, Output(schema, contract, entry, seed), x)
    ensures forall x :: Worn(schema, Output(schema, contract, entry, seed), x) ==>
      Placed(entry.paintKitInfo.value, AllWears(schema, items, ids), x)
  {
    hide Placed, Average, MappedWear, Fit, Counts, AllWears, WearsOf;
    var kit := entry.paintKitInfo.value;
    OutputReads(schema, kit.defIndex, seed, MappedWear(kit, contract.averageWear), contract.statTrak);
    MappedIsPlaced(kit, AllWears(schema, items, ids));
    assert Worn(schema, Output(schema, contract, entry, seed), MappedWear(kit, contract.averageWear));
  }

  /** So it is worn neither less nor more than the inputs, on the scale of its kit. */
  lemma OutputWearWithin(schema: Schema, items: map<uint64, Item>, ids: seq<uint64>, draw: Draw, x: real, low: real, high: real)
    requires TradeSchema(schema) && Decided(schema, items, ids, draw) && Worn(schema, DrawnOutput(schema, draw), x)
    requires AllWears(schema, items, ids) != [] && 0.0 <= low <= high <= 1.0
    requires forall w <- AllWears(schema, items, ids) :: low <= w <= high
    ensures var kit := draw.entry.paintKitInfo.value;
      kit.minFloat <= kit.maxFloat && low * (kit.maxFloat - kit.minFloat) <= x - kit.minFloat <= high * (kit.maxFloat - kit.minFloat)
  {
    hide Average, MappedWear, Fit, Counts, AllWears, WearsOf, Output, TradeSchema, Sum, Worn, Placed;
    var wears, kit := AllWears(schema, items, ids), draw.entry.paintKitInfo.value;
    OutputMeaning(schema, items, ids, draw.contract, draw.entry, draw.weighted, draw.roll, draw.seed);
    OutputWear(schema, items, ids, draw.contract, draw.entry, draw.weighted, draw.roll, draw.seed);
    SumWithin(wears, low, high);
    PlacedWithin(kit, wears, x, low, high);
  }

  lemma PlacedWithin(kit: PaintKitInfo, wears: seq<real>, x: real, low: real, high: real)
    requires wears != [] && Placed(kit, wears, x) && kit.minFloat <= kit.maxFloat && 0.0 <= low <= high <= 1.0
    requires low * (|wears| as real) <= Sum(wears) <= high * (|wears| as real)
    ensures var span := kit.maxFloat - kit.minFloat; low * span <= x - kit.minFloat <= high * span
  {
    hide Sum;
    var n, span, total := |wears| as real, kit.maxFloat - kit.minFloat, Sum(wears);
    assert 0.0 <= low * n && high * n <= n;
    Between(low, high, n, span, total, x - kit.minFloat);
  }

  lemma Between(low: real, high: real, n: real, span: real, total: real, d: real)
    requires n > 0.0 && span >= 0.0 && low * n <= total <= high * n && d * n == total * span
    ensures low * span <= d <= high * span
  {
    assert (low * n) * span <= total * span <= (high * n) * span;
    assert (low * span) * n <= d * n <= (high * span) * n;
  }

  /** The output arrives as a new item: of the next rarity, unequipped, and strange only under StatTrak. */
  lemma OutputArrives(schema: Schema, items: map<uint64, Item>, ids: seq<uint64>, draw: Draw)
    requires Decided(schema, items, ids, draw)
    ensures var out := DrawnOutput(schema, draw);
      && out.defIndex == draw.entry.itemInfo.value.defIndex && out.rarity == draw.entry.rarity
      && out.inventory == 0x4000_0011 && out.origin == 8 && out.quantity == 1 && out.level == 1
      && out.flags == 0 && !out.inUse && out.equipped == []
    ensures forall id <- ids :: DrawnOutput(schema, draw).quality == if InputOf(schema, items, id).statTrak then 9 else 4
  {
    hide Fit, Counts, Average, Inspect;
    OutputMeaning(schema, items, ids, draw.contract, draw.entry, draw.weighted, draw.roll, draw.seed);
    ContractMeaning(schema, items, ids);
  }

  /** An output that is not ancient can go into the next contract, as one of its rarity and kind. */
  lemma OutputIsInput(schema: Schema, items: map<uint64, Item>, ids: seq<uint64>, contract: Contract,
                      entry: LootListItem, weighted: seq<Text>, roll: nat, seed: uint32)
    requires TradeSchema(schema) && Goes(schema, items, ids, contract, entry, weighted, roll)
    requires contract.rarity <= RARITY_LEGENDARY && entry.itemInfo.Some? && entry.paintKitInfo.Some?
    ensures var input := Inspect(schema, Output(schema, contract, entry, seed));
      && (input.Some? <==> contract.rarity + 1 <= RARITY_LEGENDARY)
      && (input.Some? ==>
            && input.value.rarity == contract.rarity + 1
            && input.value.statTrak == contract.statTrak
            && input.value.wears == [MappedWear(entry.paintKitInfo.value, contract.averageWear)])
  {
    hide ContractOf, Average, Counts;
    OutputMeaning(schema, items, ids, contract, entry, weighted, roll, seed);
    var out, kit := Output(schema, contract, entry, seed), entry.paintKitInfo.value;
    OutputReads(schema, kit.defIndex, seed, MappedWear(kit, contract.averageWear), contract.statTrak);
    assert EntryAgrees(schema, entry);
    assert PaintKitOf(schema, out) == Some(kit.defIndex);
    assert PaintedRarity(schema, out.defIndex, kit.defIndex, out.rarity) == contract.rarity + 1;
    FromItsCollection(schema, items, ids, contract, entry, weighted[roll]);
  }

  /** The entry's own collection knows it. */
  lemma FromItsCollection(schema: Schema, items: map<uint64, Item>, ids: seq<uint64>, contract: Contract, entry: LootListItem, c: Text)
    requires ContractOf(schema, items, ids) == Some(contract) && c in CollectionsOf(schema, items, ids)
    requires c in schema.itemSets && entry in schema.itemSets[c].items
    requires entry.itemInfo.Some? && entry.paintKitInfo.Some?
    ensures CollectionNames(schema, entry.itemInfo.value.defIndex, entry.paintKitInfo.value.defIndex) != {}
  {
    hide Counts, Average, Inspect;
    var k :| 0 <= k < |ids| && InputOf(schema, items, ids[k]).collection == c;
    assert ids[k] in ids;
    CollectionIsOne(schema, items[ids[k]]);
    var d, kit := entry.itemInfo.value.defIndex, entry.paintKitInfo.value.defIndex;
    assert Paints(entry, Some(d), kit);
    assert c in Collections(schema, Some(d), kit);
  }

  lemma CollectionIsOne(schema: Schema, item: Item)
    requires Inspect(schema, item).Some?
    ensures var c := Inspect(schema, item).value.collection; c in schema.itemSets && schema.itemSets[c].isCollection
  {
  }
}
