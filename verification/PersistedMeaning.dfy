/** What the persisted operations are for, said without their bodies (inventory.cpp). */
module PersistedMeaning {
  import opened Prelude
  import opened Items
  import opened ItemSchema
  import opened ItemIds
  import opened InventoryState
  import opened Persisted
  import Purchases

  // -------------------------------------------------------------- attributes

  /** Writing an attribute: it reads as the number, and every other attribute reads as before. */
  lemma {:induction false} SetOrAddMeaning(schema: Schema, attributes: seq<Attribute>, d: uint32, n: uint32, other: uint32)
    requires IsNumber(schema, d)
    ensures HasAttribute(SetOrAdd(schema, attributes, d, n), d)
    ensures FirstNumber(schema, SetOrAdd(schema, attributes, d, n), d) == n
    ensures other != d ==>
      FirstNumber(schema, SetOrAdd(schema, attributes, d, n), other) == FirstNumber(schema, attributes, other)
  {
    var changed := SetOrAdd(schema, attributes, d, n);
    if attributes == [] {
      assert changed[1..] == [];
    } else if attributes[0].defIndex == d {
      assert FindAttribute(attributes, d) == 0;
      assert changed[1..] == attributes[1..];
    } else {
      SetOrAddMeaning(schema, attributes[1..], d, n, other);
      assert changed[0] == attributes[0] && changed[1..] == SetOrAdd(schema, attributes[1..], d, n);
    }
  }

  /** A kill counter goes up by the amount, modulo 2^32, and nothing else about the inventory changes. */
  lemma KillsGoUp(schema: Schema, m: Memory, accountId: uint32, id: uint64, amount: uint32)
    requires |m.items| < USABLE && IsNumber(schema, ATTRIBUTE_KILL_EATER) && Accepts(schema, m, AddKills(id, amount), None)
    ensures var after := Performed(schema, m, accountId, AddKills(id, amount), None);
      && after.items.Keys == m.items.Keys
      && FirstNumber(schema, after.items[id].attributes, ATTRIBUTE_KILL_EATER)
           == (FirstNumber(schema, m.items[id].attributes, ATTRIBUTE_KILL_EATER) + amount) % WORD
      && forall other <- m.items :: other != id ==> after.items[other] == m.items[other]
  {
    hide SetOrAdd, FirstNumber;
    var n := FirstNumber(schema, m.items[id].attributes, ATTRIBUTE_KILL_EATER);
    SetOrAddMeaning(schema, m.items[id].attributes, ATTRIBUTE_KILL_EATER, (n + amount) % WORD, 0);
  }

  /** Storing a graffiti in a journal: it reads as the one chosen, and nothing else changes. */
  lemma GraffitiIsStored(schema: Schema, m: Memory, accountId: uint32, id: uint64, d: uint32, value: uint32, other: uint32)
    requires |m.items| < USABLE && IsNumber(schema, d) && Accepts(schema, m, Op.ModifyAttribute(id, d, value), None)
    ensures var after := Performed(schema, m, accountId, Op.ModifyAttribute(id, d, value), None);
      && d == 113 && m.items[id].defIndex in schema.journals
      && OnlyAttributes(m, after, id)
      && FirstNumber(schema, after.items[id].attributes, d) == value
      && (other != d ==> FirstNumber(schema, after.items[id].attributes, other) == FirstNumber(schema, m.items[id].attributes, other))
  {
    hide SetOrAdd, FirstNumber;
    SetOrAddMeaning(schema, m.items[id].attributes, d, value, other);
  }

  /** One item has other attributes, and the version has advanced. */
  predicate OnlyAttributes(m: Memory, after: Memory, id: uint64) {
    && id in m.items && id in after.items
    && after.items == m.items[id := m.items[id].(attributes := after.items[id].attributes)]
    && after == m.(items := after.items, version := NextVersion(m.version))
  }

  /** Selecting a mission: the operation of the season has it, and nothing else changes. */
  lemma MissionIsSelected(schema: Schema, m: Memory, accountId: uint32, season: uint32, card: uint32)
    requires |m.items| < USABLE && Accepts(schema, m, SelectMission(season, card), None)
    ensures var after := Performed(schema, m, accountId, SelectMission(season, card), None);
      && after.operations.Keys == m.operations.Keys
      && after.operations[season].missionId == card
      && after.operations[season] == m.operations[season].(missionId := card)
      && (forall other <- m.operations :: other != season ==> after.operations[other] == m.operations[other])
      && after == m.(operations := after.operations, version := after.version)
      && (after.version == m.version <==> m.operations[season].missionId == card)
  {
  }

  /** Marking an event: it is a favorite or not as asked, and nothing else changes. */
  lemma FavoriteIsMarked(schema: Schema, m: Memory, accountId: uint32, eventId: uint64, favorite: bool)
    requires |m.items| < USABLE && Accepts(schema, m, Favorite(eventId, favorite), None)
    ensures var after := Performed(schema, m, accountId, Favorite(eventId, favorite), None);
      && (eventId in after.eventFavorites <==> favorite)
      && (forall other: uint64 :: other != eventId ==> (other in after.eventFavorites <==> other in m.eventFavorites))
      && after == m.(eventFavorites := after.eventFavorites)
  {
  }

  // -------------------------------------------------------------- new items

  /** What the schema makes of the definition, under this id and account, unequipped, from this origin. */
  predicate ArrivesAs(schema: Schema, d: uint32, item: Item, id: uint64, accountId: uint32, origin: uint32, inventory: uint32) {
    && item.id == id && item.accountId == accountId
    && if d in schema.creatable then
         var made := schema.creatable[d];
         && item.origin == origin && item.inventory == inventory && item.equipped == []
         && item == made.(id := id, accountId := accountId, origin := item.origin, inventory := item.inventory, equipped := item.equipped)
       else item == EmptyItem(id, accountId)
  }

  lemma PurchasedArrives(schema: Schema, d: uint32, id: uint64, accountId: uint32)
    ensures var created := Created(schema, EmptyItem(0, accountId), d, ORIGIN_PURCHASED, UNACKNOWLEDGED_PURCHASED);
      ArrivesAs(schema, d, created.(id := id, accountId := accountId), id, accountId, 2, 0x4000_0004)
  {
  }

  /** What is bought in the store arrives in the same way. */
  lemma BoughtArrives(schema: Schema, d: uint32, id: uint64, accountId: uint32)
    ensures ArrivesAs(schema, d, Purchases.Received(schema, accountId, id, d), id, accountId, 2, 0x4000_0004)
  {
  }

  // ----------------------------------------------------------- passes and tokens

  /** A season pass gives way to one coin, and opens the operation of its season. */
  lemma PassBuysCoin(schema: Schema, m: Memory, accountId: uint32, id: uint64, pass: SeasonPass, now: uint32)
    requires |m.items| < USABLE && id in m.items && CanUsePass(m, pass)
    ensures var after, coinId := PassUsed(schema, m, accountId, id, pass, now), NextId(m, accountId);
      && coinId in after.items
      && Exchanged(m.items, after.items, {id}, coinId, after.items[coinId])
      && ArrivesAs(schema, pass.coinDefIndex, after.items[coinId], coinId, accountId, 2, 0x4000_0004)
      && after.operations == m.operations[pass.seasonValue := SeasonalOperation(pass.seasonValue, 0, 0, 0, 0, 0, now)]
      && after.eventFavorites == m.eventFavorites && after.playerLevel == m.playerLevel && after.playerXp == m.playerXp
      && after.defaultEquips == m.defaultEquips
      && !CanUsePass(after, pass)
  {
    hide NextId;
    NewIdIsFresh(m, accountId);
    var coin := Created(schema, EmptyItem(0, accountId), pass.coinDefIndex, ORIGIN_PURCHASED, UNACKNOWLEDGED_PURCHASED);
    AddingItems(m, accountId, coin);
  }

  /** A token goes, and its journal counts one more; no other item changes. */
  lemma TokenCounts(schema: Schema, m: Memory, accountId: uint32, id: uint64, access: TournamentAccess, journalId: uint64)
    requires |m.items| < USABLE && id in m.items && id != journalId && access.isToken
    requires IsNumber(schema, ATTRIBUTE_DROPS_AWARDED_PURCHASED) && CanUseAccess(schema, m, access, journalId)
    ensures var after := AccessUsed(schema, m, accountId, id, access, Some(journalId));
      && after.items.Keys == m.items.Keys - {id}
      && FirstNumber(schema, after.items[journalId].attributes, ATTRIBUTE_DROPS_AWARDED_PURCHASED)
           == FirstNumber(schema, m.items[journalId].attributes, ATTRIBUTE_DROPS_AWARDED_PURCHASED) + 1
      && forall other <- after.items :: other != journalId ==> after.items[other] == m.items[other]
  {
    hide SetOrAdd, FirstNumber;
    var n := FirstNumber(schema, m.items[journalId].attributes, ATTRIBUTE_DROPS_AWARDED_PURCHASED);
    SetOrAddMeaning(schema, m.items[journalId].attributes, ATTRIBUTE_DROPS_AWARDED_PURCHASED, OneMoreToken(n), 0);
  }

  /** A tournament pass gives way to one journal with the tokens it includes. */
  lemma PassBuysJournal(schema: Schema, m: Memory, accountId: uint32, id: uint64, access: TournamentAccess)
    requires |m.items| < USABLE && id in m.items && !access.isToken
    requires IsNumber(schema, ATTRIBUTE_DROPS_AWARDED_PURCHASED) && CanUseAccess(schema, m, access, 0)
    ensures var after, journalId := AccessUsed(schema, m, accountId, id, access, None), NextId(m, accountId);
      && journalId in after.items
      && Exchanged(m.items, after.items, {id}, journalId, after.items[journalId])
      && (access.includedTokens == 0 ==>
            ArrivesAs(schema, access.journalDefIndex, after.items[journalId], journalId, accountId, 2, 0x4000_0004))
      && (access.includedTokens > 0 ==>
            FirstNumber(schema, after.items[journalId].attributes, ATTRIBUTE_DROPS_AWARDED_PURCHASED) == access.includedTokens)
  {
    hide NextId, SetOrAdd, FirstNumber, Created;
    NewIdIsFresh(m, accountId);
    var created := Created(schema, EmptyItem(0, accountId), access.journalDefIndex, ORIGIN_PURCHASED, UNACKNOWLEDGED_PURCHASED);
    var filled := if access.includedTokens == 0 then created
      else WithAttribute(schema, created, ATTRIBUTE_DROPS_AWARDED_PURCHASED, access.includedTokens);
    AddingItems(m, accountId, filled);
    PurchasedArrives(schema, access.journalDefIndex, NextId(m, accountId), accountId);
    SetOrAddMeaning(schema, created.attributes, ATTRIBUTE_DROPS_AWARDED_PURCHASED, access.includedTokens, 0);
  }

  // ----------------------------------------------------------------- medals

  /** The level of the best medal owned, counting from one; zero without a medal. */
  ghost predicate MedalLevel(items: map<uint64, Item>, medals: seq<uint32>, level: nat) {
    if level == 0 then forall id <- items :: items[id].defIndex !in medals
    else exists id :: BestMedal(items, items.Keys, medals, id) && LevelOf(medals, items[id].defIndex) == level - 1
  }

  lemma {:induction false} LevelOfAt(medals: seq<uint32>, k: nat)
    requires k < |medals| && forall i, j :: 0 <= i < j < |medals| ==> medals[i] != medals[j]
    ensures LevelOf(medals, medals[k]) == k
  {
    if k > 0 {
      assert medals[1..][k - 1] == medals[k];
      LevelOfAt(medals[1..], k - 1);
    }
  }

  /** The player starts over at level 1 with no experience; operations, favorites and default equips stay. */
  predicate StartsOver(m: Memory, after: Memory) {
    && after.playerLevel == 1 && after.playerXp == 0
    && after.operations == m.operations && after.eventFavorites == m.eventFavorites
    && after.defaultEquips == m.defaultEquips && after.statsTimeInitiated == m.statsTimeInitiated
  }

  /** Only who has reached level 40 can claim. */
  lemma ClaimNeedsLevel(schema: Schema, m: Memory, year: uint32, d: uint32, chosen: Option<uint64>)
    requires Accepts(schema, m, ClaimMedal(year, d), chosen)
    ensures m.playerLevel >= 40 && d in Medals(schema, year)
    ensures chosen.Some? ==> chosen.value in m.items && m.items[chosen.value].defIndex in Medals(schema, year)
  {
  }

  /** A claim raises the level by exactly one, and there is no plan at the top level. */
  lemma ClaimRaisesLevel(schema: Schema, m: Memory, accountId: uint32, year: uint32, d: uint32, chosen: Option<uint64>, level: nat)
    requires |m.items| < USABLE && Accepts(schema, m, ClaimMedal(year, d), chosen)
    requires MedalLevel(m.items, Medals(schema, year), level)
    requires forall i, j :: 0 <= i < j < |Medals(schema, year)| ==> Medals(schema, year)[i] != Medals(schema, year)[j]
    requires d in schema.creatable && schema.creatable[d].defIndex == d
    ensures level < |Medals(schema, year)|
    ensures StartsOver(m, Performed(schema, m, accountId, ClaimMedal(year, d), chosen))
    ensures MedalLevel(Performed(schema, m, accountId, ClaimMedal(year, d), chosen).items, Medals(schema, year), level + 1)
  {
    var medals := Medals(schema, year);
    var after := Performed(schema, m, accountId, ClaimMedal(year, d), chosen).items;
    match chosen
    case None =>
      assert level == 0;
      LevelOfAt(medals, 0);
      FirstMedal(schema, m, accountId, medals, d);
    case Some(id) =>
      LevelOfAt(medals, LevelOf(medals, m.items[id].defIndex) + 1);
      LevelIsUnique(m.items, medals, id, level);
      assert BestMedal(after, after.Keys, medals, id);
  }

  lemma LevelIsUnique(items: map<uint64, Item>, medals: seq<uint32>, id: uint64, level: nat)
    requires MedalLevel(items, medals, level) && BestMedal(items, items.Keys, medals, id)
    ensures level == LevelOf(medals, items[id].defIndex) + 1
  {
  }

  lemma FirstMedal(schema: Schema, m: Memory, accountId: uint32, medals: seq<uint32>, d: uint32)
    requires |m.items| < USABLE && d in schema.creatable && schema.creatable[d].defIndex == d
    requires IsPlan(m.items, medals, Plan(d, None)) && LevelOf(medals, d) == 0
    ensures MedalLevel(Claimed(schema, m, accountId, d, None).items, medals, 1)
    ensures var after := Claimed(schema, m, accountId, d, None);
      && NextId(m, accountId) in after.items
      && ArrivesAs(schema, d, after.items[NextId(m, accountId)], NextId(m, accountId), accountId, 24, 0x4000_0014)
  {
    hide NextId;
    NewIdIsFresh(m, accountId);
    var medal := Created(schema, EmptyItem(0, accountId), d, ORIGIN_LEVEL_UP_REWARD, UNACKNOWLEDGED_LEVEL_UP_REWARD);
    AddingItems(m, accountId, medal);
    var after, id := Claimed(schema, m, accountId, d, None).items, NextId(m, accountId);
    assert after[id].defIndex == d;
    assert BestMedal(after, after.Keys, medals, id);
  }

  /** Whoever has the highest medal has nothing left to claim. */
  lemma TopLevelHasNoPlan(items: map<uint64, Item>, medals: seq<uint32>, plan: Plan)
    requires MedalLevel(items, medals, |medals|) && medals != []
    ensures !IsPlan(items, medals, plan)
  {
    var best :| BestMedal(items, items.Keys, medals, best) && LevelOf(medals, items[best].defIndex) == |medals| - 1;
    if plan.upgrade.Some? && plan.upgrade.value in items && BestMedal(items, items.Keys, medals, plan.upgrade.value) {
      assert LevelOf(medals, items[plan.upgrade.value].defIndex) == |medals| - 1;
    }
  }
}
