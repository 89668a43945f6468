/**
 The operations that save the inventory file before they report success, and take their
 changes back when the file cannot be written (inventory.cpp).
 */
module Persisted {
  import opened Prelude
  import opened Items
  import opened ItemSchema
  import opened ItemIds
  import opened InventoryState
  import Numbers

  const MAX_PLAYER_LEVEL := 40

  datatype Op =
    | ClaimMedal(year: uint32, defIndex: uint32)
    | Use(itemId: uint64, now: uint32)
    | SelectMission(season: uint32, card: uint32)
    | ModifyAttribute(itemId: uint64, defIndex: uint32, value: uint32)
    | AddKills(itemId: uint64, amount: uint32)
    | Favorite(eventId: uint64, favorite: bool)

  // ---------------------------------------------------------------- outputs

  datatype PrestigeMedalClaim = PrestigeMedalClaim(
    itemData: SingleObject, personaData: SingleObject, itemId: uint64, created: bool)

  const NoClaim := PrestigeMedalClaim(NoObject, NoObject, 0, false)

  datatype UseItemChange = NoChange | CreateObject | UpdateObject

  datatype UseItemResult = UseItemResult(
    destroy: SingleObject, itemData: SingleObject, operationData: SingleObject,
    itemChange: UseItemChange, operationChange: UseItemChange, updateMultiple: MultipleObjects, notified: seq<uint64>)

  const NoUpdates := MultipleObjects(None, [])
  const NotUsed := UseItemResult(NoObject, NoObject, NoObject, NoChange, NoChange, NoUpdates, [])

  // ----------------------------------------------------------------- medals

  /** The medal to grant, and the item it replaces. */
  datatype Plan = Plan(defIndex: uint32, upgrade: Option<uint64>)

  function LevelOf(medals: seq<uint32>, defIndex: uint32): (i: nat)
    ensures i <= |medals|
    ensures i < |medals| ==> medals[i] == defIndex
    ensures i == |medals| ==> defIndex !in medals
  {
    if medals == [] || medals[0] == defIndex then 0 else 1 + LevelOf(medals[1..], defIndex)
  }

  function Medals(schema: Schema, year: uint32): seq<uint32> {
    if year in schema.prestigeMedals then schema.prestigeMedals[year] else []
  }

  /** The item carries one of the year's medals and none of these items a higher one. */
  predicate BestMedal(items: map<uint64, Item>, ids: set<uint64>, medals: seq<uint32>, id: uint64)
    requires ids <= items.Keys
  {
    && id in ids && items[id].defIndex in medals
    && forall other <- ids :: items[other].defIndex in medals ==>
         LevelOf(medals, items[other].defIndex) <= LevelOf(medals, items[id].defIndex)
  }

  /** A first medal, or the one after the best that is owned. */
  predicate IsPlan(items: map<uint64, Item>, medals: seq<uint32>, plan: Plan) {
    match plan.upgrade
    case None => medals != [] && plan.defIndex == medals[0] && forall id <- items :: items[id].defIndex !in medals
    case Some(id) =>
      && BestMedal(items, items.Keys, medals, id)
      && var next := LevelOf(medals, items[id].defIndex) + 1;
         next < |medals| && plan.defIndex == medals[next]
  }

  /** Which item is replaced may be a matter of choice, what it becomes is not. */
  lemma PlansAgree(items: map<uint64, Item>, medals: seq<uint32>, a: Plan, b: Plan)
    requires IsPlan(items, medals, a) && IsPlan(items, medals, b)
    ensures a.defIndex == b.defIndex && (a.upgrade.Some? <==> b.upgrade.Some?)
  {
  }

  // ------------------------------------------------------------- attributes

  /** Writes the first attribute with the definition, or a new one. */
  function SetOrAdd(schema: Schema, attributes: seq<Attribute>, defIndex: uint32, n: uint32): seq<Attribute> {
    var i := FindAttribute(attributes, defIndex);
    if i < |attributes| then attributes[i := WithNumber(schema, attributes[i], n)]
    else attributes + [WithNumber(schema, Attribute(defIndex, Unset), n)]
  }

  /** The value of the first attribute with the definition, 0 without one. */
  function FirstNumber(schema: Schema, attributes: seq<Attribute>, defIndex: uint32): uint32 {
    var i := FindAttribute(attributes, defIndex);
    if i < |attributes| then NumberOf(schema, attributes[i]) else 0
  }

  function HasAttribute(attributes: seq<Attribute>, defIndex: uint32): bool {
    FindAttribute(attributes, defIndex) < |attributes|
  }

  function WithAttribute(schema: Schema, item: Item, defIndex: uint32, n: uint32): Item {
    item.(attributes := SetOrAdd(schema, item.attributes, defIndex, n))
  }

  // -------------------------------------------------- when it can be performed

  predicate IsJournal(schema: Schema, items: map<uint64, Item>, access: TournamentAccess, id: uint64) {
    id in items && items[id].defIndex == access.journalDefIndex
  }

  /** A pass needs there to be no journal yet, a token needs one that has room. */
  predicate CanUseAccess(schema: Schema, m: Memory, access: TournamentAccess, journalId: uint64) {
    if access.isToken then
      && IsJournal(schema, m.items, access, journalId)
      && FirstNumber(schema, m.items[journalId].attributes, ATTRIBUTE_DROPS_AWARDED_PURCHASED) != 0xffff_ffff
    else !HasDefinition(m.items, access.journalDefIndex)
  }

  predicate CanUsePass(m: Memory, pass: SeasonPass) {
    pass.seasonValue !in m.operations && !HasDefinition(m.items, pass.coinDefIndex)
  }

  /**
   Whether the operation can be performed.  `chosen` is the item the operation works on
   when several would do: the medal to replace or the journal to add to.
   */
  predicate Accepts(schema: Schema, m: Memory, op: Op, chosen: Option<uint64>) {
    match op
    case ClaimMedal(year, d) =>
      m.playerLevel >= MAX_PLAYER_LEVEL && IsPlan(m.items, Medals(schema, year), Plan(d, chosen))
    case Use(id, _) =>
      && id in m.items
      && var d := m.items[id].defIndex;
         if d in schema.tournamentAccess then
           && (chosen.Some? <==> schema.tournamentAccess[d].isToken)
           && CanUseAccess(schema, m, schema.tournamentAccess[d], if chosen.Some? then chosen.value else 0)
         else d in schema.seasonPasses && CanUsePass(m, schema.seasonPasses[d]) && chosen.None?
    case SelectMission(season, card) => season in m.operations && (season, card) in schema.missionCards && chosen.None?
    case ModifyAttribute(id, d, _) =>
      && id in m.items && d == ATTRIBUTE_STICKER_ID_0 && m.items[id].defIndex in schema.journals
      && d in schema.attributeTypes && chosen.None?
    case AddKills(id, _) => id in m.items && HasAttribute(m.items[id].attributes, ATTRIBUTE_KILL_EATER) && chosen.None?
    case Favorite(eventId, _) => eventId != 0 && chosen.None?
  }

  /** Accepted without anything to change or to save. */
  predicate Idle(m: Memory, op: Op) {
    match op
    case SelectMission(season, card) => season in m.operations && m.operations[season].missionId == card
    case Favorite(eventId, favorite) => eventId in m.eventFavorites <==> favorite
    case _ => false
  }

  // ---------------------------------------------------------- what it makes

  function NewOperation(season: uint32, now: uint32): SeasonalOperation {
    SeasonalOperation(season, 0, 0, 0, 0, 0, now)
  }

  ghost function Granted(schema: Schema, m: Memory, accountId: uint32, defIndex: uint32, upgrade: Option<uint64>): Memory
    requires |m.items| < USABLE && (upgrade.Some? ==> upgrade.value in m.items)
  {
    match upgrade
    case Some(id) => m.(items := m.items[id := m.items[id].(defIndex := defIndex)])
    case None => Creating(schema, m, accountId, defIndex, ORIGIN_LEVEL_UP_REWARD, UNACKNOWLEDGED_LEVEL_UP_REWARD)
  }

  ghost function Claimed(schema: Schema, m: Memory, accountId: uint32, defIndex: uint32, upgrade: Option<uint64>): Memory
    requires |m.items| < USABLE && (upgrade.Some? ==> upgrade.value in m.items)
  {
    Granted(schema, m, accountId, defIndex, upgrade).(playerLevel := 1, playerXp := 0, version := AdvancedBy(m.version, 2))
  }

  /** What is published of a claim. */
  ghost predicate IsClaim(schema: Schema, m: Memory, accountId: uint32, upgrade: Option<uint64>, after: Memory, claim: PrestigeMedalClaim)
    requires |m.items| < USABLE
  {
    && claim.itemId == (if upgrade.Some? then upgrade.value else NextId(m, accountId))
    && claim.itemId in after.items && (claim.created <==> claim.itemId !in m.items)
    && claim.itemData == SingleObject(NextVersion(m.version), ItemObject(after.items[claim.itemId]))
    && claim.personaData == SingleObject(after.version, PersonaObject(1))
  }

  /** The items without the claim. */
  function Unclaimed(items: map<uint64, Item>, claim: PrestigeMedalClaim, previousDef: uint32): map<uint64, Item> {
    if claim.itemId !in items then items
    else if claim.created then items - {claim.itemId}
    else items[claim.itemId := items[claim.itemId].(defIndex := previousDef)]
  }

  /** The grant can be taken back. */
  lemma GrantedItems(schema: Schema, m: Memory, accountId: uint32, defIndex: uint32, upgrade: Option<uint64>)
    requires |m.items| < USABLE && (upgrade.Some? ==> upgrade.value in m.items)
    ensures var g := Granted(schema, m, accountId, defIndex, upgrade);
      && g == m.(items := g.items, lastHighItemId := g.lastHighItemId)
      && match upgrade
         case Some(id) =>
           && g.lastHighItemId == m.lastHighItemId && id in g.items
           && g.items[id := g.items[id].(defIndex := m.items[id].defIndex)] == m.items
         case None =>
           && NextId(m, accountId) in g.items && NextId(m, accountId) !in m.items
           && g.items - {NextId(m, accountId)} == m.items
  {
    if upgrade.None? {
      NewIdIsFresh(m, accountId);
      CreateThenDestroy(m, accountId,
        Created(schema, EmptyItem(0, accountId), defIndex, ORIGIN_LEVEL_UP_REWARD, UNACKNOWLEDGED_LEVEL_UP_REWARD));
    }
  }

  ghost function PassUsed(schema: Schema, m: Memory, accountId: uint32, id: uint64, pass: SeasonPass, now: uint32): Memory
    requires |m.items| < USABLE && id in m.items
  {
    var created := Creating(schema, m, accountId, pass.coinDefIndex, ORIGIN_PURCHASED, UNACKNOWLEDGED_PURCHASED);
    Destroying(created, id).(operations := m.operations[pass.seasonValue := NewOperation(pass.seasonValue, now)],
                             version := AdvancedBy(m.version, 3))
  }

  /** Tokens stop at the largest number, which no accepted use goes past. */
  function OneMoreToken(tokens: uint32): uint32 {
    if tokens == 0xffff_ffff then tokens else tokens + 1
  }

  /** A new journal with the included tokens, or one more token in the journal there is. */
  ghost function JournalStored(schema: Schema, m: Memory, accountId: uint32, access: TournamentAccess, journal: Option<uint64>): Memory
    requires |m.items| < USABLE && (journal.Some? ==> journal.value in m.items)
  {
    match journal
    case None =>
      var created := Created(schema, EmptyItem(0, accountId), access.journalDefIndex, ORIGIN_PURCHASED, UNACKNOWLEDGED_PURCHASED);
      Adding(m, accountId, if access.includedTokens == 0 then created
                           else WithAttribute(schema, created, ATTRIBUTE_DROPS_AWARDED_PURCHASED, access.includedTokens))
    case Some(id) =>
      var tokens := FirstNumber(schema, m.items[id].attributes, ATTRIBUTE_DROPS_AWARDED_PURCHASED);
      m.(items := m.items[id := WithAttribute(schema, m.items[id], ATTRIBUTE_DROPS_AWARDED_PURCHASED, OneMoreToken(tokens))])
  }

  ghost function AccessUsed(schema: Schema, m: Memory, accountId: uint32, id: uint64, access: TournamentAccess, journal: Option<uint64>): Memory
    requires |m.items| < USABLE && id in m.items && (journal.Some? ==> journal.value in m.items)
  {
    Destroying(JournalStored(schema, m, accountId, access, journal), id).(version := AdvancedBy(m.version, 2))
  }

  /** What is published of a season pass: the pass goes, the coin and the operation appear. */
  ghost predicate IsPassResult(m: Memory, accountId: uint32, id: uint64, pass: SeasonPass, after: Memory, r: UseItemResult)
    requires |m.items| < USABLE
  {
    var coinId := NextId(m, accountId);
    && coinId in after.items && pass.seasonValue in after.operations
    && r == UseItemResult(
         DestroyMessage(AdvancedBy(m.version, 1), id),
         SingleObject(AdvancedBy(m.version, 2), ItemObject(after.items[coinId])),
         SingleObject(AdvancedBy(m.version, 3), OperationObject(after.operations[pass.seasonValue])),
         CreateObject, CreateObject, NoUpdates, [coinId])
  }

  /** What is published of a tournament pass or token: it goes, the journal is created or updated. */
  ghost predicate IsAccessResult(m: Memory, accountId: uint32, id: uint64, journal: Option<uint64>, after: Memory, r: UseItemResult)
    requires |m.items| < USABLE
  {
    var journalId := if journal.Some? then journal.value else NextId(m, accountId);
    && journalId in after.items
    && r == UseItemResult(
         DestroyMessage(AdvancedBy(m.version, 1), id),
         SingleObject(AdvancedBy(m.version, 2), ItemObject(after.items[journalId])),
         NoObject, if journal.Some? then UpdateObject else CreateObject, NoChange, NoUpdates, [journalId])
  }

  /** map::emplace: an entry that is there stays. */
  function Emplaced(items: map<uint64, Item>, id: uint64, item: Item): map<uint64, Item> {
    if id in items then items else items[id := item]
  }

  /** The items with a new item taken away, or a changed one put back, and the used item restored. */
  function Undone(items: map<uint64, Item>, id: uint64, item: Item, madeId: uint64, changed: Option<Item>): map<uint64, Item> {
    if changed.Some? then Emplaced(items, id, item)[madeId := changed.value]
    else Emplaced(items - {madeId}, id, item)
  }

  /** A token is not its own journal. */
  predicate AccessSchema(schema: Schema) {
    forall d <- schema.tournamentAccess :: schema.tournamentAccess[d].isToken ==> schema.tournamentAccess[d].journalDefIndex != d
  }

  ghost predicate UseResult(schema: Schema, m: Memory, accountId: uint32, id: uint64, chosen: Option<uint64>, after: Memory, r: UseItemResult)
    requires |m.items| < USABLE
  {
    && id in m.items
    && var d := m.items[id].defIndex;
       if d in schema.tournamentAccess then IsAccessResult(m, accountId, id, chosen, after, r)
       else d in schema.seasonPasses && IsPassResult(m, accountId, id, schema.seasonPasses[d], after, r)
  }

  /** Undoing a pass. */
  lemma UsedPassCanReturn(schema: Schema, m: Memory, accountId: uint32, id: uint64, pass: SeasonPass, now: uint32)
    requires |m.items| < USABLE && id in m.items && CanUsePass(m, pass)
    ensures var p := PassUsed(schema, m, accountId, id, pass, now);
      var coinId := NextId(m, accountId);
      && Undone(p.items, id, m.items[id], coinId, None) == m.items
      && p.operations - {pass.seasonValue} == m.operations
      && coinId in p.items && pass.seasonValue in p.operations
  {
    NewIdIsFresh(m, accountId);
  }

  /** Undoing a tournament pass or token. */
  lemma StoredJournalCanGo(schema: Schema, m: Memory, accountId: uint32, id: uint64, access: TournamentAccess, journal: Option<uint64>)
    requires |m.items| < USABLE && id in m.items
    requires journal.Some? ==> journal.value in m.items && journal.value != id
    ensures var s := JournalStored(schema, m, accountId, access, journal);
      var madeId := if journal.Some? then journal.value else NextId(m, accountId);
      && s == m.(items := s.items, lastHighItemId := s.lastHighItemId)
      && id in s.items && s.items[id] == m.items[id] && madeId in s.items && madeId != id
      && Undone(s.items - {id}, id, m.items[id], madeId, if journal.Some? then Some(m.items[journal.value]) else None) == m.items
      && (journal.Some? ==> s.lastHighItemId == m.lastHighItemId)
  {
    if journal.None? {
      NewIdIsFresh(m, accountId);
    }
  }

  /** What an accepted operation makes of the memory. */
  ghost function Performed(schema: Schema, m: Memory, accountId: uint32, op: Op, chosen: Option<uint64>): Memory
    requires |m.items| < USABLE && Accepts(schema, m, op, chosen)
  {
    match op
    case ClaimMedal(_, d) => Claimed(schema, m, accountId, d, chosen)
    case Use(id, now) =>
      var d := m.items[id].defIndex;
      if d in schema.tournamentAccess then AccessUsed(schema, m, accountId, id, schema.tournamentAccess[d], chosen)
      else PassUsed(schema, m, accountId, id, schema.seasonPasses[d], now)
    case SelectMission(season, card) =>
      if Idle(m, op) then m
      else m.(operations := m.operations[season := m.operations[season].(missionId := card)], version := NextVersion(m.version))
    case ModifyAttribute(id, d, value) =>
      m.(items := m.items[id := WithAttribute(schema, m.items[id], d, value)], version := NextVersion(m.version))
    case AddKills(id, amount) =>
      var n := FirstNumber(schema, m.items[id].attributes, ATTRIBUTE_KILL_EATER);
      m.(items := m.items[id := WithAttribute(schema, m.items[id], ATTRIBUTE_KILL_EATER, (n + amount) % WORD)],
         version := NextVersion(m.version))
    case Favorite(eventId, favorite) =>
      m.(eventFavorites := if favorite then m.eventFavorites + {eventId} else m.eventFavorites - {eventId})
  }

  /**
   What memory holds after the changes have been taken back.  Two undo steps do not
   restore what they undo: the kill counter is rewritten with the number it reads as,
   and the time of the stats subscription is not put back with the item.
   */
  function TakenBack(schema: Schema, m: Memory, op: Op): Memory {
    match op
    case AddKills(id, _) =>
      if id !in m.items then m
      else
        var attributes := m.items[id].attributes;
        var i := FindAttribute(attributes, ATTRIBUTE_KILL_EATER);
        if i == |attributes| then m
        else
          var rewritten := WithNumber(schema, attributes[i], NumberOf(schema, attributes[i]));
          m.(items := m.items[id := m.items[id].(attributes := attributes[i := rewritten])])
    case Use(id, _) =>
      if id in m.items && m.items[id].defIndex == ITEM_STATS_SUBSCRIPTION then m.(statsTimeInitiated := 0) else m
    case _ => m
  }

  /** The counter is stored as a whole number: a uint32, an integral float in its range, or its decimal text. */
  predicate StoredWhole(schema: Schema, a: Attribute) {
    a.defIndex in schema.attributeTypes ==>
      match schema.attributeTypes[a.defIndex]
      case Uint32Type => a.value.Number?
      case FloatType => a.value.Real? && 0.0 <= a.value.x < WORD as real && a.value.x == a.value.x.Floor as real
      case StringType => a.value.Str? && Numbers.IsCanonical(a.value.s)
  }

  /** When taking the changes back leaves memory exactly as it was. */
  predicate TakesBackAll(schema: Schema, m: Memory, op: Op) {
    match op
    case AddKills(id, _) =>
      id in m.items && HasAttribute(m.items[id].attributes, ATTRIBUTE_KILL_EATER) ==>
        var attributes := m.items[id].attributes;
        StoredWhole(schema, attributes[FindAttribute(attributes, ATTRIBUTE_KILL_EATER)])
    case Use(id, _) =>
      id in m.items && m.items[id].defIndex == ITEM_STATS_SUBSCRIPTION ==> m.statsTimeInitiated == 0
    case _ => true
  }

  lemma RewritingKeeps(schema: Schema, a: Attribute)
    ensures WithNumber(schema, a, NumberOf(schema, a)) == a <==> StoredWhole(schema, a)
  {
    if a.value.Str? {
      Numbers.CanonicalMeaning(a.value.s);
    }
  }

  lemma UndoRestores(schema: Schema, m: Memory, op: Op)
    ensures TakenBack(schema, m, op) == m <==> TakesBackAll(schema, m, op)
  {
    if op.AddKills? && op.itemId in m.items && HasAttribute(m.items[op.itemId].attributes, ATTRIBUTE_KILL_EATER) {
      hide WithNumber, NumberOf, StoredWhole;
      var attributes := m.items[op.itemId].attributes;
      var i := FindAttribute(attributes, ATTRIBUTE_KILL_EATER);
      var rewritten := WithNumber(schema, attributes[i], NumberOf(schema, attributes[i]));
      RewritingKeeps(schema, attributes[i]);
      assert TakenBack(schema, m, op).items[op.itemId].attributes[i] == rewritten;
      if rewritten == attributes[i] {
        assert attributes[i := rewritten] == attributes;
        assert m.items[op.itemId := m.items[op.itemId]] == m.items;
      }
    }
  }

  // -------------------------------------------------------- all of them alike

  /** Memory and the file. */
  datatype Machine = Machine(memory: Memory, file: Image)

  datatype Event = Event(op: Op, chosen: Option<uint64>, diskTakesIt: bool)

  /** Whether the operation reports success when the disk does or does not take the file. */
  predicate Reports(schema: Schema, m: Memory, op: Op, chosen: Option<uint64>, diskTakesIt: bool) {
    Accepts(schema, m, op, chosen) && (Idle(m, op) || diskTakesIt)
  }

  /** One attempt at an operation. */
  ghost function Attempt(schema: Schema, accountId: uint32, s: Machine, op: Op, chosen: Option<uint64>, diskTakesIt: bool): Machine
    requires |s.memory.items| < USABLE
  {
    if !Accepts(schema, s.memory, op, chosen) || Idle(s.memory, op) then s
    else if !diskTakesIt then s.(memory := TakenBack(schema, s.memory, op))
    else
      var after := Performed(schema, s.memory, accountId, op, chosen);
      Machine(after, ImageOf(after))
  }

  /** The operation took the machine from one state to the other and reported `ok`. */
  ghost predicate Refines(schema: Schema, accountId: uint32, s: Machine, e: Event, ok: bool, s': Machine)
    requires |s.memory.items| < USABLE
  {
    && (ok <==> Reports(schema, s.memory, e.op, e.chosen, e.diskTakesIt))
    && s' == Attempt(schema, accountId, s, e.op, e.chosen, e.diskTakesIt)
  }

  lemma Declines(schema: Schema, accountId: uint32, s: Machine, e: Event)
    requires |s.memory.items| < USABLE && (Accepts(schema, s.memory, e.op, e.chosen) ==> Idle(s.memory, e.op))
    ensures Refines(schema, accountId, s, e, Accepts(schema, s.memory, e.op, e.chosen), s)
  {
  }

  lemma Saves(schema: Schema, accountId: uint32, s: Machine, e: Event, after: Memory)
    requires |s.memory.items| < USABLE && Accepts(schema, s.memory, e.op, e.chosen) && !Idle(s.memory, e.op)
    requires after == Performed(schema, s.memory, accountId, e.op, e.chosen)
    ensures Refines(schema, accountId, s, e, e.diskTakesIt,
              if e.diskTakesIt then Machine(after, ImageOf(after)) else s.(memory := TakenBack(schema, s.memory, e.op)))
  {
  }

  predicate InSync(s: Machine) {
    s.file == ImageOf(s.memory)
  }

  /** The save of an accepted change fails. */
  predicate SaveFails(schema: Schema, m: Memory, e: Event) {
    Accepts(schema, m, e.op, e.chosen) && !Idle(m, e.op) && !e.diskTakesIt
  }

  /** If a save fails, everything can be taken back. */
  predicate Recoverable(schema: Schema, m: Memory, e: Event) {
    SaveFails(schema, m, e) ==> TakesBackAll(schema, m, e.op)
  }

  ghost function After(schema: Schema, accountId: uint32, s: Machine, e: Event): Machine
    requires |s.memory.items| < USABLE
  {
    Attempt(schema, accountId, s, e.op, e.chosen, e.diskTakesIt)
  }

  /** A reported failure left everything as it was, if and only if what a failed save undoes can be undone. */
  lemma FailureChangesNothing(schema: Schema, accountId: uint32, s: Machine, e: Event)
    requires |s.memory.items| < USABLE && !Reports(schema, s.memory, e.op, e.chosen, e.diskTakesIt)
    ensures After(schema, accountId, s, e) == s <==> Recoverable(schema, s.memory, e)
  {
    UndoRestores(schema, s.memory, e.op);
  }

  /** A change that is reported is in the file, and one that is not reported did not happen. */
  lemma AttemptIsAtomic(schema: Schema, accountId: uint32, s: Machine, e: Event)
    requires |s.memory.items| < USABLE
    ensures var s' := After(schema, accountId, s, e);
      && (Reports(schema, s.memory, e.op, e.chosen, e.diskTakesIt) ==> s' == s || InSync(s'))
      && s'.file == (if s' == s || !Reports(schema, s.memory, e.op, e.chosen, e.diskTakesIt) then s.file else ImageOf(s'.memory))
      && (Recoverable(schema, s.memory, e) <==>
            (s' != s ==> Reports(schema, s.memory, e.op, e.chosen, e.diskTakesIt) && InSync(s')))
      && (Recoverable(schema, s.memory, e) && InSync(s) ==> InSync(s'))
  {
    UndoRestores(schema, s.memory, e.op);
  }

  /** On the attribute types the schema really has, kill counters are restored. */
  lemma NumberedCountersAreRestored(schema: Schema, accountId: uint32, s: Machine, id: uint64, amount: uint32)
    requires |s.memory.items| < USABLE && IsNumber(schema, ATTRIBUTE_KILL_EATER) && id in s.memory.items
    requires forall a <- s.memory.items[id].attributes :: a.defIndex == ATTRIBUTE_KILL_EATER ==> a.value.Number?
    ensures After(schema, accountId, s, Event(AddKills(id, amount), None, false)) == s
  {
    FailureChangesNothing(schema, accountId, s, Event(AddKills(id, amount), None, false));
  }

  /** A fractional counter is lost when the save fails. */
  lemma FractionalCounterIsNotRestored(schema: Schema, accountId: uint32, s: Machine, id: uint64, amount: uint32)
    requires |s.memory.items| < USABLE && id in s.memory.items
    requires ATTRIBUTE_KILL_EATER in schema.attributeTypes && schema.attributeTypes[ATTRIBUTE_KILL_EATER] == FloatType
    requires s.memory.items[id].attributes == [Attribute(ATTRIBUTE_KILL_EATER, Real(0.5))]
    ensures After(schema, accountId, s, Event(AddKills(id, amount), None, false)) != s
  {
    var e := Event(AddKills(id, amount), None, false);
    assert s.memory.items[id].attributes[0] == Attribute(ATTRIBUTE_KILL_EATER, Real(0.5));
    assert FindAttribute(s.memory.items[id].attributes, ATTRIBUTE_KILL_EATER) == 0;
    assert SaveFails(schema, s.memory, e) && !TakesBackAll(schema, s.memory, e.op);
    FailureChangesNothing(schema, accountId, s, e);
  }

  /** So is the time of a stats subscription that is used as a season pass. */
  lemma SubscriptionTimeIsLost(schema: Schema, accountId: uint32, s: Machine, id: uint64, now: uint32)
    requires |s.memory.items| < USABLE && Accepts(schema, s.memory, Use(id, now), None)
    requires s.memory.items[id].defIndex == ITEM_STATS_SUBSCRIPTION && s.memory.statsTimeInitiated != 0
    ensures var s' := After(schema, accountId, s, Event(Use(id, now), None, false));
      s' == s.(memory := s.memory.(statsTimeInitiated := 0)) && s' != s
  {
  }

  /** Every state of a run follows from the one before by one attempt, and what failed saves undo can be undone. */
  ghost predicate IsRun(schema: Schema, accountId: uint32, states: seq<Machine>, events: seq<Event>) {
    && |states| == |events| + 1
    && (forall i :: 0 <= i < |states| ==> |states[i].memory.items| < USABLE)
    && forall i :: 0 <= i < |events| ==>
         Recoverable(schema, states[i].memory, events[i]) && states[i + 1] == After(schema, accountId, states[i], events[i])
  }

  /** However saves fail along the way, restarting from the file loses nothing that was reported as done. */
  lemma {:induction false} RunStaysInSync(schema: Schema, accountId: uint32, states: seq<Machine>, events: seq<Event>, n: nat)
    requires IsRun(schema, accountId, states, events) && InSync(states[0]) && n <= |events|
    ensures InSync(states[n])
  {
    if n > 0 {
      hide After, InSync, Recoverable;
      RunStaysInSync(schema, accountId, states, events, n - 1);
      AttemptIsAtomic(schema, accountId, states[n - 1], events[n - 1]);
    }
  }
}
