# A verified model of the CS:GO Game Coordinator

An in-process coordinator answers the game client and the game server: it keeps the
player's inventory, publishes every change as versioned shared objects, saves state to
text files, runs the store, storage units and trade-up contracts, and talks to other
threads and machines. This project models those parts in Dafny 4.11 and proves what they
are for. `dafny verify dfyconfig.toml` checks all of it.

| file | models |
|---|---|
| `Prelude`, `Numbers` | integer widths, byte strings, decimal numbers, sorted names |
| `KeyValues`, `KeyValueRoundTrip`, `KeyValueLayout`, `KeyValueRecords` | the KeyValues parser and printer, how they undo each other, what a text says token by token, and how records and lists are read back |
| `LocalUserStats`, `StatsReload`, `StatsMeaning` | the stats store on top of that format, over all runs, and what it reads back |
| `Items`, `ItemSchema`, `ItemIds` | items, shared objects, a client's cache, schema tables, item ids |
| `Loadout`, `LoadoutTheorems`, `LoadoutMeaning` | equipping, its delta, and what it means slot by slot |
| `ServerView` | the filtered stream of shared objects for the game server |
| `InventoryState`, `Persisted`, `PersistedMeaning`, `Purchases`, `StorePurchase`, `TradeUp`, `Storage*`, `Sprays` | what each inventory operation makes of memory and file, and its theorems |
| `InventoryFile`, `InventoryReading`, `InventoryRestart` | the inventory file, and what of the inventory survives a restart |
| `Inventory`, `InventoryRuns` | the inventory class, and what every operation keeps |
| `InventoryPublishing`, `ClientGC` | the handlers, what they publish of each change, and the store transaction |
| `WorkerQueue`, `RconClients`, `RconFraming` | threads and the remote console |
| `Handshake` | the connect handshake and its retry budget |
| `ReadCalls` | the bounded cache of asynchronous reads |
| `LootLists`, `CaseOpening` | loot lists and the weighted choice of a rarity |

How it is modelled:

- State that the program updates in place is a class with those fields. Each method is
  proved against a function of the old state (`Step`, `Next`, `Performed`, ...), and the
  theorems are about those functions and their runs.
- The disk, the socket and the clock are inputs: a file is a value, writing it succeeds
  when `diskWorks`, time is a parameter. A random draw is any value in its range.
- Threads are step systems: each critical section is one step, and a run is any
  interleaving of steps.
- Wear, weights and draws are real numbers. `uint32` and `uint64` are bounded integers
  and wrap where the program lets them wrap (item ids, versions, kill counters, call ids).
- Results the program signals with item id 0 are an `Option`; account ids are taken to be
  non-zero, as Steam's are, so that no item has id 0.

Findings, each with the exact condition under which the promise holds:

- Printing and parsing are inverse exactly when siblings have different names and no
  string holds a quote or NUL (`PrintParseRoundTrip`, failing family in
  `SameNamedSiblingsMerge`).
- Whatever is read from a file is saved and read again unchanged exactly when nothing that
  is printed holds a NUL (`SavedParseReloads`).
- A reported failure leaves memory and file as they were exactly when no save failed after
  a kill counter that is not stored as a whole number was raised, or after a running stats
  subscription was used as a pass (`FailureChangesNothing`; failing inputs in
  `FractionalCounterIsNotRestored` and `SubscriptionTimeIsLost`).
- A restart restores the inventory exactly when every item is one of its kind, has one
  attribute for each definition and one slot for each class, floats of at most six decimals
  and no empty string, and is not a painted one of normal quality; when there is one stats
  subscription at most, with its time; and when no definition is a default for two classes,
  which the file holds under one name (`RestartRestoresExactlyWhen`, `WholeItemSurvives`).
- A string attribute with a quote followed by a letter, as a custom name can be, makes the
  whole file unreadable: the next start finds nothing and stops saving
  (`QuoteSpoilsTheFile`).
- What is published of a change brings the game up to date exactly when it is not one of
  three (`ChangeReaches`): that rewritten kill counter; a casket naming that fails because
  the schema lacks an attribute, which leaves attributes behind (`NamingReaches`); and the
  opening of a sealed graffiti, whose 50 uses are set after the spray has been published
  (`SprayIsUnheard`).
- `UnregisterClient` keeps its promise when it finds its own client registered or no other
  call on that client is waiting (`UnregisteredIsQuiet`); a second call at the same time
  returns while a command still uses the client (`SecondCallReturnsEarly`), and with one
  client in the process the promise holds exactly when the client is registered or the
  counter is zero (`QuietExactlyWhen`).
- Parsed loot lists can all be flattened exactly when no list that is kept names itself;
  for one that does the recursion has no end (`FlatteningEnds`).
- A rarity is drawn for as long an interval as it weighs exactly when the total before it
  is the highest so far and the one after it is not above the whole; with negative weights
  it can be shorter (`LengthIsWeight`, failing input in `NegativeWeightShortens`).
- The float filter of trade-ups keeps exactly the paint kits whose range is one
  (`WearFitsRange`).

## Model

| member | source | states |
|---|---|---|
| `LoadoutTheorems.DeltaReplaysToSnapshot` | csgo_gc/inventory.cpp:988-1132 | Main result: for every valid loadout and request the new loadout is valid, and replaying the published objects in order on the old snapshot gives the new snapshot |
| `LoadoutTheorems.RunReplaysToSnapshot` | csgo_gc/inventory.cpp:988-1132 | The same for every run of requests: a client that only sees deltas holds the inventory at the end |
| `LoadoutMeaning.EquipMeetsExpectation` | csgo_gc/inventory.cpp:988-1132 | For every holder, class and slot: who is in the slot after the request is given by an independent slot-by-slot rule, including swaps and untouched classes |
| `LoadoutMeaning.SoleHolder` | csgo_gc/inventory.cpp:3306-3358 | In a valid loadout a slot of a class has at most one holder, item or default definition |
| `LoadoutMeaning.SwapKeepsOtherClasses` | csgo_gc/inventory.cpp:1007-1059 | A swap leaves the definition where it is in every other class |
| `LoadoutMeaning.EquipLeavesItems` | csgo_gc/inventory.cpp:978-984 | Whatever is equipped no item comes or goes, and of each item only the slots change |
| `LoadoutMeaning.EquipLeavesAccounts` | csgo_gc/inventory.cpp:1061-1103 | A default entry that stays or moves keeps its account, and a new one has the account of the inventory and was there at most in the same slot |
| `LoadoutTheorems.VacateIsFaithful` | csgo_gc/inventory.cpp:3306-3358 | Emptying a slot keeps the loadout valid and its delta replays to the new snapshot |
| `LoadoutTheorems.UnequipDefaultIsFaithful` | csgo_gc/inventory.cpp:3262-3287 | Unequipping a definition keeps the loadout valid and its delta replays |
| `LoadoutTheorems.UnequipUniqueIsFaithful` | csgo_gc/inventory.cpp:3289-3303 | Unequipping an item for one class keeps the loadout valid and its delta replays |
| `LoadoutTheorems.EquipUniqueIsFaithful` | csgo_gc/inventory.cpp:1105-1131 | Equipping an item keeps the loadout valid and its delta replays |
| `LoadoutTheorems.EquipDefaultMovingItem` | csgo_gc/inventory.cpp:1022-1034 | A swap that moves an item to the vacated slot keeps the loadout valid and its delta replays |
| `LoadoutTheorems.EquipDefaultMovingDefault` | csgo_gc/inventory.cpp:1036-1103 | A swap that moves another default does too, because the old key is cleared before the moved default is published |
| `LoadoutTheorems.SlotForClassMeaning` | csgo_gc/inventory.cpp:946-957 | The slot found for a class is an entry of the item, and the only one when the item has one slot per class |
| `Items.ReplayJoin` | csgo_gc/gc_message_tests.cpp:1004-1033 | Replaying one list of objects after another is replaying both joined |
| `Inventory.Inventory.AdvanceVersion` | csgo_gc/inventory.cpp:191-198 | The version wraps around but is never zero |
| `Inventory.Inventory.AddToMultipleObjects` | csgo_gc/inventory.cpp:157-174 | Appends one object; the version advances once, for the first object of an update |
| `Inventory.Inventory.ToSingleObject` | csgo_gc/inventory.cpp:176-189 | One object under a new version |
| `Inventory.Inventory.RemoveEquippedClass` | csgo_gc/inventory.cpp:959-976 | Removes the entries of one class and says whether there were any |
| `Inventory.Inventory.SetEquippedStateForClass` | csgo_gc/inventory.cpp:978-984 | The class has the new slot and only that |
| `Inventory.Inventory.DropDefaults` | csgo_gc/inventory.cpp:1064-1078 | Erases the matching defaults in place and publishes each with definition 0, in order |
| `Inventory.Inventory.VacateItems` | csgo_gc/inventory.cpp:3310-3333 | No item is left in the slot; the one that was is published, in whatever order the map is walked |
| `Inventory.Inventory.UnequipSlotForClass` | csgo_gc/inventory.cpp:3306-3358 | Refines the vacating of a slot, with its delta |
| `Inventory.Inventory.UnequipItemForClass` | csgo_gc/inventory.cpp:3262-3303 | Refines the unequip request; false exactly when nothing changed |
| `Inventory.Inventory.SwapOut` | csgo_gc/inventory.cpp:1020-1059 | The occupant moves to the slot the definition leaves, or the slot is vacated |
| `Inventory.Inventory.PlaceDefault` | csgo_gc/inventory.cpp:1061-1103 | The old entry goes, the moved default is published before the definition, which ends up last |
| `Inventory.Inventory.EquipItem` | csgo_gc/inventory.cpp:988-1132 | Refines the equip request: loadout, ordered delta, result, and the version advancing once exactly if something is published |
| `ServerView.ServerFollowsInventory` | csgo_gc/gc_client.cpp:1427-1443 | After a cache request and any messages the server agrees with the game on equipped items and defaults, and the tracked ids are exactly the equipped ones |
| `ServerView.EquipRunReachesServer` | csgo_gc/gc_client.cpp:1530-1604 | End to end: after any run of equips the server mirror restricted to equipped items is the inventory restricted to equipped items |
| `ServerView.MessageKeepsStep` | csgo_gc/gc_client.cpp:1555-1591 | Every create, update, multi-update and destroy keeps server and inventory in step although unequipped updates are dropped |
| `ServerView.OnlyEquippedItemsAreSent` | csgo_gc/gc_client.cpp:1530-1553 | An item is sent exactly when it was equipped before or is equipped after |
| `ServerView.FilterMeaning` | csgo_gc/gc_client.cpp:1530-1591 | Exactly what the server is told, by what the game holds: an object unless it is an item that neither was nor is equipped, updates under their version with such objects in order, everything else as it is |
| `ServerView.RequestIsInStep` | csgo_gc/gc_client.cpp:1427-1443 | The answer to a cache request puts the server in step |
| `ClientGC.ClientGC.HandleSOCacheRequest` | csgo_gc/gc_client.cpp:1427-1443 | Posts the equipped items and the defaults, and tracks exactly the equipped ids |
| `ClientGC.ClientGC.GameServerItemDirty` | csgo_gc/gc_client.cpp:1530-1553 | Refines the decision and the tracked ids for one object |
| `ClientGC.ClientGC.FilterObjects` | csgo_gc/gc_client.cpp:1566-1574 | The loop over an update keeps exactly the dirty objects, in order |
| `ClientGC.ClientGC.SendMessageToGameServer` | csgo_gc/gc_client.cpp:1555-1591 | Posts the filtered message, or nothing when filtering leaves nothing |
| `ClientGC.ClientGC.SendMessageToGame` | csgo_gc/gc_client.cpp:1593-1604 | Posts to the game, and filtered to the game server when asked |
| `InventoryPublishing.ChangeReaches` | csgo_gc/gc_client.cpp:2011-3035 | Main result: whatever the inventory does, the messages its handler publishes turn the old inventory into the new one in the game cache, if and only if it is not one of the three unheard changes |
| `InventoryPublishing.EveryoneFollows` | csgo_gc/gc_client.cpp:1427-1604 | Main result: after a cache request and any run of heard changes of every kind, the game holds the inventory, the server its equipped items and defaults, and the tracked ids are those of the equipped items |
| `ClientGC.HandlingKeepsMirrored` | csgo_gc/gc_client.cpp:1555-1604 | Every handled change keeps the two posted streams, applied from the start, showing the inventory to the game and its equipped part to the server |
| `ClientGC.RequestMirrors` | csgo_gc/gc_client.cpp:1427-1443 | A cache request of the server brings its stream up to date, whatever it was sent before |
| `InventoryPublishing.EquipReaches` | csgo_gc/gc_client.cpp:2011-2033 | The one update of an equip request shows the new loadout; an unreported request changed nothing |
| `InventoryPublishing.PersistReaches` | csgo_gc/gc_client.cpp:2077-2236 | The messages of a saved operation show its outcome, if and only if it is not a failed save that rewrites a kill counter |
| `InventoryPublishing.OrderReaches` | csgo_gc/gc_client.cpp:2547-2592 | The creates of an order show everything bought, and an order that fails needs no message |
| `InventoryPublishing.TradeReaches` | csgo_gc/gc_client.cpp:2883-2892 | One destroy for each input and one create show the exchange |
| `InventoryPublishing.StorageReaches` | csgo_gc/gc_client.cpp:2955-2983 | The two updates of a deposit or withdrawal show it; a naming is shown if and only if it does not fail halfway |
| `InventoryPublishing.NamingReaches` | csgo_gc/inventory.cpp:2304-2321 | A failed naming goes unheard if and only if it added an attribute |
| `InventoryPublishing.SprayReaches` | csgo_gc/inventory.cpp:1184-1203 | The game hears of an opened graffiti as it was when it was equipped |
| `InventoryPublishing.SprayIsUnheard` | csgo_gc/inventory.cpp:1191-1197 | But never of its number of uses |
| `Sprays.SprayedIsValid` | csgo_gc/inventory.cpp:1184-1203 | Opening a graffiti keeps every slot at one occupant, although the copy starts with the slots of the original |
| `Sprays.SprayIsLast` | csgo_gc/inventory.cpp:1191-1192 | The new spray ends up in the graffiti slot and is published last |
| `Sprays.SprayedMeaning` | csgo_gc/inventory.cpp:1184-1203 | The sealed item is gone, a spray with its attributes and 50 uses is in the graffiti slot, and of the other items only the slots have changed |
| `Inventory.Inventory.UnsealSpray` | csgo_gc/inventory.cpp:1184-1203 | Refines the opening: copy, destroy, equip, then the number of uses, and nothing is saved |
| `ClientGC.ClientGC.AdjustItemEquippedState` | csgo_gc/gc_client.cpp:2011-2033 | Publishes exactly the update of a request that changed something |
| `ClientGC.ClientGC.UseItemRequest` | csgo_gc/gc_client.cpp:2077-2112 | Publishes the destroyed item, the changed or new one, the operation and the equips, in this order |
| `ClientGC.ClientGC.ClientRequestNewMission` | csgo_gc/gc_client.cpp:2114-2130 | Publishes the operation when another mission was selected |
| `ClientGC.ClientGC.ModifyItemAttribute` | csgo_gc/gc_client.cpp:2195-2213 | Publishes the item when the change was saved |
| `ClientGC.ClientGC.IncrementKillCountAttribute` | csgo_gc/gc_client.cpp:2215-2236 | Publishes the item when the change was saved |
| `ClientGC.ClientGC.RequestPrestigeCoin` | csgo_gc/gc_client.cpp:2329-2411 | Publishes the medal and the level of a claim; asking or being refused changes nothing |
| `ClientGC.ClientGC.DeleteItem` | csgo_gc/gc_client.cpp:2594-2614 | Publishes the removal of an item that was there |
| `ClientGC.ClientGC.Craft` | csgo_gc/gc_client.cpp:2790-2922 | Publishes the exchange of ten items under a trade-up recipe, otherwise changes nothing |
| `ClientGC.ClientGC.ProcessStorageDeposit` | csgo_gc/gc_client.cpp:2955-3005 | Publishes the item and the casket of a deposit that succeeded |
| `ClientGC.ClientGC.ProcessStorageWithdraw` | csgo_gc/gc_client.cpp:2955-3015 | Publishes the item and the casket of a withdrawal that succeeded |
| `ClientGC.ClientGC.NameItem` | csgo_gc/gc_client.cpp:2728-2757 | Publishes the casket that was named |
| `ItemIds.ProbeEnds` | csgo_gc/inventory.cpp:384-412 | With fewer items than usable ids the wrapping probe reaches a free one |
| `ItemIds.FreeIdExists` | csgo_gc/inventory.cpp:384-412 | Counting: fewer than 0xF0000000 items leave a usable id outside the default range |
| `ItemIds.FirstFreeIsUnique` | csgo_gc/inventory.cpp:384-412 | The place where the probe stops is determined by where it starts |
| `ItemIds.NextIdIsNewest` | csgo_gc/inventory.cpp:378-405 | Until the counter wraps, a new id is larger than every id there is |
| `InventoryState.NewIdIsFresh` | csgo_gc/inventory.cpp:369-413 | A new id is unused, outside the default range and carries the account |
| `InventoryState.CreateThenDestroy` | csgo_gc/inventory.cpp:415-436 | Taking a created item away again restores the items there were |
| `Inventory.Inventory.AllocateItem` | csgo_gc/inventory.cpp:369-413 | Terminates by the modular distance to the free id; adds one empty item under it, raises the counter, changes no other item |
| `Inventory.Inventory.CreateItem` | csgo_gc/inventory.cpp:431-436 | Adds one item of the definition under a fresh id |
| `Inventory.Inventory.DestroyItem` | csgo_gc/inventory.cpp:3360-3373 | Removes the item, ends a stats subscription with it, publishes its id |
| `Inventory.Inventory.RemoveItem` | csgo_gc/inventory.cpp:1134-1155 | False and nothing changed for an unknown item, otherwise destroys it |
| `InventoryRuns.RunKeepsValid` | csgo_gc/inventory.cpp:988-1132 | Over all runs of equips, persisted operations, opened graffiti, orders, removals, trade-ups and storage operations every slot keeps at most one occupant |
| `InventoryRuns.ChangeKeepsValid` | csgo_gc/inventory.cpp:369-436 | Every single operation keeps that, and every item under its own id |
| `Persisted.AttemptIsAtomic` | csgo_gc/inventory.cpp:296-367 | Main result: a reported change is in the file and an unreported one never is; that it did not happen in memory either holds if and only if a failed save can be undone |
| `Persisted.RunStaysInSync` | csgo_gc/inventory.cpp:705-799 | Over all runs in which failed saves can be undone, the file holds the image of memory whenever it did at the start |
| `Persisted.FailureChangesNothing` | csgo_gc/inventory.cpp:2225-2234 | A reported failure, refused or not saved, changed nothing if and only if the save did not fail or its undo steps restore everything |
| `Persisted.UndoRestores` | csgo_gc/inventory.cpp:2215-2234 | Which states the undo steps restore: kill counters stored as whole numbers, and no running stats subscription used as a pass |
| `Persisted.NumberedCountersAreRestored` | csgo_gc/inventory.cpp:2189-2235 | Kill counters stored as uint32 are always restored |
| `Persisted.FractionalCounterIsNotRestored` | csgo_gc/inventory.cpp:2215-2234 | A counter stored as the float 0.5 is not |
| `Persisted.SubscriptionTimeIsLost` | csgo_gc/inventory.cpp:1274-1290 | Nor is the time of a stats subscription that is used as a season pass |
| `Numbers.LeadingFormat` | csgo_gc/keyvalue.h:16-27 | The number read from the front of a printed number is the number |
| `Persisted.PlansAgree` | csgo_gc/inventory.cpp:257-294 | Which medal is granted does not depend on which of several equal medals is replaced |
| `Persisted.GrantedItems` | csgo_gc/inventory.cpp:318-362 | A claim can be taken back: created medals go, upgraded ones get their definition back |
| `Persisted.UsedPassCanReturn` | csgo_gc/inventory.cpp:1237-1291 | A season pass can be taken back with its coin and operation |
| `Persisted.StoredJournalCanGo` | csgo_gc/inventory.cpp:1293-1376 | A tournament pass or token can be taken back with its journal change |
| `PersistedMeaning.KillsGoUp` | csgo_gc/inventory.cpp:2189-2217 | A kill counter goes up by the amount modulo 2^32 and no other item changes |
| `PersistedMeaning.PassBuysCoin` | csgo_gc/inventory.cpp:1237-1279 | A season pass gives way to exactly one coin of its definition, opens its operation with all counts at zero, cannot be used again, and changes nothing else |
| `PersistedMeaning.GraffitiIsStored` | csgo_gc/inventory.cpp:2120-2187 | The chosen graffiti is what the journal reads, and nothing else changes |
| `PersistedMeaning.MissionIsSelected` | csgo_gc/inventory.cpp:1206-1235 | The operation has the selected mission, and nothing else changes |
| `PersistedMeaning.FavoriteIsMarked` | csgo_gc/inventory.cpp:801-837 | The event is a favorite or not as asked, and nothing else changes |
| `PersistedMeaning.ClaimNeedsLevel` | csgo_gc/inventory.cpp:296-311 | Only at level 40, for a medal of the year, replacing one of the year |
| `PersistedMeaning.BoughtArrives` | csgo_gc/inventory.cpp:3023-3045 | A bought item is what the schema makes of its definition, unequipped, of purchased origin and not yet acknowledged |
| `PersistedMeaning.PassBuysJournal` | csgo_gc/inventory.cpp:1309-1325 | A tournament pass gives way to exactly one journal with the included tokens |
| `PersistedMeaning.TokenCounts` | csgo_gc/inventory.cpp:1328-1356 | A token goes and its journal counts exactly one more |
| `PersistedMeaning.ClaimRaisesLevel` | csgo_gc/inventory.cpp:257-345 | A claim raises the medal level of the year by exactly one, and the player starts over at level 1 without experience |
| `PersistedMeaning.TopLevelHasNoPlan` | csgo_gc/inventory.cpp:283-291 | At the top level there is nothing left to claim |
| `PersistedMeaning.SetOrAddMeaning` | csgo_gc/inventory.cpp:82-106 | Writing an attribute makes it read as the number and leaves every other one as it was |
| `Inventory.Inventory.WriteToFile` | csgo_gc/inventory.cpp:705-799 | Writes a text that holds what memory holds, in whatever order the containers are walked, unless saving is disabled or the disk refuses, and then leaves the file |
| `Inventory.Inventory.WriteItem` | csgo_gc/inventory.cpp:839-864 | The keys of one item: its numbers, attributes and slots |
| `Inventory.Inventory.ReadFromFile` | csgo_gc/inventory.cpp:438-569 | Refines the reading of a file: a missing file changes nothing, an unusable one stops saving |
| `Inventory.Inventory.ReadItems` | csgo_gc/inventory.cpp:471-484 | Each item is allocated from the id it is filed under |
| `Inventory.Inventory.ReadItem` | csgo_gc/inventory.cpp:649-703 | Refines the reading of one item, with the migration of old names and qualities |
| `Inventory.Inventory.DeduplicateStatsSubscriptions` | csgo_gc/inventory.cpp:571-610 | Keeps exactly the newest stats subscription |
| `InventoryRestart.RestartRestoresExactlyWhen` | csgo_gc/inventory.cpp:438-799 | Main result: a restart from the text of the file restores the memory, all but the id counter, if and only if nothing in it is lost on the way; the counter is then at the highest id in use |
| `InventoryRestart.FileIsReadBack` | csgo_gc/inventory.cpp:438-799 | Main result: for every memory whose strings the format can hold, what is read of the printed file in any order is the surviving part, explicitly |
| `InventoryRestart.RestartLosesNothing` | csgo_gc/inventory.cpp:705-799 | Over all runs with failing saves a restart from the file saved last restores what the program holds, if and only if none of it is lost on the way |
| `InventoryRestart.AttemptSurvivesRestart` | csgo_gc/inventory.cpp:296-367 | After a reported change a restart gives the new contents under the same condition; an unreported one left the file as it was |
| `InventoryRestart.WholeItemSurvives` | csgo_gc/inventory.cpp:649-703 | Which items come back unchanged, exactly |
| `InventoryRestart.EquipsSurvive` | csgo_gc/inventory.cpp:540-553 | Default equips come back exactly if no definition is a default twice and all are of the account |
| `InventoryRestart.FloatsAreNear` | csgo_gc/item_schema.cpp:326-350 | A float comes back within half a millionth and stays as it is from then on |
| `InventoryRestart.QuoteSpoilsTheFile` | csgo_gc/inventory.cpp:438-456 | One string with a quote before a letter makes the saved file unreadable |
| `InventoryReading.ItemIsReadBack` | csgo_gc/inventory.cpp:649-703 | An item that is written and read is the surviving item |
| `InventoryReading.AttributesAreReadBack` | csgo_gc/inventory.cpp:663-674 | Of several attributes of a definition the last value comes back in the place of the first, with six decimals for floats; unknown and empty ones are gone |
| `InventoryReading.EquipsAreReadBack` | csgo_gc/inventory.cpp:540-553 | Of several default equips of a definition the class and slot of the last come back in the place of the first |
| `InventoryReading.AllItemsAreRead` | csgo_gc/inventory.cpp:471-484 | Every item is read under the id it had, in whatever order, and the counter ends at the highest |
| `Inventory.Inventory.SetEventFavorite` | csgo_gc/inventory.cpp:801-837 | Refines the atomic attempt; true without saving when nothing is to change |
| `Inventory.Inventory.SelectSeasonalMissionCard` | csgo_gc/inventory.cpp:1206-1235 | Refines the atomic attempt, with its output cleared on failure |
| `Inventory.Inventory.ModifyItemAttribute` | csgo_gc/inventory.cpp:2120-2187 | Refines the atomic attempt; only the graffiti of a tournament journal can be written |
| `Inventory.Inventory.IncrementKillCountAttribute` | csgo_gc/inventory.cpp:2189-2235 | Refines the attempt in wrapping uint32 arithmetic |
| `Inventory.Inventory.GetPrestigeMedalPlan` | csgo_gc/inventory.cpp:257-294 | A plan as specified, or none exactly when there is none |
| `Inventory.Inventory.ClaimPrestigeMedal` | csgo_gc/inventory.cpp:296-367 | Refines the atomic attempt, with the messages of a claim; refused claims had no plan |
| `Inventory.Inventory.UseItem` | csgo_gc/inventory.cpp:1157-1204 | Refines the atomic attempt for passes and tokens and the opening of a graffiti, with its messages |
| `Inventory.Inventory.ActivateSeasonPass` | csgo_gc/inventory.cpp:1237-1291 | Coin and operation appear and the pass goes, or nothing |
| `Inventory.Inventory.ActivateTournamentAccess` | csgo_gc/inventory.cpp:1293-1376 | The journal is created or gets a token and the item goes, or nothing |
| `StorageTheorems.RunKeepsConsistent` | csgo_gc/inventory.cpp:2756-2899 | Main result: over all runs of deposits, withdrawals and casket naming each casket counts exactly the items that refer to it, between 0 and 1000, or was never named and holds nothing; stored items are unequipped non-caskets |
| `StorageTheorems.RunCounts` | csgo_gc/inventory.cpp:2304-2321 | Over all runs, the caskets without a counter are exactly those that had none and were not named |
| `StorageTheorems.UncountedIsRefused` | csgo_gc/inventory.cpp:2756-2768 | A casket that has no counter yet takes nothing |
| `StorageTheorems.StepKeepsConsistent` | csgo_gc/inventory.cpp:2793-2899 | Each single operation keeps that |
| `StorageTheorems.DepositThenWithdraw` | csgo_gc/inventory.cpp:2793-2899 | Into a casket with a counter and room, depositing and withdrawing succeed and restore the attribute list and the contents |
| `StorageTheorems.DepositSucceeds` | csgo_gc/inventory.cpp:2793-2851 | When a deposit is accepted: exactly when the item is not stored and the casket has a counter and is not full |
| `StorageTheorems.WithdrawSucceeds` | csgo_gc/inventory.cpp:2853-2899 | A withdrawal succeeds exactly for items stored in that casket |
| `StorageTheorems.NamingKeepsConsistent` | csgo_gc/inventory.cpp:2304-2321 | A named casket has a counter with the number of its items, whether it had one before or not, and every reference is kept |
| `StorageMeaning.StepLeavesItems` | csgo_gc/inventory.cpp:2793-2899 | No item comes or goes, and only the item and the casket of the operation change, in their attributes and by being unequipped |
| `StorageMeaning.CountedLeavesRest` | csgo_gc/inventory.cpp:2756-2791 | Counting changes the counter and the date alone |
| `StorageMeaning.NamedLeavesRest` | csgo_gc/inventory.cpp:2304-2321 | Naming changes the name, the counter and the date alone |
| `StorageMeaning.CountedIsDated` | csgo_gc/inventory.cpp:2756-2791 | The date of a casket that has one is that of the operation |
| `StorageMeaning.NamedReads` | csgo_gc/inventory.cpp:2323-2392 | A named casket is dated and goes by the name it was given, or by none |
| `StorageMeaning.DepositFails` | csgo_gc/inventory.cpp:2793-2851 | Why a deposit fails, each reason with its result |
| `StorageMeaning.WithdrawFails` | csgo_gc/inventory.cpp:2853-2899 | Why a withdrawal fails |
| `StorageCheck.StorageReference` | csgo_gc/inventory.cpp:2518-2543 | The last low and the last high attribute together, or nothing |
| `StorageCheck.StripStorageReference` | csgo_gc/inventory.cpp:2504-2516 | Deletes every reference attribute and no other |
| `StorageCheck.EmbedStorageReference` | csgo_gc/inventory.cpp:2488-2502 | Exactly one reference, to the casket, and nothing equipped |
| `StorageCheck.ModifyStorageCounter` | csgo_gc/inventory.cpp:2756-2791 | Counts up or down within 0 to 1000, or changes nothing |
| `StorageCheck.LogCasketConsistency` | csgo_gc/inventory.cpp:2545-2754 | Finds one issue for each casket without a counter, and others exactly when the references and counts disagree |
| `StorageCheck.RunPassesCheck` | csgo_gc/inventory.cpp:2545-2754 | After any run from a consistent inventory the check finds exactly the caskets that had no counter and were not named |
| `Inventory.Inventory.DepositItemToStorage` | csgo_gc/inventory.cpp:2793-2851 | Refines the deposit with its result and messages; every failure changes nothing |
| `Inventory.Inventory.WithdrawItemFromStorage` | csgo_gc/inventory.cpp:2853-2899 | Refines the withdrawal with its result and messages |
| `Inventory.Inventory.NameCasket` | csgo_gc/inventory.cpp:2323-2392 | Refines the casket branch of naming, and what it leaves behind when the schema lacks an attribute |
| `Purchases.BuyAllAdds` | csgo_gc/gc_client.cpp:2547-2570 | Buying adds exactly one fresh item per ordered definition, in order, and changes no other item |
| `Purchases.OrderSucceeds` | csgo_gc/inventory.cpp:3023-3036 | An order goes through exactly when it does not ask for a stats subscription that is owned already |
| `Purchases.FailedOrderIsUndone` | csgo_gc/gc_client.cpp:2555-2567 | A failed order is undone: items and subscription time are what they were |
| `Purchases.SubscriptionBegins` | csgo_gc/inventory.cpp:3023-3057 | Buying a stats subscription starts and announces it, and no other purchase does |
| `Purchases.PurchasesReachClient` | csgo_gc/gc_client.cpp:2572-2577 | The published creates bring a client up to date |
| `StorePurchase.FinalizeSettles` | csgo_gc/gc_client.cpp:2519-2592 | Main result: finalizing adds exactly the ordered quantities or restores the previous state, and either way nothing is pending after |
| `StorePurchase.RunStaysSound` | csgo_gc/gc_client.cpp:2450-2592 | Over all runs line items are pending exactly when a transaction is, and they total at most 1024 |
| `StorePurchase.NotFinalizedTwice` | csgo_gc/gc_client.cpp:2519-2592 | Over all runs a finalized id is refused and changes nothing until an order is registered under it again |
| `StorePurchase.PendingStaysPending` | csgo_gc/gc_client.cpp:2529-2537 | Wrong ids and further orders leave the pending transaction as it is |
| `StorePurchase.ExpandedOrder` | csgo_gc/gc_client.cpp:2549-2551 | The items to create are the ordered quantities, definition by definition |
| `StorePurchase.VettedIsOrderable` | csgo_gc/gc_client.cpp:2473-2490 | A vetted order has creatable items only and at most one stats subscription |
| `Inventory.Inventory.PurchaseItem` | csgo_gc/inventory.cpp:3023-3057 | Creates the item and starts the subscription, or fails without a change |
| `ClientGC.ClientGC.VetOrder` | csgo_gc/gc_client.cpp:2468-2494 | The loop accepts exactly the orders within the limits |
| `ClientGC.ClientGC.StorePurchaseInit` | csgo_gc/gc_client.cpp:2450-2517 | Registers an acceptable order under a non-zero id when none is pending |
| `ClientGC.ClientGC.StorePurchaseFinalize` | csgo_gc/gc_client.cpp:2519-2592 | Refines the finalization, with item ids and published creates in both streams; a refused or failed one publishes nothing |
| `ClientGC.ClientGC.Publish` | csgo_gc/gc_client.cpp:2572-2577 | Publishes every new object to the game, and filtered to the game server |
| `TradeUp.ExchangesTenForOne` | csgo_gc/inventory.cpp:3633-3688 | Main result: exactly the ten distinct inputs go, one fresh item comes, nothing else changes |
| `TradeUp.OutputMeaning` | csgo_gc/inventory.cpp:3559-3631 | The output has the next rarity, comes from a collection of an input and is worn within its paint kit range |
| `TradeUp.OutputWear` | csgo_gc/inventory.cpp:3618-3672 | Main result: the wear read from the output lies as far into the range of its kit as the inputs are worn on average, for inputs of any wear |
| `TradeUp.OutputWearWithin` | csgo_gc/inventory.cpp:3618-3672 | So it is worn neither less nor more than the inputs on the scale of its kit |
| `TradeUp.OutputArrives` | csgo_gc/inventory.cpp:3633-3660 | The output arrives unequipped and not yet acknowledged, strange only under StatTrak |
| `TradeUp.TradableMeaning` | csgo_gc/inventory.cpp:3438-3530 | Which items can be traded up, with their rarity, collection and StatTrak |
| `TradeUp.OutputIsInput` | csgo_gc/inventory.cpp:3438-3542 | Closure: an output that is not ancient passes the input checks again, with its rarity and StatTrak |
| `TradeUp.WeightsAreCounts` | csgo_gc/inventory.cpp:3559-3582 | Each collection has as many places in the draw as there are inputs from it |
| `TradeUp.WearFitsRange` | csgo_gc/inventory.cpp:3610-3622 | The float filter keeps exactly the kits whose minimum is not above their maximum |
| `TradeUp.RecipeTellsContract` | csgo_gc/inventory.cpp:3690-3691 | The recipe index determines input rarity and StatTrak |
| `TradeUp.ContractMeaning` | csgo_gc/inventory.cpp:3438-3556 | A contract is accepted exactly for ten fit inputs; its rarity and StatTrak are those of every input |
| `TradeUp.InspectItem` | csgo_gc/inventory.cpp:3438-3530 | Refines the checks on one input |
| `TradeUp.CheckInputs` | csgo_gc/inventory.cpp:3381-3548 | Refines the loop over all inputs |
| `TradeUp.WeighCollections` | csgo_gc/inventory.cpp:3559-3582 | Refines the weighting, false exactly when a collection has nothing of the next rarity |
| `TradeUp.DrawOutput` | csgo_gc/inventory.cpp:3590-3631 | Draws a place and one of the candidates left there |
| `TradeUp.DrawTrade` | csgo_gc/inventory.cpp:3375-3631 | No draw only when some input collection has no candidate with a wear range |
| `Inventory.Inventory.TradeUp` | csgo_gc/inventory.cpp:3375-3707 | False leaves memory and outputs alone; true has made the drawn exchange and published it |
| `Inventory.Inventory.DestroyAll` | csgo_gc/inventory.cpp:3680-3685 | Destroys the inputs in order, one message each |
| `ItemSchema.GetCollections` | csgo_gc/item_schema.cpp:1713-1773 | Finds exactly the collections that hold the painted item, or the paint kit on any item |
| `ItemSchema.GetTradeUpCandidates` | csgo_gc/item_schema.cpp:1791-1822 | Finds exactly the paintable entries of the rarity, in order |
| `KeyValueRoundTrip.PrintParseRoundTrip` | csgo_gc/keyvalue.cpp:351-476 | Main result: for every tree, parsing what is printed gives the printed part of the tree if and only if siblings differ in name and no string has a quote or NUL |
| `KeyValueRoundTrip.PrintedTreeReloads` | csgo_gc/keyvalue.cpp:430-476 | A tree without a quote in what is printed always parses again, with same-named siblings merged as the parser merges them |
| `KeyValueRoundTrip.SavedParseReloads` | csgo_gc/keyvalue.cpp:205-312 | Whatever text was parsed, saving and loading it again gives what is printed if and only if that holds no NUL; a text without NULs gives none |
| `KeyValueRoundTrip.ParsedTreeIsTidy` | csgo_gc/keyvalue.cpp:351-428 | A tree parsed from any text has different names among siblings and no quote, and NULs only from the text |
| `KeyValueRoundTrip.SameNamedSiblingsMerge` | csgo_gc/keyvalue.cpp:417-428 | The failing family: the second of two same-named leaves replaces the first |
| `KeyValueRoundTrip.SpoiledTreeIsUnreadable` | csgo_gc/keyvalue.cpp:351-428 | One string with a quote before a character that begins no token makes the whole printed text unreadable |
| `KeyValueLayout.LayoutDoesNotMatter` | csgo_gc/keyvalue.cpp:34-131 | Main result: any two texts of the same tokens, with blanks and comments anywhere between them, say the same, told from the tokens alone |
| `KeyValueLayout.TokensAreParsed` | csgo_gc/keyvalue.cpp:351-428 | The parser makes of a text what its tokens say, and refuses what does not fit |
| `KeyValueLayout.PrintedLeaf` | csgo_gc/keyvalue.cpp:430-476 | How a string is printed, byte for byte |
| `KeyValueLayout.PrintedBranch` | csgo_gc/keyvalue.cpp:430-476 | How subkeys are printed |
| `KeyValueRecords.FoundAgain` | csgo_gc/keyvalue.cpp:351-428 | What is written under a name of its own is found under it again |
| `KeyValueRecords.ListIsReadBack` | csgo_gc/keyvalue.cpp:417-428 | A list under numbers is read back with the last entry for each in the place of the first |
| `KeyValueRecords.LastCounts` | csgo_gc/keyvalue.cpp:417-428 | The last entry for a number is what is found |
| `KeyValueRecords.NothingTwice` | csgo_gc/keyvalue.cpp:417-428 | A list comes back unchanged if and only if no number comes twice |
| `KeyValueRoundTrip.PrintedStart` | csgo_gc/keyvalue.cpp:205-235 | Printed text never looks like a byte-order mark and is empty only for an empty tree |
| `KeyValues.UntilQuoteUnique` | csgo_gc/keyvalue.cpp:34-131 | A quoted string ends at its first quote |
| `KeyValues.KeyValueParser.NextToken` | csgo_gc/keyvalue.cpp:34-131 | Moves to the next token, past blanks and comments, never past the end |
| `KeyValues.KeyValueParser.ParseString` | csgo_gc/keyvalue.cpp:34-131 | Reads a quoted string, or fails at the end of the text |
| `KeyValues.KeyValueParser.NextEntry` | csgo_gc/keyvalue.cpp:351-415 | Refines the reading of one entry |
| `KeyValues.KeyValueParser.Parse` | csgo_gc/keyvalue.cpp:351-415 | Terminates on every text and refines the parse of a tree |
| `KeyValues.OutputFile.Write` | csgo_gc/keyvalue.cpp:430-476 | Writes exactly the printed text |
| `KeyValues.KeyValue.ParseFromFileDetailed` | csgo_gc/keyvalue.cpp:205-235 | Tells the four failures apart, and leaves the target unchanged unless it succeeds |
| `StatsReload.EveryReachableStateReloads` | csgo_gc/local_user_stats.cpp:91-333 | Main result: after any run of loads, sets, clears, resets and saves, a successful save loads back as the same stats and achievements |
| `StatsReload.SaveThenLoad` | csgo_gc/local_user_stats.cpp:91-317 | Loading a saved file into any store restores integers, float bits and achievements exactly |
| `StatsReload.RunKeepsValid` | csgo_gc/local_user_stats.cpp:207-333 | Over all runs names stay serializable, integer and float names disjoint, pending unlocks unlocked |
| `StatsReload.UnlocksAreReportedOnce` | csgo_gc/local_user_stats.cpp:239-317 | Over all runs every unlock is reported by exactly one save, is still pending, or was taken back first |
| `StatsReload.SavedTreeIsClean` | csgo_gc/local_user_stats.cpp:23-38 | The name check is what makes every saved tree reload |
| `StatsMeaning.ReadsWhatWasSet` | csgo_gc/local_user_stats.cpp:185-264 | Main result: over every run a stat reads as the last value set for it since the last load or reset, or what that load held, 0 without one, and not under a name of the other kind; an achievement reads as its first unlock |
| `StatsMeaning.AcceptedWhenAcceptable` | csgo_gc/local_user_stats.cpp:185-333 | Over every run exactly the calls are accepted that the earlier calls allow |
| `StatsMeaning.SetThenRead` | csgo_gc/local_user_stats.cpp:185-225 | An accepted value is what is read next, and no other name reads differently |
| `LocalUserStats.Store.Load` | csgo_gc/local_user_stats.cpp:91-178 | Refines loading: the result, and no change on failure |
| `LocalUserStats.Store.GetIntegerStat` | csgo_gc/local_user_stats.cpp:185-194 | Reads the integer, 0 when it was never set |
| `LocalUserStats.Store.GetFloatStat` | csgo_gc/local_user_stats.cpp:196-205 | Reads the float bits, 0 when they were never set |
| `LocalUserStats.Store.GetAchievement` | csgo_gc/local_user_stats.cpp:227-237 | Reads whether and when it was unlocked |
| `LocalUserStats.Store.SetIntegerStat` | csgo_gc/local_user_stats.cpp:207-215 | Refines setting an integer stat |
| `LocalUserStats.Store.SetFloatStat` | csgo_gc/local_user_stats.cpp:217-225 | Refines setting a float stat |
| `LocalUserStats.Store.SetAchievement` | csgo_gc/local_user_stats.cpp:239-252 | Refines unlocking, pending only the first time |
| `LocalUserStats.Store.ClearAchievement` | csgo_gc/local_user_stats.cpp:254-264 | Refines clearing |
| `LocalUserStats.Store.ResetAllStats` | csgo_gc/local_user_stats.cpp:319-333 | Refines resetting |
| `LocalUserStats.Store.Save` | csgo_gc/local_user_stats.cpp:266-317 | Reports exactly the pending unlocks in order; a failed save keeps them pending |
| `Numbers.ParseFormatInt32` | csgo_gc/local_user_stats.cpp:41-51 | A printed int32 parses back |
| `Numbers.ParseFormatUint32` | csgo_gc/local_user_stats.cpp:41-51 | A printed uint32 parses back |
| `Numbers.FixedReadsBack` | csgo_gc/item_schema.cpp:326-350 | A float printed with six decimals reads as the number rounded to them |
| `Numbers.SixDecimalsMeaning` | csgo_gc/item_schema.cpp:326-350 | That is within half a millionth, and the number itself exactly if it has no further decimals |
| `Numbers.SortNames` | csgo_gc/local_user_stats.cpp:54-65 | The names in increasing order, each once |
| `WorkerQueue.EveryInterleaving` | csgo_gc/gc_shared.cpp:9-79 | Main result: in every interleaving events are handled once in posting order, the worker exits only when asked and drained, and never sleeps on work without a notification in flight |
| `WorkerQueue.EverythingGetsHandled` | csgo_gc/gc_shared.cpp:20-79 | No wake-up is lost: once posting stops, at most a bounded number of steps remain, and when none is left everything is handled |
| `WorkerQueue.StepKeepsInvariant` | csgo_gc/gc_shared.cpp:20-79 | Every step keeps the invariant, although a post notifies only on the empty queue |
| `WorkerQueue.SharedGC.PostToGC` | csgo_gc/gc_shared.cpp:58-79 | One critical section: appends, and owes a notification exactly if the queue was empty |
| `WorkerQueue.SharedGC.WaitForEvents` | csgo_gc/gc_shared.cpp:24-40 | One critical section of the worker: sleep, exit or take the whole queue |
| `WorkerQueue.SharedGC.StopThread` | csgo_gc/gc_shared.cpp:9-18 | Asks the worker to stop |
| `WorkerQueue.SharedGC.GetHostEvents` | csgo_gc/gc_shared.cpp:51-56 | Takes everything posted to the host since the last time |
| `RconFraming.SameForEveryCut` | csgo_gc/rcon_server.cpp:493-539 | Main result: however a stream is cut, the same packets are handled with the same outcome, and less than one largest packet is left over |
| `RconFraming.ChunksDoNotMatter` | csgo_gc/rcon_server.cpp:470-488 | Handling chunk by chunk is handling the whole stream at once |
| `RconFraming.StreamIsHandled` | csgo_gc/rcon_server.cpp:493-574 | Packets encoded into one stream are handled one by one whatever the chunks |
| `RconFraming.EveryStreamInOrder` | csgo_gc/rcon_server.cpp:541-574 | Main result: for every stream only commands after a successful authentication are executed, once each and in order, and exactly the expected answers are sent, each with its id, kind and body, up to where the socket fails |
| `RconFraming.FramedBack` | csgo_gc/rcon_server.cpp:131-147 | What is sent is framed back as one packet, cut at a NUL or at the largest size |
| `RconFraming.FramedUnchanged` | csgo_gc/rcon_server.cpp:131-147 | It is framed back unchanged if and only if its body has no NUL and at most 4086 bytes |
| `RconFraming.FrontIsStable` | csgo_gc/rcon_server.cpp:495-531 | A decision about the front of the buffer is not changed by later bytes |
| `RconFraming.IncompleteIsShort` | csgo_gc/rcon_server.cpp:495-507 | An incomplete packet leaves fewer than 4100 bytes |
| `RconFraming.ReadsBack` | csgo_gc/rcon_server.cpp:85-102 | Writing and reading a little-endian int32 are inverse |
| `RconFraming.OnTheWire` | csgo_gc/rcon_server.cpp:131-147 | Two packets byte for byte: size, id and kind from the low byte on |
| `RconFraming.ConnectionHandler.HandlePacketBuffer` | csgo_gc/rcon_server.cpp:493-539 | Refines the loop over complete packets |
| `RconFraming.ConnectionHandler.HandlePacket` | csgo_gc/rcon_server.cpp:541-574 | Refines authentication and command handling |
| `RconFraming.ConnectionHandler.PacketBytes` | csgo_gc/rcon_server.cpp:131-147 | Produces exactly the encoded packet |
| `RconClients.UnregisteredIsQuiet` | csgo_gc/rcon_server.cpp:271-287 | Main result: after a call of UnregisterClient has returned no command scope holds the client or obtains it, in any interleaving, until it is registered again, provided it was registered at the call or no other call on it was waiting |
| `RconClients.RunKeepsAccounted` | csgo_gc/rcon_server.cpp:156-184 | In every run, a client some scope holds is the registered one or is waited for |
| `RconClients.SecondCallReturnsEarly` | csgo_gc/rcon_server.cpp:279-287 | The failing run: a second call for the same client returns at once while a command still uses it |
| `RconClients.QuietExactlyWhen` | csgo_gc/rcon_server.cpp:279-287 | With one client in the process, a call keeps the promise if and only if it finds the client registered or the counter at zero |
| `RconClients.RunKeepsInvariant` | csgo_gc/rcon_server.cpp:153-184 | The counter is the number of live scopes that hold a client |
| `RconClients.NoWaiterIsForgotten` | csgo_gc/rcon_server.cpp:174-177 | When the last command has ended, a waiting thread is awake and returns |
| `RconClients.RconServer.OpenCommand` | csgo_gc/rcon_server.cpp:156-164 | Refines opening a command scope |
| `RconClients.RconServer.CloseCommand` | csgo_gc/rcon_server.cpp:166-177 | Refines closing it |
| `RconClients.RconServer.UnregisterClient` | csgo_gc/rcon_server.cpp:279-287 | Refines the first look of unregistering |
| `Handshake.SendsAreBounded` | csgo_gc/networking_server.cpp:97-293 | Main result: in every run connect messages to a peer number at most six per connect and per loss of an acknowledged session, and attempts never exceed six |
| `Handshake.TimerSpansAMinute` | csgo_gc/networking_server.cpp:97-149 | Left to the timer, the sixth message comes at least 60 seconds after the connect |
| `Handshake.SilentPeerIsTriedSixTimes` | csgo_gc/networking_server.cpp:97-149 | Main result: in every run, a peer that stays silent under updates at most g seconds apart is sent each message by its time, and all six once an update comes 60 + 4g seconds after the connect |
| `Handshake.LostPeerIsTriedSixTimes` | csgo_gc/networking_server.cpp:272-293 | The same for a peer whose acknowledged session is lost, from the first update after the loss on |
| `Handshake.RequestIsAnsweredAtOnce` | csgo_gc/networking_server.cpp:244-270 | In every run an unanswered peer that asks for a session is sent one of its six messages at once |
| `Handshake.QuietAfterCache` | csgo_gc/networking_server.cpp:54-72 | In every run, once the cache of a peer has come it is sent nothing until it connects anew or its session is lost |
| `Handshake.MessagesAreCurrent` | csgo_gc/networking_server.cpp:97-293 | In every run, a step sends a peer at most one message, only while it is connected, and with the ticket of its last connect |
| `Handshake.SessionsAreConnected` | csgo_gc/networking_server.cpp:151-200 | In every run the sessions are exactly the peers that connected and have not disconnected, each with its last ticket |
| `Handshake.NoRetryOnceAcknowledged` | csgo_gc/networking_server.cpp:137-149 | Nothing is retried while the cache is there or the attempts are used up |
| `Handshake.ViewNext` | csgo_gc/networking_server.cpp:137-293 | An event changes the peers it concerns and no other |
| `Handshake.ConnectRetryDelay` | csgo_gc/networking_server.cpp:13-23 | The doubling loop computes the delay |
| `Handshake.SentAgainIn` | csgo_gc/networking_server.cpp:13-23 | After the n-th message the next is due in min(2^n, 30) seconds |
| `Handshake.NetworkingServer.SendConnectMessage` | csgo_gc/networking_server.cpp:97-135 | Sends the ticket and schedules the next attempt |
| `Handshake.NetworkingServer.UpdateSessions` | csgo_gc/networking_server.cpp:137-149 | Every peer takes its turn, in whatever order |
| `Handshake.NetworkingServer.ClientConnected` | csgo_gc/networking_server.cpp:151-178 | Refines a connect, with a fresh budget |
| `Handshake.NetworkingServer.HandleSessionRequest` | csgo_gc/networking_server.cpp:244-270 | Refines a session request |
| `Handshake.NetworkingServer.HandleSessionFailed` | csgo_gc/networking_server.cpp:272-293 | Refines the loss of a session |
| `ReadCalls.RunKeepsValid` | csgo_gc/saved_item_shuffles.cpp:72-108 | Main result: in runs of fewer than 2^32 reads the map has exactly the queued calls, the byte count is their sum, within 16 calls and the size limit, oldest first |
| `ReadCalls.KeepsWithinLimits` | csgo_gc/saved_item_shuffles.cpp:89-108 | In every run no more than 16 results are kept, of 100 megabytes at most |
| `ReadCalls.CompletedIsTheSlice` | csgo_gc/saved_item_shuffles.cpp:460-607 | A completed call hands over exactly the part of the file that was there when the call was made, and it fits the buffer |
| `ReadCalls.EvictsAsLittleAsPossible` | csgo_gc/saved_item_shuffles.cpp:89-108 | Eviction takes the oldest results and no more than it must |
| `ReadCalls.NothingIsHandedOverTwice` | csgo_gc/saved_item_shuffles.cpp:536-607 | A call that is gone, fetched or evicted, stays gone |
| `ReadCalls.SavedReads.StoreReadCall` | csgo_gc/saved_item_shuffles.cpp:89-108 | Refines the eviction loop and the append |
| `ReadCalls.SavedReads.EraseReadCall` | csgo_gc/saved_item_shuffles.cpp:72-87 | Refines taking one call out of map, queue and byte count |
| `ReadCalls.SavedReads.MakeReadCall` | csgo_gc/saved_item_shuffles.cpp:460-529 | Captures the slice of the file under the next call id |
| `ReadCalls.SavedReads.GetReadCallResult` | csgo_gc/saved_item_shuffles.cpp:536-579 | Tells how a read went, and forgets it if it went wrong |
| `ReadCalls.SavedReads.CompleteReadCall` | csgo_gc/saved_item_shuffles.cpp:581-607 | Hands the bytes over once, when the buffer is large enough |
| `LootLists.FlattenedMeaning` | csgo_gc/case_opening.cpp:14-29 | Main result: flattening collects exactly the items of the lists that can be reached through sublists |
| `LootLists.KeyKeepsOrder` | csgo_gc/item_schema.cpp:1276-1375 | A parsed list points only at lists before it if and only if it does not name itself |
| `LootLists.KeysKeepOrder` | csgo_gc/item_schema.cpp:1276-1375 | After parsing any lists sublists come before the lists that contain them if and only if no list that is kept names itself |
| `LootLists.FlatteningEnds` | csgo_gc/case_opening.cpp:14-29 | Every parsed list can be flattened within some depth if and only if no list that is kept names itself |
| `LootLists.SelfNeverEnds` | csgo_gc/case_opening.cpp:14-29 | A list that contains itself cannot be flattened within any depth |
| `LootLists.OrderedEnds` | csgo_gc/case_opening.cpp:14-29 | Where sublists come first, flattening ends within one level more than the place of the list |
| `LootLists.ParseLootLists` | csgo_gc/item_schema.cpp:1276-1375 | Refines the loops of the parser |
| `LootLists.KeyMeaning` | csgo_gc/item_schema.cpp:1276-1375 | A list whose name is new gets exactly the items, sublists and StatTrak flag its entries bring; one whose name is taken is ignored |
| `LootLists.GetLootListItems` | csgo_gc/case_opening.cpp:14-29 | Terminates on ordered lists and refines the flattening |
| `CaseOpening.ChosenInterval` | csgo_gc/case_opening.cpp:99-140 | Main result: for weights of any sign, a rarity of a sorted list is chosen by exactly the draws of one half-open interval, from the highest total of the lower rarities up to its own |
| `CaseOpening.PickedInterval` | csgo_gc/case_opening.cpp:125-137 | The loop picks a weight for exactly the values from the highest running total before it to its own running total |
| `CaseOpening.LengthIsWeight` | csgo_gc/case_opening.cpp:99-140 | That interval is as long as a positive weight if and only if the total before it is the highest so far and the one after it is not above the whole |
| `CaseOpening.WeightsAreShares` | csgo_gc/case_opening.cpp:99-140 | When no weight is negative every rarity has exactly the share it weighs |
| `CaseOpening.NegativeWeightShortens` | csgo_gc/case_opening.cpp:99-140 | The failing input: behind the weights 3 and -1 a weight of 2 is drawn for an interval of length 1 |
| `CaseOpening.CanComeUp` | csgo_gc/case_opening.cpp:99-140 | A rarity can be drawn if and only if its interval is not empty |
| `CaseOpening.WeightsMeaning` | csgo_gc/case_opening.cpp:107-123 | The gathered rarities are increasing and exactly those of the items |
| `CaseOpening.ItemsAreWeighted` | csgo_gc/item_schema.cpp:112-120 | An unusual item is drawn with the weight configured for rarity 99, every other one with that of its own rarity |
| `CaseOpening.FindRarityRange` | csgo_gc/case_opening.cpp:70-82 | The range holds exactly the items of the rarity, and is empty only if there are none |
| `CaseOpening.GatherWeights` | csgo_gc/case_opening.cpp:99-123 | Refines the loop that skips duplicate rarities and totals the weights |
| `CaseOpening.RandomRarityForItems` | csgo_gc/case_opening.cpp:99-140 | Gives the rarity of the draw, which some item has, or 0 when the draw has none; with a positive total it always has one |
| `CaseOpening.SelectLootListItem` | csgo_gc/case_opening.cpp:84-97 | With a positive total an item of the chosen rarity comes out, which is 99 for unusual ones; nothing only when no item has the rarity |
| `CaseOpening.SelectItemFromCrate` | csgo_gc/case_opening.cpp:35-67 | What comes out is an item of the flattened list, and something comes out when its rarities have a positive total |

## Left out

- Inventory.Inventory.NameCasket: naming with a name tag is not modelled, because it changes one attribute only.
- Inventory.Inventory.CreateItem: what a definition creates is a table; generated attributes, coupons and their random draws are not modelled.
- Inventory.Inventory.EquipItem: with slots that have several occupants, which files edited by hand can produce, only the result, the versions and the set of items are stated, because the items met first depend on the order of the map.
- Inventory.Inventory.VacateItems: with several items in the slot the published objects are not stated, for the same reason.
- Inventory.Inventory.UnequipSlotForClass: the same holds of its update.
- Inventory.Inventory.SwapOut: the same holds of the item it moves and of its update.
- Inventory.Inventory.ActivateTournamentAccess: a token is assumed not to be its own journal; the program would add to the item it then destroys.
- StorePurchase.FinalizeSettles: assumes that only the definition of the stats subscription creates one.
- StorageTheorems.RunKeepsConsistent: assumes that the schema stores the casket attributes as uint32; runs do not delete, trade up or equip stored items, because those paths check no reference.
- StorageCheck.LogCasketConsistency: the checks that do not concern caskets are not modelled.
- TradeUp.OutputIsInput: assumes that collection entries agree with the item and paint kit tables, as parsing builds them.
- WorkerQueue.EverythingGetsHandled: progress is a bound on the remaining steps; a fair scheduler is not modelled.
- RconFraming.ConnectionHandler.HandlePacketBuffer: what commands answer is a function of the commands so far; the socket takes a fixed number of packets.
- ReadCalls.SavedReads.MakeReadCall: a read takes the file at one moment; a file that shrinks while it is read is not modelled.
- CaseOpening.RandomRarityForItems: rounding of the float draw is not modelled; for a total that is not positive, where the library leaves the draw undefined, it is taken as a share of the total like any other.
- KeyValues.KeyValueParser.Parse: tree nodes are values that the parser returns, not heap objects it fills, so aliasing between subkeys is not captured; line numbers in error messages are left out.
- KeyValues.KeyValue.ParseFromFileDetailed: a char is signed, as on the platforms the game runs on, so bytes from 0x80 on count as blanks outside quotes.
- Handshake.SendsAreBounded: ordinary messages and the closing of broken sessions are not modelled, because they do not touch the budget.
- Handshake.ConnectRetryDelay: called with the number of messages sent so far, which is at least one; for none it would give 2 seconds.
- InventoryPublishing.EveryoneFollows: replies and notifications that go to the game alone and carry no shared object of these kinds are not modelled, nor is the separate message that ends a stats subscription; crates, stickers and tools are not among the changes.
- InventoryPublishing.SprayReaches: as account ids are not zero, a new item never has the id 0, which an equip request takes to mean an empty slot.
- Attribute values carry their type; values whose bytes do not match the type in the schema are not modelled.
- TradeUp.OutputWear: the wear attribute, the only one set from a float here, has type float in the schema of the game; a schema that types it as a string is not modelled.
- InventoryRestart.FileIsReadBack: ids are those the program gives out, but for a high word of zero, which reading takes as a request for the next id; a number in a float attribute is read in plain notation without an exponent.
- InventoryFile.ReadTree: a field of an operation that was never set is written as 0, which reads the same.
- Protobuf encoding, sockets, Steam calls, logging, configuration, graffiti signing, panorama patching and platform code.
- Stickers, patches, souvenirs, counter swaps, item positions, bundles and the music-kit counters: each changes one or two items by the same attribute writes, creations and removals that are modelled here.
- Matchmaking, party, profile and price-sheet replies: one-shot answers without state.
