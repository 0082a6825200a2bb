# Verified models of the game server

This project models eleven components of the server in Dafny and proves what they are for.
Each module is one component; classes stand for the objects the source updates in place, and
their methods are proved against pure functions about which the lemmas speak.

| module | component |
|---|---|
| WalkCache | the window of walkable tiles that a creature scrolls along with its steps |
| OtbLoader | the OTB tree parser and the separate pass that removes escapes |
| Containers, ContainerIteration, ItemMoves, MoveTerms, MoveLosses, HoldingLimits | the container forest with cached weights, the breadth-first iterator, moving and adding items, the answers of its questions in terms of the items, what moves lose, and where the limits are asked |
| DatabaseTasks | the database task queue as a machine of interleaved steps |
| DamageList, DamageDelivery | the list of damage over time and its delivery |
| ConditionStream, ConditionTypes | the byte format of conditions, saving and loading a player's conditions, and the types by name |
| CombatArea | the matrices of areas of effect, their turns and mirror images, the wave shapes and the tiles hit |
| DecayWheel | the buckets of decaying items |
| Money | paying with coins and bank, and giving change |
| Trade, TradeTerms, TradeAcceptances | trading between players, its steps in terms of the two sides, and what their acceptances refer to |
| DamageCredit | splitting damage over mana and health, and sharing experience |
| Common | options, bytes and a little arithmetic |

The clock, random draws, the map, script events, the network and the database are inputs or
left out. Floating-point numbers are exact rationals, and rotations by quarter turns are
integer maps. 32-bit and 16-bit arithmetic is written out where it matters: the coordinates
of the walk cache, the coins of addMoney, the numbers of the byte format, and the centers of
areas.

Where the code falls short of what its comments or names suggest, the model follows the code
and the exact condition is proved:

* The walk cache takes the row distance of a diagonal step as an absolute value, though its
  branches expect a signed one (engine/src/creature.cpp:529-535). The scrolled window is right
  on every step but south-east and south-west (`WalkCache.ScrollExactIff`); over runs of all
  events, the tiles it may be wrong about are followed (`WalkCache.RunKeepsSync`).
* A mirrored area takes its center from the rows, a flipped one from the columns
  (engine/src/combat.cpp:1399, 1408). Both, and the flipped and mirrored one, are right exactly
  for square matrices (`CombatArea.MirrorExactIff`, `CombatArea.FlipExactIff`,
  `CombatArea.AreaCombat.SetupExtArea`).
* `removeMoney` does not clear the money when a stack has covered it
  (engine/src/game.cpp:1649-1664), so the bank may be charged again
  (`Money.ChargedExactIff`).
* `addMoney` multiplies in 32 bits, so its coins are worth the money below 4294970000 and
  beyond only in the cases `Money.CreatedExactIff` names.
* `Container::addThing` drops an item at an index beyond the capacity
  (engine/src/container.cpp:540-542). A container with pages may hold a stack to join there,
  so that even a move without an index loses items (`MoveLosses.WhereeverLosesIff`,
  `MoveLosses.PouchLosesCoins`).
* `internalAddItem` drops an item added at an index behind the capacity, and leaves a remainder
  when the stack at its index overflows with auto-stack off and no slot free
  (engine/src/game.cpp:1402-1408, 1445); it succeeds all the same (`MoveLosses.AddsAllIff`,
  `MoveLosses.PouchDropsCoins`, `MoveLosses.BagOverflows`).
* `getTopParentContainer` stops one level below the outermost container for nested ones
  (engine/src/container.cpp:104-111), so the limits hold at the outermost container exactly for
  what is added to it directly (`ItemMoves.GetTopParentContainer`,
  `HoldingLimits.LimitsKeptIff`, `HoldingLimits.BagTakesTooMuch`).
* `threadMain` tests the thread state outside the lock (engine/src/databasetasks.cpp:37), so
  the worker may miss the last notify (`DatabaseTasks.FinishesAloneIff`).
* A damage condition whose tick time is not a number of think intervals may expire before all
  its damage is dealt (`DamageDelivery.DealsAllIff`).
* The damage list reaches the amount exactly under a weaker condition than amount >= start *
  start: it is enough that the amount has room for each value once
  (`DamageList.SumIsAmountIff`).
* Two traders can both accept while one of them has offered nothing; such a transfer moves no
  items (`Trade.AcceptedWithoutOffer`, `Trade.Game.EndTransfer`).
* The end of a transfer does not look at the answer to the second move
  (engine/src/game.cpp:4178), so a trade may succeed with one item moved
  (`Trade.ExchangeIff`, `Trade.BackpackTradedAway`).
* A player may accept before the partner has offered anything, and the acceptance stands for
  whatever is offered then (`TradeAcceptances.AcceptedAsOfferedIff`,
  `TradeAcceptances.AcceptedBlind`).

## Model

| member | source | states |
|---|---|---|
| WalkCache.SignedScrollIsExact | engine/src/creature.cpp:495-573 | scrolling the window in place with the signed row offset gives, in every cell but the own one, what a full rebuild at the new position would, for all eight steps |
| WalkCache.ScrollIsExact | engine/src/creature.cpp:495-573 | the same for the code as written, with its absolute distance, on every step but south-east and south-west |
| WalkCache.SouthDiagonalSkew | engine/src/creature.cpp:529-535 | what the window shows after a south diagonal: the first row and the last row are off by one column, the others are right |
| WalkCache.ScrollExactIff | engine/src/creature.cpp:495-573 | scrolling keeps every window in step exactly when the step is not a south diagonal |
| WalkCache.SouthDiagonalFails | engine/src/creature.cpp:529-535 | for each south diagonal there is a map on which the scrolled window is wrong |
| WalkCache.SkewedIff | engine/src/creature.cpp:495-573 | a step makes suspects of exactly the tiles on the map that it leaves wrong for some right window and some map |
| WalkCache.RebuildSyncs | engine/src/creature.cpp:294-308 | a rebuilt window is in step with the map |
| WalkCache.ChangeSpoils | engine/src/creature.cpp:358-390 | a change of the map makes the window wrong at the changed tiles at most |
| WalkCache.RefreshRestores | engine/src/creature.cpp:317-325 | fetching a tile again puts the window right at that tile |
| WalkCache.EventKeepsSync | engine/src/creature.cpp:358-588 | every event the creature is told of, own steps in all eight directions among them, keeps a loaded window right about all tiles but the suspects, if walkability changes only where the event says: a rebuild clears the suspects, a refetch takes its tile off them, and only a step south-east or south-west adds any |
| WalkCache.RunKeepsSync | engine/src/creature.cpp:358-588 | so does every run of events, with the suspects carried along |
| WalkCache.WithoutSouthDiagonals | engine/src/creature.cpp:529-535 | a run that never scrolls south-east or south-west makes no suspects |
| WalkCache.RunAnswersAreDirect | engine/src/creature.cpp:327-356 | after any run, the cache answers 1 or 0 exactly as the tile itself would, for every position of the window but the own one and the suspects |
| WalkCache.CleanRunAnswersAreDirect | engine/src/creature.cpp:327-356 | after a run without steps south-east and south-west, for every position but the own one |
| WalkCache.OldTileNeedsRefetch | engine/src/creature.cpp:573 | for every step there is a right window and a map on which, without the fetch of the old tile at the end, the window is wrong |
| WalkCache.Creature.UpdateMapCache | engine/src/creature.cpp:294-308 | the two loops leave the rebuilt window |
| WalkCache.Creature.OnOwnMove | engine/src/creature.cpp:494-573 | the two-phase shift in the array, the refetched edges and the old tile leave the state the step is specified to leave |
| WalkCache.Creature.OnOtherMove | engine/src/creature.cpp:577-588 | another creature's move fetches its new and its old tile again |
| WalkCache.Creature.OnUpdateTileItem | engine/src/creature.cpp:365-377 | an item update fetches the tile again exactly when the old or the new kind blocks |
| WalkCache.Creature.OnRemoveTileItem | engine/src/creature.cpp:379-390 | an item removal fetches the tile again exactly when the kind blocks or is ground |
| WalkCache.Creature.OnAddTileItem | engine/src/creature.cpp:358-363 | an added item always fetches the tile again |
| WalkCache.Creature.GetWalkCache | engine/src/creature.cpp:327-356 | the answer is 1 at the own position, the cell in the window, 0 on another floor and 2 elsewhere |
| OtbLoader.WellFormedIsParsed | engine/src/fileloader.cpp:53-105 | every well-formed file is accepted and its tree rebuilt |
| OtbLoader.ScanIsSound | engine/src/fileloader.cpp:64-102 | whatever the scan accepts is a complete, balanced root |
| OtbLoader.ParsesExactlyWellFormed | engine/src/fileloader.cpp:53-105 | the parser accepts exactly the well-formed files, and rebuilds exactly their tree |
| OtbLoader.PassesAgree | engine/src/fileloader.cpp:116-119 | on every property range the parser accepts, the un-escaper drops exactly the bytes the parser took for escapes, and ends on none |
| OtbLoader.NodePropsAreClean | engine/src/fileloader.cpp:107-122 | so it does for the properties of every node of an accepted file |
| OtbLoader.UnescapeEscape | engine/src/fileloader.cpp:107-122 | removing escapes undoes escaping |
| OtbLoader.RoundTrip | engine/src/fileloader.cpp:30-122 | a node tree written as a file is read back with its shape, types and properties, unless the file is too short for the constructor, and that is a bare root without properties |
| OtbLoader.Loader.ParseTree | engine/src/fileloader.cpp:53-105 | the loop over the node stack, writing the nodes in place, returns the objects of the parsed tree, or fails when there is none |
| OtbLoader.Loader.GetProps | engine/src/fileloader.cpp:107-122 | false for an empty range, else the properties without their escapes |
| Containers.PushUpEffect | engine/src/container.cpp:172-179 | pushing a weight up adds it to the totals of a container and of everything that contains it, and changes nothing else |
| Containers.PushUpBalances | engine/src/container.cpp:172-179 | it repairs a forest whose one container lacks that weight |
| Containers.BalancedIsTrue | engine/src/container.cpp:172-184 | when every total is the sum over the members, it is the recursive weight at every level |
| Containers.AddKeepsValid | engine/src/container.cpp:538-568 | adding an item keeps all totals right and the forest free of cycles |
| Containers.UpdateKeepsValid | engine/src/container.cpp:570-591 | changing a member's id and count keeps them right |
| Containers.ReplaceKeepsValid | engine/src/container.cpp:593-615 | replacing a member keeps them right |
| Containers.RemoveKeepsValid | engine/src/container.cpp:617-650 | removing a member keeps them right |
| Containers.AddIs | engine/src/container.cpp:538-568 | field by field, for every item: the added one is first or last in the list and has its parent, nothing else changes its list, parent, id or count |
| Containers.UpdateIs | engine/src/container.cpp:570-591 | the member has the new id and count, everything else as before |
| Containers.ReplaceIs | engine/src/container.cpp:593-615 | the new item stands at the index of the old one, which has no parent then; all other lists and parents as before |
| Containers.RemoveIs | engine/src/container.cpp:617-650 | the member is out of the list and has no parent; the others keep their order |
| Containers.RunKeepsWeightsTrue | engine/src/container.cpp:538-650 | after any run of these operations every total is the recursive weight of the contents |
| Containers.AttachKeepsAcyclic | engine/src/container.cpp:304-330 | adding an item that is neither the container nor above it closes no cycle |
| Containers.Item.UpdateItemWeight | engine/src/container.cpp:172-179 | the loop up the parents ends, and does to the objects what pushing up means |
| Containers.Item.AddThing | engine/src/container.cpp:538-557 | the item comes first in the list; at an index beyond the capacity nothing happens |
| Containers.Item.AddItemBack | engine/src/container.cpp:559-568 | the item comes last in the list |
| Containers.Item.UpdateThing | engine/src/container.cpp:570-591 | a member changes and the totals follow; another item changes nothing |
| Containers.Item.ReplaceThing | engine/src/container.cpp:593-615 | a member gives its place to a loose item and the totals follow |
| Containers.Item.RemoveThing | engine/src/container.cpp:617-650 | part of a stack or the whole member leaves and the totals follow |
| ContainerIteration.WalkIsLevels | engine/src/container.cpp:765-798 | the walk with a worklist is the walk level by level |
| ContainerIteration.WalkFromOne | engine/src/container.cpp:765-798 | the walk from a container meets exactly what it contains at any depth, each once |
| ContainerIteration.WalkTally | engine/src/container.cpp:226-244 | counting along the walk is counting by recursion |
| ContainerIteration.AdvanceVisitsOne | engine/src/container.cpp:780-798 | one advance moves to the next item of the walk |
| ContainerIteration.ContainerIterator.Advance | engine/src/container.cpp:780-798 | the worklist and the cursor, in place, show the rest of the walk |
| ContainerIteration.GetItemHoldingCount | engine/src/container.cpp:226-233 | the loop counts what is strictly inside, by recursion |
| ContainerIteration.GetContainerHoldingCount | engine/src/container.cpp:235-244 | the same for containers |
| ContainerIteration.IsHoldingItem | engine/src/container.cpp:246-254 | true exactly for items inside at any depth |
| ItemMoves.QueryAdd | engine/src/container.cpp:304-387 | success exactly when all conditions hold, the walk up the parents having found no cycle and, within the limits, no inbox, and the limits on what is held being kept at the container that the code asks |
| ItemMoves.AcceptedKeepsForest | engine/src/container.cpp:304-356 | an accepted item can be added without closing a cycle or spoiling a total |
| ItemMoves.GetTopParentContainer | engine/src/container.cpp:96-114 | the container asked for the limits is the outermost one exactly when that is the container given, and otherwise the one whose parent is the outermost |
| HoldingLimits.LimitsKeptIff | engine/src/container.cpp:358-377 | for any item a container takes, the limits are kept at the outermost container, whatever they are, exactly when the container lies in no other |
| HoldingLimits.BagTakesTooMuch | engine/src/container.cpp:358-377 | an empty bag in a backpack takes an item though the backpack is at its limit |
| ItemMoves.QueryMaxCount | engine/src/container.cpp:389-440 | the number is a hundred for each free slot and what fits on the stacks there are; success exactly when it covers the count |
| ItemMoves.QueryRemove | engine/src/container.cpp:442-462 | success exactly for a movable member and a count it has |
| ItemMoves.QueryDestination | engine/src/container.cpp:464-531 | read off the container and the index: 254 answers the parent, or the container itself where there is none; a container at the index is the destination; 255 and an index behind the capacity of one page leave the container with its first other stack with room or no index; any other index is kept unless the first such stack is joined |
| ItemMoves.DestinationIs | engine/src/container.cpp:464-531 | the same of the specified destination, branch by branch, so that everything stated through it is stated of these answers |
| MoveTerms.TakesIff | engine/src/container.cpp:304-387 | a container takes an item if and only if it is unlocked, the item can be picked up and neither is nor contains it, nothing above is an inbox and there is a slot (both unless limits are ignored), the limits hold at the container asked, a quiver gets ammunition, and the holder agrees |
| MoveTerms.MaxCountIs | engine/src/container.cpp:389-440 | the number in terms of free slots and open stacks: a hundred for each slot, and what the open stacks lack of a hundred each, or the one at the index |
| MoveTerms.WayIs | engine/src/game.cpp:1168-1181 | another container answered first is asked once more without index and flags, and is the destination |
| MoveTerms.GoesIff | engine/src/game.cpp:1183-1264 | something moves if and only if the item is not at its target, the destination takes it, the source has that many, at least one, it is movable or that is ignored, and the destination is not and is not inside what is being traded |
| MoveTerms.AddsIff | engine/src/game.cpp:1358-1388 | an add succeeds if and only if the destination takes the item and the container given has, counted in slots and open stacks, room for the whole stack or for one item |
| ItemMoves.WhereeverDestination | engine/src/container.cpp:505-528 | without an index that is the container itself, pointed at the first other stack with room if there is one |
| ItemMoves.FindDestination | engine/src/game.cpp:1168-1181 | the loop over sub-containers ends at the second answer |
| ItemMoves.OperationCounts | engine/src/container.cpp:538-650 | adding, updating, replacing or removing changes the amounts in one container, by what comes in and goes out, and no other amount anywhere |
| ItemMoves.MoveStack | engine/src/game.cpp:1264-1310 | splitting, merging and merging with a remainder take from the source what they bring to the destination, up to an index beyond the capacity |
| ItemMoves.MoveWhole | engine/src/game.cpp:1264-1310 | so does moving a whole item |
| ItemMoves.FullTakesNoSlot | engine/src/container.cpp:397-438 | a full container without pages takes only what joins the stack it was pointed at |
| ItemMoves.InternalMoveItem | engine/src/game.cpp:1155-1349 | between plain containers a move succeeds exactly when the item lies at its target already or everyone asked agrees and all that was asked for fits; the destination is the parent for 254, the container at the index where there is one, and otherwise the one given; exactly the queried number leaves the source and exactly what addThing takes arrives, the stack pointed at filling up to 100 first; totals stay right, and no full container grows |
| MoveLosses.SuccessMovesAll | engine/src/game.cpp:1236-1246 | a success moves what was asked for, 255 standing for the whole stack; never more than the stack or the queried number moves |
| MoveLosses.LosesIff | engine/src/container.cpp:540-542 | a move loses something exactly when its index lies behind the capacity and not all joins the stack found there |
| MoveLosses.OnePageLosesNothing | engine/src/container.cpp:464-542 | into a container without pages, and within the limits, no move loses anything, whatever the index |
| MoveLosses.WhereeverLosesIff | engine/src/container.cpp:513-542 | a move without an index loses something exactly when the destination has pages or the limits are off, and the first stack to join lies behind the capacity with too little room |
| MoveLosses.PouchLosesCoins | engine/src/container.cpp:28-37 | fifty coins moved to a gold pouch whose only open stack is the 26th: success, one arrives |
| ItemMoves.RoomShrinks | engine/src/game.cpp:1358-1457 | what has joined a stack no longer fits on the stacks |
| ItemMoves.StillCanTakeAll | engine/src/game.cpp:1358-1457 | a container with room for a whole stack has room for the rest once part has joined |
| ItemMoves.InternalAddItem | engine/src/game.cpp:1358-1457 | an add succeeds exactly when the destination takes the item and the container given has room; then a stack of its kind that it is pointed at is filled up to 100, any other item is put into the destination as it is, and the destination gains exactly the item's count less what is dropped behind the capacity and what is left over, the latter being the remainder; a failure or a test changes nothing, and the recursion ends |
| MoveLosses.AddsAllIff | engine/src/game.cpp:1380-1445 | a success adds exactly the item's count unless the place asked for lies behind the capacity and the item joins no stack, or the stack at it overflows with auto-stack off and no slot free |
| MoveLosses.DroppedIff | engine/src/container.cpp:540-542 | something is dropped exactly in the first of these cases |
| MoveLosses.RemainderIff | engine/src/game.cpp:1396-1406 | something is left over exactly in the second |
| MoveLosses.WhereeverAddsAll | engine/src/game.cpp:1358-1457 | without an index everything is added and nothing is left over; a container that takes the item and has room for all of it fails only with auto-stack off and no slot free |
| MoveLosses.PouchDropsCoins | engine/src/container.cpp:540-542 | coins added to the first slot of the second page of an empty gold pouch: success, and none is added |
| MoveLosses.BagOverflows | engine/src/game.cpp:1396-1406 | 41 coins added to the first slot of a full bag with FLAG_IGNOREAUTOSTACK: success, one joins, 40 are left over |
| DatabaseTasks.RunKeepsInv | engine/src/databasetasks.cpp:34-105 | every interleaving keeps: accepted is popped followed by queued, each popped query is run once or in one thread's hands, the worker waits on work only with a notify owed, a shutdown past its flush has left nothing |
| DatabaseTasks.AcceptedIsSubmitted | engine/src/databasetasks.cpp:54-62 | over every run, what is accepted is exactly what was handed to addTask before the first shutdown or stop, in order |
| DatabaseTasks.WorkerCanCatchUp | engine/src/databasetasks.cpp:34-52 | from every reachable state of a running queue, steps of the worker and notifies that are owed lead to an empty queue with everything submitted popped in order |
| DatabaseTasks.StepKeepsFifo | engine/src/databasetasks.cpp:42-50 | no step loses, doubles or reorders a query |
| DatabaseTasks.StepKeepsRunOnce | engine/src/databasetasks.cpp:69-96 | no step runs a query twice or gives it to two threads |
| DatabaseTasks.StepKeepsWakeUps | engine/src/databasetasks.cpp:54-67 | no step leaves the worker waiting on work with no notify owed |
| DatabaseTasks.AtRestAllRan | engine/src/databasetasks.cpp:69-96 | with no query in anyone's hands, the popped ones have been run, once each |
| DatabaseTasks.ShutdownIsFinal | engine/src/databasetasks.cpp:86-105 | when the flush of a shutdown has returned, everything accepted is popped, and no run accepts or pops more |
| DatabaseTasks.FinishesAloneIff | engine/src/databasetasks.cpp:37 | after the last notify the worker can leave its loop by itself exactly when that notify did not fall between its test of the state and its lock |
| DatabaseTasks.StrandedStays | engine/src/databasetasks.cpp:37-41 | a worker that missed it waits through every run without a wake-up of its own or another shutdown |
| DatabaseTasks.WorkerCanBeStranded | engine/src/databasetasks.cpp:34-105 | a run in which this happens |
| DatabaseTasks.TaskQueue.AddTask | engine/src/databasetasks.cpp:54-62 | a running queue gets the query at its end, with a signal exactly when it was empty; one that is not running is left alone without a signal; this is the step of the machine |
| DatabaseTasks.TaskQueue.Take | engine/src/databasetasks.cpp:38-49 | the worker takes the first query, and only that one, or none from an empty queue; this is its step |
| DatabaseTasks.TaskQueue.FlushOne | engine/src/databasetasks.cpp:88-95 | one turn of flush takes the first query, and this is its step |
| DatabaseTasks.TaskQueue.Terminate | engine/src/databasetasks.cpp:98-102 | the critical section of shutdown is its step |
| DamageList.GenerateDamageList | engine/src/condition.cpp:1418-1436 | the loops end with a list that meets the aims: every value at least once, each total at most half a value short of its aim, and beyond it by half a value only for values taken once |
| DamageList.CloserIff | engine/src/condition.cpp:1430-1434 | the comparison of proportions, over exact rationals, is a comparison of whole numbers |
| DamageList.DamageListMeetsAims | engine/src/condition.cpp:1418-1436 | value by value: each from start down occurs, the values down to it add up to their part of the amount less half of it at least, and where it occurs again to less than that part and half of it more |
| DamageList.DamageListSum | engine/src/condition.cpp:1418-1436 | the list adds up to the larger of the amount and 1 + 2 + .. + start |
| DamageList.SumIsAmountIff | engine/src/condition.cpp:1418-1436 | it adds up to at least the amount, and to exactly the amount if and only if the amount is at least start (start + 1) / 2 |
| DamageList.DamageListDescends | engine/src/condition.cpp:1418-1436 | the list never rises, stays within 1 to start, and has each of these values |
| DamageList.DamageListIsUnique | engine/src/condition.cpp:1418-1436 | the aims leave only one list |
| DamageDelivery.ConditionDamage.AddDamage | engine/src/condition.cpp:1148-1178 | rounds of one value lengthen list and time alike; -1 rounds make the damage periodic |
| DamageDelivery.ConditionDamage.Init | engine/src/condition.cpp:1180-1205 | a condition without a list gets the list of its draw, and the time that list takes |
| DamageDelivery.ConditionDamage.StartCondition | engine/src/condition.cpp:1207-1224 | starting sets the condition up and deals the first value unless delayed; a condition that has a list or periodic damage already keeps it |
| DamageDelivery.ConditionDamage.ExecuteCondition | engine/src/condition.cpp:1226-1264 | one call, in place, is the specified step: damage due, list, ticks and end time, with and without a field |
| DamageDelivery.PeriodicDealsEvery | engine/src/condition.cpp:1226-1264 | over any number of calls periodic damage is dealt at every c-th one, c being the calls its time takes, and never ends |
| DamageDelivery.OwnFieldCallIs | engine/src/condition.cpp:1226-1264 | in a field of its own kind the front value is dealt when due and stays, its time starting anew, and the end moves on with the call |
| DamageDelivery.SetUpNumbers | engine/src/condition.cpp:1180-1205 | no tick time below a second; the first value is a twentieth of the amount, rounded up, where none is given |
| DamageDelivery.AfterRounds | engine/src/condition.cpp:1226-1264 | after q rounds of calls and r more, exactly the first q values have been dealt |
| DamageDelivery.DealsAllIff | engine/src/condition.cpp:135-144 | every value is dealt exactly when the call before the last one needed still finds the condition in time |
| DamageDelivery.DealtIsPrefix | engine/src/condition.cpp:1226-1264 | whatever has been dealt is the start of the list, in order and at most once |
| DamageDelivery.StartedDealsAll | engine/src/condition.cpp:1180-1264 | with a tick time of whole think intervals and a first call within one interval, every value is dealt, in order, in fields of other kinds or none |
| DamageDelivery.StartAndCallsDealAll | engine/src/condition.cpp:1207-1264 | so what starting a condition and its calls deal together is exactly the list it has drawn |
| DamageDelivery.UnevenTimeLosesDamage | engine/src/condition.cpp:135-144 | a tick time between two numbers of intervals loses damage |
| ConditionStream.LeRoundTrip | engine/src/fileloader.h:102-111 | a number of given size is read back from its bytes |
| ConditionStream.StringRoundTrip | engine/src/fileloader.h:113-183 | a string is read back up to 65535 bytes, a longer one as empty, and what follows stays unread |
| ConditionStream.ReadFields | engine/src/condition.cpp:51-60 | the reading loop does with the bytes of fields what the fields say |
| ConditionStream.RoundTrip | engine/src/condition.cpp:51-257 | a condition of any class made from its own bytes is the condition as written, with exactly the bytes behind END left |
| ConditionTypes.EveryTypeRoundTrips | engine/src/condition.cpp:140-257 | by name, for each of the thirty types and any condition of the class the source makes for it: written and read it is restored with exactly the bytes behind it left |
| ConditionTypes.NewConditionIs | engine/src/condition.cpp:140-206 | a number makes a condition if and only if it is one of these types, and a new one has the class of its type with the starting values of the source |
| ConditionTypes.HeadBytes | engine/src/condition.cpp:111-127 | the common fields as bytes: type, id, ticks, buff and sub-id behind their attribute numbers |
| ConditionTypes.BodyBytes | engine/src/condition.cpp:708-1766 | the fields of each class as bytes, with their attribute numbers, in their order |
| ConditionTypes.ListBytes | engine/src/condition.cpp:383-398 | skills, stats and damage intervals as bytes, one field each |
| ConditionTypes.PartsInOrder | engine/src/condition.cpp:1118-1135 | skills before stats; a damage condition's delay and period before its intervals |
| ConditionTypes.ReadsIff | engine/src/condition.cpp:62-109 | one attribute is read if and only if the class knows it and its bytes are there, and exactly these are taken |
| ConditionStream.ListTicksIsSum | engine/src/condition.cpp:1100-1112 | the time rebuilt for a damage condition is the sum of its intervals |
| ConditionStream.LoadSaved | engine/src/iologindata.cpp:508-516 | loading what was saved of a player gives the persistent conditions, restored, in reverse order |
| ConditionTypes.SavedComesBackIff | engine/src/iologindata.cpp:504-516 | one condition saved comes back with its parts if and only if it is not endless and not from equipment |
| ConditionStream.Condition.Serialize | engine/src/condition.cpp:111-127 | the bytes written are those of the common fields and the fields of the class |
| ConditionStream.Condition.UnserializeDamage | engine/src/condition.cpp:1089-1116 | reading one attribute of a damage condition is the specified step, failures included |
| ConditionStream.Condition.UnserializeAttributes | engine/src/condition.cpp:373-381 | skills and stats fill their arrays in order |
| ConditionStream.Condition.UnserializeProp | engine/src/condition.cpp:62-109 | reading one attribute, for every class |
| ConditionStream.Condition.Unserialize | engine/src/condition.cpp:51-60 | the loop reads up to END, the end of the stream or the first failure |
| ConditionStream.CreateCondition | engine/src/condition.cpp:208-257 | a new object from the common fields in their order, of the class and with the values given by name under ConditionTypes, or none |
| ConditionStream.SaveConditions | engine/src/iologindata.cpp:1205-1212 | the persistent conditions, each closed by END |
| ConditionStream.LoadConditions | engine/src/iologindata.cpp:504-516 | the list that the loading loop leaves |
| ConditionStream.PropStream.Read | engine/src/fileloader.h:102-111 | the bytes asked for and the cursor behind them, or nothing changed |
| ConditionStream.PropStream.ReadString | engine/src/fileloader.h:113-130 | the string behind its length, or none with the cursor where reading stopped |
| ConditionStream.PropWriteStream.WriteString | engine/src/fileloader.h:170-180 | length and bytes, or the empty string for one that is too long |
| CombatArea.Rotate | engine/src/combat.cpp:1412-1455 | no write leaves the output, and every cell holds what the turned cell of the input held |
| CombatArea.RotatedIsTurned | engine/src/combat.cpp:1412-1455 | the active offsets around the new center are exactly the turned ones |
| CombatArea.TargetIffSource | engine/src/combat.cpp:1441-1452 | turning takes no two cells to one place |
| CombatArea.QuarterTurns | engine/src/combat.cpp:1417-1431 | two quarter turns are the half turn, three the turn the other way, four lead back |
| CombatArea.MirrorExactIff | engine/src/combat.cpp:1391-1399 | the mirrored area is the mirror image exactly when the matrix is square |
| CombatArea.FlipExactIff | engine/src/combat.cpp:1400-1408 | the flipped area is the flipped image exactly when the matrix is square |
| CombatArea.NothingShifts | engine/src/combat.cpp:1399-1408 | a finite set of active offsets is no shifted copy of itself |
| CombatArea.CreateArea | engine/src/combat.cpp:1460-1491 | the cells row by row from the list, and the last marked center |
| CombatArea.WaveList | engine/src/combat.cpp:1518-1548 | the counters list exactly rows times columns cells, each as its row and column demand |
| CombatArea.WaveCellIs | engine/src/combat.cpp:1518-1548 | as offsets these are the wave, with exactly one center |
| CombatArea.WaveSymmetric | engine/src/combat.cpp:1530-1543 | the wave is symmetric about the middle column |
| CombatArea.WaveOffsetIff | engine/src/combat.cpp:1518-1548 | the wave is one cell wider on each side for every spread rows gone, and a single column without a spread |
| CombatArea.AreaCombat.SetupArea | engine/src/combat.cpp:1493-1516 | the list to the north and its exact turns to the other three directions |
| CombatArea.AreaCombat.SetupWave | engine/src/combat.cpp:1518-1551 | the wave as a set of offsets, in all four directions |
| CombatArea.AreaCombat.SetupExtArea | engine/src/combat.cpp:1588-1616 | the diagonal areas are the images they are meant to be when the matrix is square, and otherwise, with anything active, none of the three is |
| CombatArea.AreaCombat.GetArea | engine/src/combat.h:203-235 | the area stored for the direction of the target: with an extended area a diagonal one whenever neither offset is zero, else the straight one, east and west by the column first |
| CombatArea.WaveLeadsAway | engine/src/combat.h:203-235 | the wave chosen for a target has the target ahead of the caster and no cell behind the target |
| CombatArea.GetList | engine/src/combat.cpp:1347-1376 | the positions hit are those around the target whose offset is active and that are in clear sight, each once |
| DecayWheel.NewItemDecaysIn | engine/src/game.cpp:6783-6791 | an item put into the wheel decays after exactly the stated number of checks |
| DecayWheel.StartIs | engine/src/game.cpp:6496-6514 | an item is taken up exactly when it may decay and is not decaying already: as new with time left, decaying at once without |
| DecayWheel.CheckIs | engine/src/game.cpp:6565-6607 | what a check does to each item, in the seconds and buckets of the source |
| DecayWheel.StartedItemDecays | engine/src/game.cpp:6496-6791 | the whole life of an item: from its start through starts of others, the next cleanup and any run that leaves it alone, it decays after exactly the stated number of checks |
| DecayWheel.DecaysOnTime | engine/src/game.cpp:6565-6607 | before that check it is in one bucket and at it it decays, whatever happens to other items |
| DecayWheel.ChecksLeftIs | engine/src/game.cpp:6581-6600 | visit by visit, the checks come to buckets * (duration / turn) and the shift of the remainder |
| DecayWheel.WithinOneTurn | engine/src/game.cpp:6581-6600 | the time of the checks misses the duration by less than one turn of the wheel |
| DecayWheel.ServerIntervals | engine/src/game.h:77-78 | with the intervals of the server, the checks in numbers |
| DecayWheel.DecayLists.StartDecay | engine/src/game.cpp:6496-6514 | an item that decays already is left alone, else it waits for the cleanup or decays at once |
| DecayWheel.DecayLists.CheckDecay | engine/src/game.cpp:6565-6608 | the loop over one bucket, erasing and moving in place, is the check; every item stays in exactly one list |
| DecayWheel.DecayLists.Cleanup | engine/src/game.cpp:6783-6791 | the new items go into their first buckets |
| Money.Purse.AddMoney | engine/src/game.cpp:1669-1710 | coins of exactly the worth that the wrapped arithmetic gives are added |
| Money.CreatedExactIff | engine/src/game.cpp:1669-1710 | that worth is the money if and only if the money is below 4294970000, or its crystal coins fit 32 bits, their worth exceeds 32 bits a multiple of 25 times, and the money does not end in 00 |
| Money.Purse.RemoveMoney | engine/src/game.cpp:1579-1667 | success exactly when coins and balance cover the amount; then the coins lose the lesser of the two, the smallest stacks first, those behind the one that covers the amount staying as they are; and the bank is charged what the coins do not cover, or else, with the balance in use and if it can bear it, what was left to pay at that stack |
| Money.Purse.BreakStack | engine/src/game.cpp:1653-1659 | breaking a stack and giving change takes exactly the money out |
| Money.ChargedExactIff | engine/src/game.cpp:1649-1664 | coins and bank together are charged exactly the amount if and only if the balance is not in use, the coins do not cover the amount, or the bank cannot bear the last chunk |
| Money.RichPayTwice | engine/src/game.cpp:1649-1664 | with coins and bank both covering the amount, too much is charged |
| Money.SortedIs | engine/src/game.cpp:1590-1637 | the coins found, by worth, are what was found |
| Trade.ReachableIsInv | engine/src/game.cpp:4064-4219 | in every reachable state partners are symmetric, no partner means no trade, an initiated trade has an offer, an acknowledged one none, and the register holds exactly the offered items, each with one owner and one reference |
| Trade.StepKeepsInv | engine/src/game.cpp:4064-4360 | so every step keeps |
| Trade.RegisterIsInjective | engine/src/game.cpp:4087 | no player has two items in the register |
| Trade.OffersStayApart | engine/src/game.cpp:4006-4049 | while nothing is moved no item on offer holds another one on offer |
| Trade.CloseInTransfer | engine/src/game.cpp:4318-4323 | closing during a transfer changes nothing |
| Trade.CloseEndsTrade | engine/src/game.cpp:4318-4360 | closing leaves the two sides without a trade and all others as they were |
| Trade.AcceptedWithoutOffer | engine/src/game.cpp:4112-4160 | both sides can come to a transfer with one item missing |
| Trade.ExchangeIff | engine/src/game.cpp:4162-4185 | with every answer written out: the first item is with the partner after the transfer if and only if both items are offered, each fits with the other side, both are removable and the first move succeeds; the second is with the player if and only if also the second move, tried with the first item gone, succeeds; nothing else is carried by anyone else, and both sides are without a trade |
| TradeTerms.RequestIs | engine/src/game.cpp:4006-4104 | a request starts a trade if and only if the other checks pass, no item on offer is this one, lies in it or holds it, and both sides are free for it; then the two sides and the register have exactly the stated values |
| TradeTerms.AcceptIs | engine/src/game.cpp:4106-4134 | an acceptance counts only from a side with an offer or asked for one, and is noted while the partner has not accepted |
| TradeTerms.SecondAcceptIs | engine/src/game.cpp:4134-4160 | the second acceptance brings both into transfer, or leaves both without a trade where the event refuses, and takes their items and no others out of the register |
| TradeTerms.CloseIs | engine/src/game.cpp:4318-4360 | closing leaves both without a trade and takes their items and no others out of the register |
| Trade.HandsChangeOnlyInTransfer | engine/src/game.cpp:4106-4219 | trading gives an item only from one side of a transfer to the other, and only what that side has offered |
| Trade.BackpackTradedAway | engine/src/game.cpp:4174-4184 | a reachable transfer that succeeds with one item moved: the backpack that was to hold the other item is the one traded away |
| TradeAcceptances.RunKeepsSeen | engine/src/game.cpp:4064-4142 | over every run, whoever has accepted faces the offer that stood at the acceptance, or stood before none then |
| TradeAcceptances.AcceptedAsOfferedIff | engine/src/game.cpp:4112-4142 | when a transfer begins, each side has accepted the offer it faces unless it accepted before that offer was made, and at most one side did |
| TradeAcceptances.AcceptedBlind | engine/src/game.cpp:4064-4142 | a reachable transfer in which it did: offer, acceptance, counter-offer, acceptance |
| Trade.Game.RequestTrade | engine/src/game.cpp:3932-4062 | a request starts a trade exactly when all checks pass, the item is free and neither side is taken |
| Trade.Game.IsFree | engine/src/game.cpp:4006-4049 | the loop over the register finds exactly the conflicts |
| Trade.Game.AcceptTrade | engine/src/game.cpp:4106-4160 | the fields and the register after an acceptance |
| Trade.Game.EndTransfer | engine/src/game.cpp:4162-4212 | success if and only if both items are offered, both fit, both are removable and the first move succeeds; then the first item is with the partner, and the second with the player if its move succeeds too; otherwise nobody carries anything else; both sides end without a trade |
| Trade.Game.InternalCloseTrade | engine/src/game.cpp:4318-4360 | the fields and the register after closing |
| DamageCredit.Creature.CombatChangeHealth | engine/src/game.cpp:5961-6107 | on the fields: mana and health together lose the lesser of the hit and what there is to lose, mana counting only behind a shield; behind a shield health is lost only once no mana is left, without one mana stays; the attacker's entry, and no other, grows by exactly that loss |
| DamageCredit.StruckIs | engine/src/game.cpp:5962-6107 | the same of the specified hit over which the runs below are stated |
| DamageCredit.Creature.AddDamagePoints | engine/src/creature.cpp:1011-1031 | the entry is made or added to, and the last hit noted, only for positive points |
| DamageCredit.CreditIsLoss | engine/src/creature.cpp:793-810 | over any run of hits the points credited are exactly the mana and health lost |
| DamageCredit.EntryIsOwnLoss | engine/src/creature.cpp:1011-1031 | each attacker's entry is what that attacker's hits have taken |
| DamageCredit.Creature.GetDamageRatio | engine/src/creature.cpp:986-1004 | the attacker's points and all points |
| DamageCredit.Creature.ExperienceOnDeath | engine/src/creature.cpp:637-669 | everyone receives exactly the shares of the damagers put to them, those that exist and are not the victim; nobody else has an entry |
| DamageCredit.Creature.GetGainedExperience | engine/src/creature.cpp:1006-1009 | one damager's share: points times what is lost over all points, rounded down |
| DamageCredit.OneShareIs | engine/src/creature.cpp:637-669 | whoever receives from one damager only receives that damager's share, within one point of the exact one |
| DamageCredit.SharesFit | engine/src/creature.cpp:637-669 | the experience given never exceeds what is lost, and with every damager there falls short by less than one point for each |
| DamageCredit.ShareIsLost | engine/src/creature.cpp:649 | a victim among its damagers takes its share with it |

## Left out

- Lua callbacks and creature events: taken as absent; where they only pass or veto, their answer is an input.
- SQL, XML, configuration, sockets and client messages: plumbing.
- Tile, Map, Player and Position beyond what is used: walkability, carrying capacity, distances and sight are inputs.
- DepotChest, DepotLocker and other special containers: they lie outside the plain-container invariant; a container on a tile or a creature counts as having no parent.
- WalkCache.RunKeepsSync: the suspects of the last step are exact (SkewedIff); those left by earlier steps are an upper bound.
- Containers.RunKeepsWeightsTrue: weights are unbounded integers; in 32 bits the same equalities hold modulo 2^32.
- ItemMoves.InternalMoveItem: between plain containers only; the exchange of items (RETURNVALUE_NEEDEXCHANGE), the browse-field source, notifications and decay are not modelled; of a failure only that it is one is stated.
- ItemMoves.QueryAdd: the answer of whoever holds the outermost container, a creature for instance, is an input.
- ItemMoves.InternalAddItem: into plain containers only; the exception for reward containers is not modelled.
- DatabaseTasks.RunKeepsInv: the thread state is read and written in one order for all threads, though the source uses relaxed atomics; starting the thread again after a shutdown is not modelled.
- DamageList.GenerateDamageList: amounts are unbounded, so the 32-bit product n * amount does not overflow here, and proportions are exact.
- DamageDelivery.StartedDealsAll: calls in a field of the condition's own kind are left out here, ConditionDamage.ExecuteCondition has them; whether a hit is suppressed, blocked or kills is not modelled; replacing a running condition by a new one (addCondition) is left out.
- ConditionStream.RoundTrip: the time at which a condition ends, and fields the source does not write, are not part of the model.
- ConditionStream.Condition.UnserializeAttributes: a skill or stat past the end of its array is refused here, while the source does not check; such input is not written by serialize.
- ConditionStream.CreateCondition: how far the stream is read when no condition can be made is not stated; nothing reads on.
- CombatArea.CreateArea: lists that do not fill their rows are excluded, as the source would write outside the matrix.
- CombatArea.AreaCombat.SetupArea: the same lists are excluded, and sizes of 2^31 or more, whose doubled size the source wraps so that its turns write outside the matrix; the COPY branch, which nothing calls, and the fixed table of circles are left out.
- CombatArea.AreaCombat.SetupExtArea: as SetupArea.
- CombatArea.AreaCombat.SetupWave: lengths below zero, which the source takes for billions of rows, and lists of 2^31 cells or more are excluded.
- CombatArea.GetList: positions do not wrap at 16 bits, and missing tiles are not created.
- DecayWheel.DecaysOnTime: what a decayed item becomes, and the removal of items from the first bucket when they are removed from the game (engine/src/game.cpp:1497), are not modelled.
- Money.Purse.RemoveMoney: the search through slots and containers is an input, removing coins does not fail, and a new stack is not merged with others, which keeps its worth.
- Trade.Game.RequestTrade: distances, sight, the item checks, imbuing, the limit of a hundred items and the event are one input.
- Trade.Game.EndTransfer: the answers about room and moves are inputs, asked with who carries what at that moment; a stack that is moved keeps its name though the source moves a copy.
- DamageCredit.Creature.AddDamagePoints: the time stamp of an entry, used only to find who has dealt the most damage, is left out.
- DamageCredit.SharesFit: who has dealt the most damage, skulls, corpses and the lesser share that players get from players are left out.
- Store purchases, the market, chat, quick loot, light levels and lookup tables: long, but they add only easy members.
