# parseritch: proofs for the feed handler's hot path

parseritch decodes Nasdaq TotalView-ITCH 5.0, keeps order books, and publishes the top of each book.
Its hot path is a stack of hand-optimised structures, each standing in for a simple one. This project
models that stack in Dafny and proves that each fast form does what its simple form does, and that
every run keeps the books right.

How it is laid out, one module per file:

- **Order map.** `Probing`, `Group`, `OrderTable`, `OrderMaps` and `Churn`: the Swiss table with its
  SWAR, SSE2 and AVX2 groups, triangular probing, tombstone-avoiding erase and rehash. `OrderMap` is a
  class over a tag array and a slot array; its methods are proved against a partial map from references
  to orders.
- **Level sides.** `LevelSearch`, `BlockMove`, `Levels` and `LevelSides`: the search kernels, the block
  shifts, one side as a sorted sequence and as a finite map, and the class with the three parallel arrays.
- **Engine.** `Books` defines the engine as a value and a step function. `Aggregation` proves the central
  theorem (the levels are always the aggregation of the live orders, with `Totals` for the sums), `Tops`
  what the top-changed flag means, `Updates` what each event does to the orders and counters and what its
  update tells, `Quotes` what the book shows in terms of the live orders alone, `Filter` what following a few
  locates keeps, and `BookEngines` that the class over the order map and 131072 level sides takes exactly
  these steps.
- **Publishing.** `Publishing`, `Announcements` and `BookBuilders`: messages to events, the published top of
  book, the event ring's contents, the peak of the live orders, market hours.
- **Lock-free protocols.** `SpscRing` and `BboCache`: step systems with one shared access per step, whose
  loads may be as stale as the memory orders allow, and theorems over every execution. `Strategy` puts the
  publisher and the ring together: what the strategy thread can know of the books.
- **MoldUDP64** (MoldUDP64 Protocol Specification v1.00). `Bytes`, `Framing`, `Mold`, `MoldReports`,
  `MoldRuns`, `MoldLines` and `MoldSend`: the sequencer, what it reports, its books over a session, two
  redundant lines, and the replay sender.
- **Parser and codec.** `Messages`, `Codec`, `Parsing`, `Slices`, `Parsers`, `Dispatch`, `Layouts` and
  `FilteredParse`: field tables and round trips, the messages byte by byte, the three walks of a buffer, slice replay, and the way
  from bytes to books.
- **Histogram.** `Buckets` and `Histograms`.
- **Synthetic feed.** `LiveLists`, `SyntheticWires`, `Streams` and `SyntheticFeeds`: the generator in lock step
  with an engine, and what an engine makes of a self-consistent stream.
- **End to end.** `EndToEnd`: from the packets of a channel to the published tops. `LiveLoops`: the live loop over
  the sequencer, parser, builder, engine and publisher objects, and a generated file sent to it.

`Machine` and `Arith` hold machine integers and a little non-linear arithmetic.

A method that changes state is proved against a function of the old state; what the source promises is
then proved of that function over all runs. Where the model and the comments in the source disagree, the
model follows the code:

- include/itch/order_map.hpp:30-32 says that a map sized up front never rehashes during a session.
  Tombstones spend the same budget as orders, so churn can spend it: `Churn.ChurnRehashes` is a run that
  rehashes with no more live orders than expected, and `Churn.ChurnHappens` gives references for it.
  `OrderMap.Insert` states exactly when an insert rehashes (the budget is spent), and `FillToExpected` what
  sizing up front does give.
- include/itch/simd/group.hpp:84-87 speaks of one false positive above a true match. `Group.MatchExact`
  is the exact set, which can be a whole run of `h2 ^ 1` tags (`Group.FalsePositiveRun`); only FULL slots are
  ever reported.
- include/itch/order_book.hpp:49-94, 228-239: the top-changed flag never misses a change
  (`Tops.ClearFlagMeansSameTop`), but it may be raised although nothing changed. `Tops.FlagIsExactIff` says for
  every event exactly when: among positive shares only when an order of the best level is replaced by the same
  price and shares (`Tops.ReplaceFlagIsExactIff`; `Tops.ReplaceMayFlagNoChange` is an input).
- include/itch/mold_udp64.hpp:68-75: duplicates are dropped within one session and below number 2^64
  (`MoldRuns.SeenStaysDropped`). `MoldRuns.DuplicateDroppedIff` and `MoldRuns.LatePacketReplaysIff` give the exact
  conditions on the packets, `MoldRuns.WrapDeliversTwice` an input.
- include/itch/order_book.hpp:54: the 32-bit order counter of a level wraps after 2^32 - 1 orders
  (`Aggregation.CountWraps`); `Aggregation.RunIsConsistentIff` is the exact condition.

Bounds and conditions that the theorems state:

- `Books.Fresh`: an added or replacing reference is not live, which is what include/itch/order_map.hpp:95-99
  asks of its caller: a live reference would be stored twice, where the map of the model overwrites it. Unknown references, overfills and zero quantities are all handled as in the source. The
  theorems on sorted sides, on the published tops and on the flag do not need it.
- `Books.HasRoom`: the 32-bit order counter of the level that a new order joins is not full. Only the aggregation
  theorems need it, and `Aggregation.StepKeepsConsistentIff` and `RunIsConsistentIff` show it to be exact.
  `Books.Legal` is both.
- `BookEngines.Storable`, for the class over the arrays only: a side grows by doubling a 32-bit capacity, so it
  holds at most 2^31 levels. `BookEngines.FewOrdersAreStorable`: with fewer than 2^31 orders alive it always can.
- `OrderMaps.LIMIT`: fewer than 2^48 live orders in a map, so that doubling stays within 57 group bits,
  where the tag still fits below the group index.
- Counters for statistics, ring indices and the seqlock's sequence are unbounded.

Verify with `dafny verify dfyconfig.toml`.

## Model

| member | source | states |
|---|---|---|
| `Probing.ProbeStep` | include/itch/order_map.hpp:80-88 | one turn of the probe loop, g = (g + step) & mask, goes from triangular probe number s to number s + 1 |
| `Probing.ProbesDistinct` | include/itch/order_map.hpp:20-21 | the first 2^k triangular probes visit pairwise different groups, whatever the home group |
| `Probing.ProbesCover` | include/itch/order_map.hpp:20-21 | so every one of the 2^k groups is visited by some probe below 2^k |
| `Group.EmptyExact` | include/itch/simd/group.hpp:92-96 | the SWAR empty mask has lane i set if and only if tag i is EMPTY |
| `Group.FreeExact` | include/itch/simd/group.hpp:97-99 | the SWAR free mask has lane i set if and only if tag i is EMPTY or DELETED |
| `Group.MatchExact` | include/itch/simd/group.hpp:84-91 | the SWAR match has lane i set if and only if tag i is h2, or tag i is h2^1 and the lane below it is set: the exact set of false positives, a run and not only one byte |
| `Group.FalsePositiveRun` | include/itch/simd/group.hpp:84-87 | that run at an input: tags h2, h2^1, h2^1, EMPTY report the first three lanes, for every h2 |
| `Group.BorrowedIsFull` | include/itch/simd/group.hpp:84-91 | every true match is reported, and whatever is reported is a FULL slot |
| `Group.LowestIsIsolated` | include/itch/simd/group.hpp:48-51 | the bit that countr_zero finds is the lowest set lane, and none below it is set |
| `Group.ClearLowest` | include/itch/simd/group.hpp:51-61 | bits & (bits - 1) takes away the lowest set lane and no other |
| `Group.Walk` | include/itch/simd/group.hpp:53-63 | the range-for over a mask yields exactly the set lanes, each once, in ascending order |
| `Group.Match` | include/itch/simd/group.hpp:88-91 | match(h2) for all three kernels: every slot tagged h2 is reported and only FULL slots are; exact for SSE2 and AVX2 |
| `Group.AnyEmpty` | include/itch/simd/group.hpp:92-96 | match_empty().any() holds if and only if the group has an EMPTY tag, for all three kernels |
| `Group.LowestFree` | include/itch/simd/group.hpp:97-99 | the lowest slot that an insert may claim, and whether there is one, for all three kernels |
| `OrderTable.LiveIsBeforeEmpty` | include/itch/order_map.hpp:23-28 | a live order lies at or before the first group of its probe path that holds an EMPTY tag |
| `OrderTable.StopIsSafe` | include/itch/order_map.hpp:80-88 | a search that missed in all groups up to one with an EMPTY tag has shown that the reference is not live |
| `OrderTable.ProbeEnds` | include/itch/order_map.hpp:80-88 | while one EMPTY tag is left anywhere, a probe that only passes groups without one makes fewer than 2^k steps |
| `OrderTable.HashSplits` | include/itch/order_map.hpp:163-174 | home group and tag are the top bits of the hash: group bits first, then the seven tag bits |
| `OrderTable.ClaimKeepsInv` | include/itch/order_map.hpp:102-116 | claiming the first free slot on the probe path keeps the table invariant and adds exactly that reference to the map |
| `OrderTable.EraseKeepsInv` | include/itch/order_map.hpp:121-133 | erasing to DELETED anywhere, or to EMPTY in a group that already holds an EMPTY, keeps every other live order reachable and removes exactly one reference |
| `OrderTable.WriteKeepsInv` | include/itch/order_book.hpp:193-197 | filling in the other fields of a claimed slot changes that order only |
| `OrderMaps.GroupsFor` | include/itch/order_map.hpp:178-182 | groups_for gives at least two groups, a load budget of at least the expected orders, and no more groups than the slots it asks for need |
| `OrderMaps.OrderMap.EmptyLeft` | include/itch/order_map.hpp:176 | in every valid state at least capacity/8 slots, and at least two, are EMPTY |
| `OrderMaps.OrderMap.constructor` | include/itch/order_map.hpp:69-71 | a new map is the empty partial map and can take `expected` inserts before its budget runs out |
| `OrderMaps.OrderMap.Allocate` | include/itch/order_map.hpp:184-193 | a fresh, empty table of the asked capacity with its full load budget |
| `OrderMaps.OrderMap.Clear` | include/itch/order_map.hpp:147-153 | clear leaves the empty map, no tombstones and the full budget, in the same allocation |
| `OrderMaps.OrderMap.Find` | include/itch/order_map.hpp:76-89 | find terminates, finds a slot if and only if the reference is live, and then the slot holds the map's order, never a stale one |
| `OrderMaps.OrderMap.FindFree` | include/itch/order_map.hpp:102-118 | the insert probe terminates at the lowest free slot of the first group on the path that has any, with no EMPTY tag in any earlier group |
| `OrderMaps.OrderMap.Claim` | include/itch/order_map.hpp:102-116 | the part of insert after the rehash check: adds the reference and spends budget or a tombstone |
| `OrderMaps.OrderMap.Insert` | include/itch/order_map.hpp:98-119 | insert adds exactly the new reference; it rehashes if and only if the budget is spent, and takes at most one from the budget |
| `OrderMaps.OrderMap.Erase` | include/itch/order_map.hpp:121-133 | erase removes exactly the slot's order and leaves all slots in place |
| `OrderMaps.OrderMap.RehashForInsert` | include/itch/order_map.hpp:195-212 | a rehash keeps every live order, clears all tombstones, doubles exactly when more than half the budget is live, and leaves at least half of the new budget |
| `OrderMaps.OrderMap.Reinsert` | include/itch/order_map.hpp:205-209 | re-inserting the live slots of the old table gives the same map and triggers no further rehash |
| `OrderMaps.RehashFits` | include/itch/order_map.hpp:198-204 | whichever way a rehash goes, the live orders fill at most half of the new budget |
| `OrderMaps.FillToExpected` | include/itch/order_map.hpp:30-32 | a map built for n orders takes its first n inserts with no rehash |
| `Churn.CrowdFillsGroup` | include/itch/order_map.hpp:23-28 | more live orders of one home group than fit into it leave no EMPTY tag there |
| `Churn.EraseToTombstone` | include/itch/order_map.hpp:121-133 | erasing from such a group gives no budget back: the order becomes a tombstone |
| `Churn.ClaimsInSecondGroup` | include/itch/order_map.hpp:102-116 | an order of the other group is inserted there, whatever tombstones the first group holds |
| `Churn.ChurnRehashes` | include/itch/order_map.hpp:30-32 | refutes that a map sized up front never rehashes: built for 13 orders and never holding more, it rehashes after 13 inserts, two erases and two more inserts |
| `Churn.CrowdIsThere` | include/itch/order_map.hpp:163-171 | the concrete references for which it does |
| `Churn.ChurnHappens` | include/itch/order_map.hpp:30-32 | and so a map over those references does rehash, with at most its 13 expected orders alive |
| `LevelSearch.LowerBoundBranchless` | include/itch/simd/level_search.hpp:54-63 | the branchless binary search returns the first index with keys[i] >= key, duplicates allowed |
| `LevelSearch.ScalarFromBack` | include/itch/simd/level_search.hpp:86-94 | so does the scalar back scan, for every chunk limit |
| `LevelSearch.SignBias` | include/itch/simd/level_search.hpp:98-103 | flipping the top bit of both operands turns the signed 32-bit compare into the unsigned one |
| `LevelSearch.FlipIsXor` | include/itch/simd/level_search.hpp:109-113 | the XOR with the bias is the addition of 2^31 that the model uses |
| `LevelSearch.LtCounts` | include/itch/simd/level_search.hpp:17-19 | in a sorted chunk the popcount of the masked less-than lanes is the split point, whatever the lanes above hold |
| `LevelSearch.GeCounts` | include/itch/simd/level_search.hpp:136-138 | the same from the not-less-than lanes of the unsigned max |
| `LevelSearch.Sse2FromBack` | include/itch/simd/level_search.hpp:118-130 | the SSE2 search returns the lower bound for every length, key and chunk limit, whatever the padding holds |
| `LevelSearch.MaxFromBack` | include/itch/simd/level_search.hpp:153-165 | so do the SSE4.1 and AVX2 searches |
| `LevelSearch.LowerBoundFromBack` | include/itch/simd/level_search.hpp:206-219 | and so does whichever kernel the build selects |
| `BlockMove.MoveUp` | include/itch/simd/block_move.hpp:37-60 | the top-down 16/8/4-byte block copy of overlapping cells equals memmove |
| `BlockMove.MoveDown` | include/itch/simd/block_move.hpp:62-84 | the bottom-up one too |
| `BlockMove.ShiftUp` | include/itch/simd/block_move.hpp:88-94 | elements pos to pos+count-1 move up by one and no other element changes outside the range |
| `BlockMove.ShiftDown` | include/itch/simd/block_move.hpp:96-102 | elements pos+1 to pos+count move down by one and nothing else changes outside the range |
| `Levels.SideIsItsMap` | include/itch/order_book.hpp:40-41 | a sorted side is determined by its map from key to (quantity, count) |
| `Levels.FindExact` | include/itch/order_book.hpp:51-52 | in a sorted side the search finds a key if and only if some level has it, and finds that level |
| `Levels.AddAt` | include/itch/order_book.hpp:49-69 | add changes the map at its key only: a new level, or quantity and count raised in fixed width; keys stay strictly ascending |
| `Levels.ReduceAt` | include/itch/order_book.hpp:75-94 | reduce changes the map at its key only, and removes the level with its last order; keys stay strictly ascending |
| `LevelSides.Regrow` | src/itch/order_book.cpp:12-17 | growth copies the kept elements and zeroes the rest |
| `LevelSides.LevelSide.Grow` | src/itch/order_book.cpp:20-26 | growing keeps the levels in three fresh parallel arrays of 16 places at first and then twice as many, zero beyond the levels |
| `LevelSides.LevelSide.ReserveInitial` | include/itch/order_book.hpp:116-117 | reserving makes room for the first 16 levels, if there is none, and changes no level |
| `LevelSides.LevelSide.Search` | include/itch/order_book.hpp:51 | the in-place search over the key array finds what the search over the levels finds; a non-empty side always has the eight readable keys that the kernels need |
| `LevelSides.LevelSide.Best` | include/itch/order_book.hpp:99-102 | the level at the back is the best one |
| `LevelSides.LevelSide.Add` | include/itch/order_book.hpp:49-69 | the three arrays after add hold exactly Levels.Add of the levels before, through growth, which happens only when a new level finds them full, and shifts; the flag is right |
| `LevelSides.LevelSide.Reduce` | include/itch/order_book.hpp:75-94 | the three arrays after reduce hold exactly Levels.Reduce of the levels before; the result code is right |
| `Aggregation.AddKeepsConsistent` | include/itch/order_book.hpp:191-201 | after an add whose level counter has room every level is again the sum and the number of the live orders at its price, and exists only if there are any |
| `Aggregation.ApplyReduceKeepsConsistent` | include/itch/order_book.hpp:270-275 | reducing a live order's level finds the level, drains it exactly, and with the order map updated keeps the aggregation |
| `Aggregation.ReduceKeepsConsistent` | include/itch/order_book.hpp:203-215 | executions and cancels, overfills included, keep the aggregation and never miss a level |
| `Aggregation.RemoveKeepsConsistent` | include/itch/order_book.hpp:217-224 | deletes keep it |
| `Aggregation.ReplaceKeepsConsistent` | include/itch/order_book.hpp:226-239 | replaces keep it, also when the new reference equals the old one |
| `Aggregation.StepKeepsConsistent` | include/itch/order_book.hpp:191-239 | every legal event keeps the levels the aggregation of the live orders |
| `Aggregation.ReachableIsConsistent` | include/itch/order_book.hpp:177-239 | in every state reachable from an empty engine by legal events, however many orders it holds, the levels are the aggregation of the live orders, and missing_level is 0 |
| `Aggregation.DrainNeverFails` | include/itch/order_book.hpp:83-84 | the drain assertion of reduce holds at every call that a reachable engine can make |
| `Aggregation.AddAggregatesIff` | include/itch/order_book.hpp:52-56 | the level of an added order is its aggregate if and only if the level's 32-bit order counter had room for one more; the 64-bit quantity never wraps before it |
| `Aggregation.AddKeepsConsistentIff` | include/itch/order_book.hpp:191-201 | so an add keeps a consistent engine consistent if and only if the counter has room: what a legal event asks for is exactly what it needs |
| `Aggregation.ReplaceKeepsConsistentIff` | include/itch/order_book.hpp:226-239 | the same for a replace: it keeps the aggregation if and only if the level of the new order has room once the old order is out |
| `Aggregation.StepKeepsConsistentIff` | include/itch/order_book.hpp:191-239 | for every event with fresh references the books stay consistent if and only if the level that a new order joins has room |
| `Aggregation.RunIsConsistentIff` | include/itch/order_book.hpp:177-239 | over a whole run from an empty engine the levels are the aggregation all along if and only if each event finds room |
| `Aggregation.NoOrdersNoBooks` | include/itch/order_book.hpp:75-94 | a consistent engine without orders has no level left in any book |
| `Aggregation.FewOrdersHaveRoom` | include/itch/order_book.hpp:52-56 | it has with fewer than 2^32 - 1 orders alive |
| `Aggregation.CrowdedLevel` | include/itch/order_book.hpp:52-56 | after n one-share orders at one price, for every n below 2^64, the engine has n orders and their level counts n modulo 2^32 |
| `Aggregation.CountWraps` | include/itch/order_book.hpp:54 | the run beyond the limit: 2^32 - 1 adds from an empty engine are legal, and after one more the level counts 0 of its 2^32 orders |
| `Aggregation.LevelsAtMostOrders` | include/itch/order_book.hpp:40-69 | a side never has more levels than there are live orders |
| `BookEngines.OrderBook.Top` | include/itch/order_book.hpp:150-155 | top() read from the arrays is the back level of each side (what that means for the orders is Quotes.TopIsBest) |
| `BookEngines.OrderBook.IsCrossed` | include/itch/order_book.hpp:157-160 | crossed() holds if and only if both sides have levels and the best bid is at or above the best ask |
| `BookEngines.BookEngine.constructor` | src/itch/order_book.cpp:28-29 | a new engine over a new map and 65536 books stands for the empty engine |
| `BookEngines.BookEngine.Add` | include/itch/order_book.hpp:191-201 | add over the mutable map and arrays gives the state and the update of Books.AddOrder |
| `BookEngines.BookEngine.ApplyReduce` | include/itch/order_book.hpp:270-275 | apply_reduce gives those of Books.ApplyReduce and leaves the order map alone |
| `BookEngines.BookEngine.Reduce` | include/itch/order_book.hpp:203-215 | reduce gives those of Books.ReduceOrder |
| `BookEngines.BookEngine.Remove` | include/itch/order_book.hpp:217-224 | remove gives those of Books.RemoveOrder |
| `BookEngines.BookEngine.Replace` | include/itch/order_book.hpp:226-239 | replace gives those of Books.ReplaceOrder |
| `BookEngines.BookEngine.Prepare` | include/itch/order_book.hpp:258-262 | prepare gives both sides of the book their first storage and changes nothing that can be observed |
| `BookEngines.FewOrdersAreStorable` | src/itch/order_book.cpp:20-26 | with fewer than 2^31 orders alive the 32-bit capacity of a side suffices for every event |
| `Tops.ClearFlagMeansSameTop` | include/itch/order_book.hpp:228-239 | for every event, Replace included, a clear top_changed means that no top of any book changed, and other books are untouched |
| `Tops.ApplyKeepsSorted` | include/itch/order_book.hpp:49-94 | every event, legal or not, keeps the levels of all sides strictly ascending |
| `Tops.FlagIsExactIff` | include/itch/order_book.hpp:49-94 | for every event on a consistent engine, zero shares, unknown references, full levels and Replace included, top_changed is raised just when top() of the book changed, if and only if the event is not a false alarm, which the request, the stored order and the best level decide beforehand |
| `Tops.ReplaceFlagIsExactIff` | include/itch/order_book.hpp:226-239 | a replace of positive shares by positive shares has an exact flag unless, and only unless, an order of the best level is replaced by the same price and shares |
| `Tops.FlagIsExact` | include/itch/order_book.hpp:49-94 | so for add, reduce and remove of positive shares top_changed is raised if and only if top() of the book changed |
| `Tops.ReplaceMayFlagNoChange` | include/itch/order_book.hpp:234-238 | the false alarm at an input: the only order of a book replaced by an equal one, for any number of shares |
| `Filter.WantedStep` | include/itch/book_builder.hpp:13-18 | a wanted message that carries its order's locate does the same to the filtered and to the full engine |
| `Filter.UnwantedStep` | include/itch/book_builder.hpp:13-18 | an unwanted message with fresh references changes nothing that the filtered engine holds |
| `Filter.FilterSimulation` | include/itch/book_builder.hpp:13-18 | over any feed with fresh references whose messages carry their order's locate, the filtered run has the full run's wanted books and orders, and every other book empty |
| `FilteredParse.FilteredParseSimulates` | include/itch/parser.hpp:73-90 | the same from bytes to books: filtering at the parser, for any records with such messages, and others that the parser skips |
| `FilteredParse.GeneratedStreamsFilter` | include/itch/sim/synthetic_feed.hpp:5-10 | every stream that the generator can write meets that theorem's conditions |
| `Quotes.DepthIsOrders` | include/itch/order_book.hpp:133-148 | price by price: a book has a bid level exactly where live orders of side 'B' rest, with the sum of their shares and their number, and an ask level likewise for all other sides |
| `Quotes.TopIsBest` | include/itch/order_book.hpp:150-155 | the top of every book is the highest price of a live buy with the shares there and the lowest price of a live sell with the shares there, and 0 on a side without orders |
| `Quotes.CrossedIff` | include/itch/order_book.hpp:157-160 | a book is crossed if and only if some live buy is priced at or above some live sell |
| `Updates.OrdersAfter` | include/itch/order_book.hpp:191-239 | the live orders after each event: the new order as requested, a reduced one with what is left, none once nothing is left, all others as they were |
| `Updates.StatsAfter` | include/itch/order_book.hpp:183-187 | unknown_ref counts the events whose reference is not live, overfill the reductions beyond what rests, and missing_level stays |
| `Updates.MissingLevelIsCounted` | include/itch/order_book.hpp:270-275 | a reduction whose level is not there is counted and changes no book |
| `Updates.UpdateTells` | include/itch/order_book.hpp:191-239 | an update is empty exactly when the reference is not live, and otherwise tells the price, locate and side of the request or the stored order |
| `Updates.StepConserves` | include/itch/order_book.hpp:191-239 | the shares resting after an event are those before, plus what it brings, minus what it takes |
| `Updates.SharesAreConserved` | include/itch/order_book.hpp:177-239 | over every run with fresh references all shares that came in went out again or still rest |
| `Publishing.OrderStep` | tools/feed_handler_main.cpp:211-238 | one order message of any kind keeps the published tops equal to the books' tops, and the events telling them |
| `Publishing.PublishedTopIsTop` | tools/feed_handler_main.cpp:211-238 | after every message of every session, with fresh references and room or without, the published BBO of each locate is its book's top(); and while no event was dropped the events alone tell every top |
| `Publishing.SessionIsConsistent` | include/itch/book_builder.hpp:48-134 | after every legal session the levels are the aggregation of the live orders and none was ever missing |
| `Publishing.PeakIsMaximum` | tools/feed_handler_main.cpp:214-217 | peak_live, sampled on adds only, is attained and is the maximum number of live orders over the run |
| `Publishing.EventsAndDrops` | tools/feed_handler_main.cpp:218-237 | each raised flag is exactly one accepted event or one counted drop |
| `Announcements.PublishedIsBest` | tools/feed_handler_main.cpp:219-220 | after every legal session each published BBO is the best bid and ask among the live orders, with the time of the last message that raised the flag |
| `Announcements.TimestampIsLastRaise` | tools/feed_handler_main.cpp:220 | in every session the published time is that of the last message that raised the flag of that book, and 0 before the first |
| `Announcements.EventTells` | tools/feed_handler_main.cpp:192-237 | an accepted event carries kind, reference and shares of its message, price, locate and side of the request or the order stored before it, its times, and the top of the book after it |
| `Announcements.NoEvent` | tools/feed_handler_main.cpp:212-237 | a message that raises no flag, or that the ring refuses, adds no event |
| `Announcements.MarketHours` | tools/feed_handler_main.cpp:240-243 | the market is open exactly when the last system event that is a 'Q' or an 'M' was a 'Q' |
| `Announcements.CrossedIsCounted` | tools/feed_handler_main.cpp:221 | crossed_updates is the number of raised flags that left their book crossed while the market was open |
| `BookBuilders.Publisher.OnBook` | tools/feed_handler_main.cpp:211-238 | the publisher's fields and BBO array after on_book are those of the specification, read from the mutable engine |
| `BookBuilders.Publisher.OnSystemEvent` | tools/feed_handler_main.cpp:240-243 | market hours open on 'Q' and close on 'M' |
| `BookBuilders.BookBuilder.ApplyMessage` | include/itch/book_builder.hpp:53-73 | each of the seven messages makes its engine call |
| `BookBuilders.BookBuilder.On` | include/itch/book_builder.hpp:53-81 | a handler applies the message to the engine and then tells the sink: engine and publisher end where the specification does |
| `BookBuilders.RunSession` | include/itch/book_builder.hpp:48-134 | a whole session over the objects, with fresh references and within the capacity of a side, ends in the specified state, with every published top right |
| `SpscRing.ProducerKeepsInv` | include/itch/spsc_ring.hpp:39-49 | every producer access keeps the ring invariant, with any allowed value of the other index |
| `SpscRing.ConsumerKeepsInv` | include/itch/spsc_ring.hpp:63-81 | so does every consumer access, in the middle of a batch too |
| `SpscRing.ConsumedIsPrefix` | include/itch/spsc_ring.hpp:40-75 | in every interleaving what was consumed is a prefix of what was accepted, and at most N items are in the ring |
| `SpscRing.NoOverwrite` | include/itch/spsc_ring.hpp:41-47 | the slot about to be written holds no unread item |
| `SpscRing.NoUnwrittenRead` | include/itch/spsc_ring.hpp:67-73 | a batch reads only published items, and exactly those; never the slot being written |
| `SpscRing.ExitMeansDrained` | tools/feed_handler_main.cpp:293-307 | when the consumer loop exits, every accepted push has been consumed and the producer is finished |
| `SpscRing.PushAnswers` | include/itch/spsc_ring.hpp:39-49 | each access of try_push: false only at the reload, and there if and only if the ring is full of what the reload read; otherwise the item is written, the tail published, and the answer true |
| `SpscRing.RefusedMeansFull` | include/itch/spsc_ring.hpp:40-45 | in every interleaving a refused push found its tail a full lap ahead of the head as it was at some moment up to then |
| `SpscRing.CurrentHeadDecides` | include/itch/spsc_ring.hpp:40-45 | a reload that reads the current head refuses if and only if the ring is full |
| `SpscRing.BatchBegins` | include/itch/spsc_ring.hpp:67-73 | a batch goes by the cached tail while that is ahead, and otherwise by the tail it loads |
| `SpscRing.BatchEnds` | include/itch/spsc_ring.hpp:67-75 | a batch hands over the next min(max, tail - head) items, none only if max is 0 or that tail is the head, and publishes the head once |
| `SpscRing.ExitTest` | tools/feed_handler_main.cpp:293-307 | the consumer loop ends if and only if feed_done was seen and the ring then empty |
| `SpscRing.NeverStuck` | include/itch/spsc_ring.hpp:39-81 | in every state of every execution either thread can go on, reading what is current, until it has finished |
| `SpscRing.AcceptedIsTaken` | include/itch/spsc_ring.hpp:39-49 | in every interleaving the accepted items are those of the try_push calls that returned true, in order |
| `Strategy.EventsAreTaken` | tools/feed_handler_main.cpp:218-237 | the publisher's events are its pushes that the ring took, in order, and its drop counter counts those that it refused |
| `Strategy.ConsumedIsAnnounced` | tools/feed_handler_main.cpp:218-237 | publisher, ring and consumer loop together, in every interleaving: what the strategy has consumed is a prefix of the publisher's events, and all of them when its loop has ended |
| `Strategy.StrategySeesTops` | tools/feed_handler_main.cpp:293-307 | while nothing was dropped, what the strategy has consumed tells every top as it was at one moment of the session, and as it is when its loop has ended |
| `BboCache.SameStore` | include/itch/bbo_cache.hpp:50-62 | equal even sequence numbers around the four loads pin all of them to one completed store |
| `BboCache.AcceptedSnapshots` | include/itch/bbo_cache.hpp:38-70 | in every interleaving of one writer and any number of readers an accepted snapshot equals one completed store in all five values, and a reader never goes back in time |
| `BboCache.AttemptEnds` | include/itch/bbo_cache.hpp:50-62 | in every interleaving an attempt appends exactly one snapshot, that of the store its sequence names, if both sequence loads agree, and none otherwise |
| `BboCache.AttemptGoesOn` | include/itch/bbo_cache.hpp:50-58 | no other access returns a snapshot, and an attempt goes on if and only if its first load is even |
| `BboCache.QuietAttemptIsAccepted` | include/itch/bbo_cache.hpp:50-70 | an attempt during which the writer is quiet and whose loads are current returns the last completed store |
| `BboCache.ReaderGoesOn` | include/itch/bbo_cache.hpp:64-70 | in every state of every execution a reader can take its next access with what is current, so load() spins only while stores interfere |
| `BboCache.StoreStep` | include/itch/bbo_cache.hpp:38-48 | a store makes the sequence odd, writes the fields, and makes it even again, one completed store later |
| `BboCache.StoreGoesOn` | include/itch/bbo_cache.hpp:38-48 | a store can always begin when none is in progress, and one in progress can be finished |
| `BboCache.CurrentIsReadable` | include/itch/bbo_cache.hpp:64-70 | whatever a reader has seen, the current values are among those that it may load next |
| `BboCache.VersionCounts` | include/itch/bbo_cache.hpp:71-74 | half the current sequence is the number of completed stores; a stale version is neither above it nor below an accepted store |
| `Bytes.LoadIsBigEndian` | include/itch/bytes.hpp:17-33 | copying bytes into a little-endian word and swapping it reads them big-endian, for every width |
| `Bytes.StoreIsBigEndian` | include/itch/bytes.hpp:52-65 | swapping and copying out writes them big-endian, for every width |
| `Bytes.OverreadIsPlain` | include/itch/bytes.hpp:35-50 | the masked 8-byte load from two bytes earlier equals the plain 48-bit load |
| `Framing.RecordsAreABlockSequence` | include/itch/parser.hpp:92-104 | the consumed bytes are exactly the blocks of the records found, and no complete record is left |
| `Framing.RecordsOfJoin` | include/itch/parser.hpp:92-104 | and any messages, written as blocks, are found again: framing and unframing are inverse |
| `Mold.MoldSequencer.OnPacket` | include/itch/mold_udp64.hpp:59-100 | on_packet delivers, of the complete messages of a packet, exactly those at or after the expected number, numbered on from it in 64 bits, and reports gap, malformed input, end of session and session change as specified |
| `Mold.MoldSequencer.DeliverBlocks` | include/itch/mold_udp64.hpp:86-98 | the block loop with its 64-bit sequence compare delivers the suffix of the complete messages that is still due |
| `MoldReports.HeaderLayout` | include/itch/mold_udp64.hpp:27-37 | a packet of at least 20 bytes has ten of session, eight of sequence number and two of count, most significant first |
| `MoldReports.BlocksAreRecords` | include/itch/mold_udp64.hpp:86-98 | the messages of a packet are its first complete length-prefixed records, up to the count |
| `MoldReports.BlockLayout` | include/itch/parser.hpp:92-104 | a record is two bytes of length, most significant first, and the message |
| `MoldReports.FrontLayout` | include/itch/parser.hpp:92-104 | and so it is read back, if all of it is there |
| `MoldReports.StepReports` | include/itch/mold_udp64.hpp:59-100 | the whole answer to any packet, read off its bytes: where the sequencer stands, which messages it delivers under which numbers, gap, malformed, end of session and session change |
| `MoldRuns.StepLedger` | include/itch/mold_udp64.hpp:71-99 | within a session one packet moves the expected number over its gap and its deliveries, modulo 2^64 |
| `MoldRuns.CountStaysBelowIff` | include/itch/mold_udp64.hpp:76-99 | for any packets of one session the count of delivered and lost numbers stays below 2^64 if and only if every packet's own last number does |
| `MoldRuns.Accounting` | include/itch/mold_udp64.hpp:59-100 | for any packets of one session the expected number moved by delivered plus lost if and only if every packet stays below number 2^64; then delivered numbers strictly increase and each number passed is delivered or reported lost, never both |
| `MoldRuns.FirstPacketSetsBaseline` | include/itch/mold_udp64.hpp:68-75 | the first packet is taken as if its own number had been expected |
| `MoldRuns.DuplicateDroppedIff` | include/itch/mold_udp64.hpp:71-96 | the duplicate of a packet with a complete message is dropped if and only if that packet stays below number 2^64 |
| `MoldRuns.WrapDeliversTwice` | include/itch/mold_udp64.hpp:71-96 | where it does not, at an input: the message numbered 2^64-1 is delivered twice when its packet is |
| `MoldRuns.LatePacketReplaysIff` | include/itch/mold_udp64.hpp:68-75 | after one more packet, a heartbeat included, a packet already seen is dropped again if and only if that packet was of the session and did not take the count over 2^64 to a place before the end of the seen one; after a packet of another session it is delivered in full a second time |
| `MoldRuns.SeenStaysDropped` | include/itch/mold_udp64.hpp:71-96 | a packet already seen is dropped after any packets of the session that stay below number 2^64 |
| `MoldLines.FittingStep` | include/itch/mold_udp64.hpp:76-99 | a packet at a place that the sequencer has reached delivers just what lies beyond, with no gap |
| `MoldLines.Arbitration` | include/itch/mold_udp64.hpp:12-16 | two lines of one session, packed differently and ending where they like, merged in any order of arrival: every message that either brings is delivered once, in order, with no gap and nothing malformed |
| `MoldLines.RedundantLinesDeliverOnce` | include/itch/mold_udp64.hpp:12-16 | two complete lines into a new sequencer deliver the whole session, once |
| `MoldLines.GenuineStep` | include/itch/mold_udp64.hpp:76-99 | a packet of the channel, wherever it starts, reports exactly the numbers before its start as a gap and then delivers its own messages that are still due |
| `MoldLines.GenuinePackets` | include/itch/mold_udp64.hpp:12-16 | for packets of a channel in any order, lost, repeated or overtaken: every delivery carries the channel's own message of that number, and no gap is reported if and only if each packet starts within what those before it have reached; then everything up to the reach is delivered once, in order, so a loss on one line that the other has covered does not show |
| `MoldLines.NewSequencerJoins` | include/itch/mold_udp64.hpp:68-75 | a new sequencer takes any packets of a channel just as one does that expects the first data or heartbeat packet among them |
| `MoldSend.HeaderOfPacket` | tools/mold_send.py:66 | what the sender packs is read back as the same header and body |
| `MoldSend.BatchFits` | tools/mold_send.py:66-70 | a flushed batch is a data packet that carries exactly the next messages |
| `MoldSend.MoldSender.Flush` | tools/mold_send.py:57-70 | flush sends the batch, if any, as one packet with its number and count, and keeps numbers and counters in step |
| `MoldSend.MoldSender.Take` | tools/mold_send.py:72-76 | a record goes into the batch, after the batch was sent if and only if it is not empty and the record would exceed the mtu or 0xFFFE messages |
| `MoldSend.MoldSender.SendFile` | tools/mold_send.py:72-81 | for any file and mtu, a new sequencer fed with the packets delivers exactly the file's complete records in order, with no gap and no malformed packet; each data packet is as full as it can be, and three equal packets end the session |
| `Parsing.EveryRecordCountedOnce` | include/itch/parser.hpp:62-90 | the handler gets exactly the wanted well-formed messages in order; each record lands in one counter; the per-type counts add up to the messages; messages are dispatched or filtered |
| `Parsing.CountersCount` | include/itch/parser.hpp:62-90 | each counter moves by the number of records that it is named after: empty, unknown type, bad length, messages, filtered, and each type byte |
| `Parsing.ParseAllConcat` | include/itch/parser.hpp:92-104 | parsing one buffer after another is parsing all their records |
| `Parsing.LookaheadTouches` | include/itch/parser.hpp:118-134 | after i rounds i records are parsed and the next d of them, as far as there are any, are hinted |
| `Parsing.CursorIsAhead` | include/itch/parser.hpp:106-112 | whenever a record is parsed, the prefetch cursor is min(d, remaining) records ahead of it |
| `Parsing.WholeLookahead` | include/itch/parser.hpp:113-137 | over a buffer each complete record is hinted once and parsed once, in order |
| `Parsers.Parser.Parse` | include/itch/parser.hpp:73-90 | parse counts, filters and dispatches as specified |
| `Parsers.Parser.ParseStream` | include/itch/parser.hpp:92-104 | parse_stream parses exactly the complete records and returns the bytes that they take |
| `Parsers.Parser.ParseStreamPrefetch` | include/itch/parser.hpp:106-137 | parse_stream_prefetch makes the same calls and returns the same count, with the hints of the lookahead |
| `Parsers.Parser.Replay` | tools/feed_handler_main.cpp:358-381 | the slice loop, with or without lookahead: it goes on until the flag is down, nothing is left or a slice consumes nothing; stopped anywhere it has parsed exactly the complete records of what it consumed and exactly the others are still to come; run to its end with slices of 65537 bytes or more it has parsed the records of the whole buffer |
| `Slices.PrefixRecords` | tools/feed_handler_main.cpp:359-360 | the records of a slice are the first records of the buffer, and the others start where its last complete record ends |
| `Slices.BoundaryStep` | tools/feed_handler_main.cpp:363-381 | from one record boundary a slice takes the replay to another, and parses just the records between |
| `Slices.SlicingIsExactIff` | tools/feed_handler_main.cpp:359-381 | slicing gives what one pass gives, for every buffer, if and only if a slice can hold the longest record (65537 bytes) |
| `Parsers.ForEachFrame` | include/itch/parser.hpp:192-211 | the frame walk hands out exactly the well-formed messages and counts frames, malformed and empty records |
| `Parsers.FramesAgree` | include/itch/parser.hpp:192-194 | its frames and counts agree with those of the parser on the same records |
| `Messages.FieldsTileMessage` | include/itch/messages.hpp:382-395 | the compile-time fold is true if and only if the fields follow the header without gap or overlap and end at the length |
| `Messages.AllTablesTile` | include/itch/messages.hpp:61-346 | all 23 message tables tile, carry their own type byte and are longer than the header |
| `Messages.KnownLengths` | include/itch/messages.hpp:61-346 | the lengths of the 23 messages, type byte by type byte, and 0 for every other byte |
| `Codec.Encode` | include/itch/messages.hpp:413-424 | encode writes the wire image into its place in the buffer and nothing outside it |
| `Codec.EncodeThenDecode` | include/itch/messages.hpp:399-424 | for every tiling table decode(encode(m)) is m with the timestamp modulo 2^48, so it is m if and only if the timestamp is below 2^48 |
| `Codec.DecodeThenEncode` | include/itch/messages.hpp:399-424 | for every tiling table encode(decode(p)) restores every byte of a wire image with the right type byte |
| `Codec.ValueRoundTrip` | include/itch/messages.hpp:362-380 | each field kind decodes to what was encoded |
| `Codec.BytesRoundTrip` | include/itch/messages.hpp:362-380 | and encodes to the bytes that were decoded |
| `Dispatch.WireIsRead` | include/itch/parser.hpp:73-90 | an encoded message is a well-formed record of its type and decodes to itself |
| `Layouts.AddLayout` | include/itch/messages.hpp:177-200 | bytes 1, 5, 11, 19, 20 and 32 of an add order, with or without MPID, are locate, time, reference, side, shares and price, most significant first |
| `Layouts.ReduceLayout` | include/itch/messages.hpp:204-232 | an execution, with or without price, and a cancel: locate, time, reference, shares |
| `Layouts.ReplaceLayout` | include/itch/messages.hpp:235-250 | a delete and a replace: locate, time, reference, and the new reference, shares and price |
| `Layouts.OtherLayout` | include/itch/messages.hpp:61-75 | a system event and a stock directory; no other record makes a call |
| `Layouts.EventIsRead` | include/itch/book_builder.hpp:53-73 | so what any well-formed record means to the books is read off its bytes |
| `Dispatch.CleanParse` | include/itch/parser.hpp:73-90 | well-formed records are all dispatched to a handler that wants everything, with no error counted |
| `Buckets.IndexIsBucket` | include/itch/histogram.hpp:69-75 | the bit-width computation of index agrees with halving the value octave by octave |
| `Buckets.UpperIsHigh` | include/itch/histogram.hpp:85-91 | upper_bound agrees too, with the 64-bit wrap of the last bucket |
| `Buckets.BucketsTile` | include/itch/histogram.hpp:69-91 | the buckets tile 0 to 2^64-1 without gap or overlap, and index(v) is i if and only if v lies in bucket i |
| `Buckets.IndexMono` | include/itch/histogram.hpp:69-75 | index is monotone |
| `Buckets.Narrow` | include/itch/histogram.hpp:5-9 | a bucket holds one value below 256 and is no wider than 1/128 of its lower bound above |
| `Buckets.HowManyBuckets` | include/itch/histogram.hpp:21-24 | 256 single values and 56 octaves of 128 buckets make 7424 |
| `Histograms.RankedExists` | include/itch/histogram.hpp:34-35 | every rank from 1 to the count has an r-th smallest sample |
| `Histograms.RankedUnique` | include/itch/histogram.hpp:34-35 | and only one |
| `Histograms.FirstReachingBucket` | include/itch/histogram.hpp:43-46 | the bucket where the running count first reaches r holds the r-th smallest sample |
| `Histograms.LatencyHistogram.Record` | include/itch/histogram.hpp:26-32 | record adds one sample to the counts, the minimum and the maximum |
| `Histograms.LatencyHistogram.Merge` | include/itch/histogram.hpp:61-67 | merge gives the histogram of all samples of both, also of a histogram with itself |
| `Histograms.LatencyHistogram.AtRank` | include/itch/histogram.hpp:43-51 | for any samples and any rank up to their number the scan reports a value at or above the r-th smallest sample, at most max, within 1/128 of it, and exact below 256; beyond their number it reports max |
| `Histograms.LatencyHistogram.Percentile` | include/itch/histogram.hpp:34-52 | percentile is 0, min or max at the ends and otherwise the scan at rank ceil(x), at least 1, whatever real x the rounding of p/100 * n - 1e-9 gives |
| `Histograms.LatencyHistogram.RankIsLeast` | include/itch/histogram.hpp:39-42 | that rank is the least one, from 1 on, that is not below x |
| `Histograms.LatencyHistogram.ExactRankInRange` | include/itch/histogram.hpp:38-42 | without rounding that rank is always one of 1 to n |
| `LiveLists.PushMirrors` | include/itch/sim/synthetic_feed.hpp:123-124 | appending a new order keeps the lists and the order map the same set of orders |
| `LiveLists.PutMirrors` | include/itch/sim/synthetic_feed.hpp:159 | changing a listed order in place does too |
| `LiveLists.EraseMirrors` | include/itch/sim/synthetic_feed.hpp:205-209 | and so does erasing by moving the last order into the gap |
| `LiveLists.AddInStep` | include/itch/sim/synthetic_feed.hpp:120-139 | an add keeps generator and engine in lock step, and its reference is new |
| `LiveLists.RemoveInStep` | include/itch/sim/synthetic_feed.hpp:141-147 | a delete keeps them in lock step |
| `LiveLists.ReduceInStep` | include/itch/sim/synthetic_feed.hpp:162-190 | a cancel or an execution of part or all of a live order does |
| `LiveLists.ReplaceInStep` | include/itch/sim/synthetic_feed.hpp:149-160 | a replace does |
| `LiveLists.DrainedHasNoOrders` | include/itch/sim/synthetic_feed.hpp:200-203 | when all lists have run empty, the engine has no order left |
| `SyntheticWires.AddReads` | include/itch/sim/synthetic_feed.hpp:120-139 | both add messages, written and parsed, mean the add of the listed order |
| `SyntheticWires.ExecuteReads` | include/itch/sim/synthetic_feed.hpp:173-190 | both execute messages mean the reduction by the executed shares |
| `SyntheticWires.StockNames` | include/itch/sim/synthetic_feed.hpp:244-252 | stock names are 'S' and the symbol's number, padded with spaces to eight characters |
| `SyntheticFeeds.SyntheticFeed.AddOrder` | include/itch/sim/synthetic_feed.hpp:120-139 | writes exactly the record of a new order, with or without MPID, and lists it, in lock step |
| `SyntheticFeeds.SyntheticFeed.DeleteOrder` | include/itch/sim/synthetic_feed.hpp:141-147 | writes one delete of a live order and unlists it |
| `SyntheticFeeds.SyntheticFeed.ReplaceOrder` | include/itch/sim/synthetic_feed.hpp:149-160 | writes one replace of a live order by a new reference and relists it |
| `SyntheticFeeds.SyntheticFeed.CancelOrder` | include/itch/sim/synthetic_feed.hpp:162-171 | writes one cancel of all or half of a live order, at least one share, and shrinks it |
| `SyntheticFeeds.SyntheticFeed.ExecuteOrder` | include/itch/sim/synthetic_feed.hpp:173-190 | writes one execution of all or a third of a live order, at least one share, and shrinks it |
| `SyntheticFeeds.SyntheticFeed.Step` | include/itch/sim/synthetic_feed.hpp:104-118 | whatever the draws, one step writes one record and keeps the lock step: an add when the symbol has no order or u is below 0.42, and otherwise what Act and Drift do |
| `SyntheticFeeds.SyntheticFeed.Act` | include/itch/sim/synthetic_feed.hpp:109-114 | the draw decides between delete, replace, cancel, execution and trade of the drawn order |
| `SyntheticFeeds.SyntheticFeed.Drift` | include/itch/sim/synthetic_feed.hpp:115-117 | the mid price moves up a tick above 0.9995 and down a tick above 0.999 |
| `SyntheticFeeds.PricesLieBehind` | include/itch/sim/synthetic_feed.hpp:97-100 | buys lie below the mid price and sells above, by whole ticks of 100 |
| `SyntheticFeeds.SyntheticFeed.SeedSymbol` | include/itch/sim/synthetic_feed.hpp:52-54 | the symbol gets as many new orders as asked, drawn one after the other |
| `SyntheticFeeds.SyntheticFeed.Drain` | include/itch/sim/synthetic_feed.hpp:200-203 | draining empties every list |
| `SyntheticFeeds.SyntheticFeed.Build` | include/itch/sim/synthetic_feed.hpp:47-61 | whatever the draws, the stream's records each name a live order of their locate for at most its shares and use fresh references, and an engine fed with the whole stream ends without an order; it ends empty, with no error counted, if no level counter overflowed, as with fewer than 2^32 orders alive at a time; the system events 'O', 'Q', 'M' and 'C' stand where they should |
| `Streams.RoomyIsInOrder` | include/itch/sim/synthetic_feed.hpp:5-10 | a self-consistent stream that overflows no level counter leaves the books the aggregation of the orders and every error counter 0 |
| `Streams.FewLiveOrdersAreRoomy` | include/itch/sim/synthetic_feed.hpp:5-10 | no counter overflows while fewer than 2^32 orders are alive at a time, however long the stream is |
| `Streams.RoomyLeavesNothing` | include/itch/sim/synthetic_feed.hpp:200-203 | such a stream, drained, leaves the empty engine |
| `EndToEnd.SessionAppliesCalls` | include/itch/book_builder.hpp:48-134 | the builder's engine after a session is what the parser's calls mean, message by message |
| `EndToEnd.StreamIsSession` | include/itch/sim/synthetic_feed.hpp:5-10 | a self-consistent stream makes a session with fresh references, whatever the event ring answers, and a legal one if no level counter overflows |
| `EndToEnd.PacketsToTops` | tools/feed_handler_main.cpp:205-262 | from packets to tops: for genuine packets in reach of each other, merged, repeated or lost, a new sequencer, parser, builder and publisher end with the books of the wanted messages from the place of joining up to the reach, and with the published top of every stock the top of its book |
| `EndToEnd.StreamEndsFlat` | include/itch/sim/synthetic_feed.hpp:200-203 | a drained stream leaves no order, every published top the top of its book, and if no level counter overflowed every published top empty |
| `EndToEnd.GeneratedFeedEndsFlat` | include/itch/sim/synthetic_feed.hpp:5-10 | so does a drained stream over two complete lines, through sequencer, parser, builder and publisher |
| `EndToEnd.GenerateAndSend` | tools/mold_send.py:72-81 | and a generated file that the sender packs into packets, whatever the draws |
| `LiveLoops.Receiver.Hear` | include/itch/book_builder.hpp:73-134 | one message over the objects: parsed, and if dispatched handled by engine and publisher |
| `LiveLoops.Receiver.OnPacket` | tools/feed_handler_main.cpp:433-437 | one packet over the objects: each delivery goes to the parser, gaps and lost messages are counted as the sequencer's run has them |
| `LiveLoops.Receiver.OnPoll` | tools/feed_handler_main.cpp:427-438 | the packets of one poll are all looked at, and the loop learns whether one of them ends the session |
| `LiveLoops.Receiver.Loop` | tools/feed_handler_main.cpp:422-439 | the live loop over a new receiver, for packets in polls of any size: sequencer, parser, books, published tops and gap counters end as the runs over the packets heard have them, with every published top right |
| `LiveLoops.HeardIsPrefix` | tools/feed_handler_main.cpp:426-438 | the packets heard are all that came, or a first part of them in which a session ends |
| `LiveLoops.SentIsHeard` | tools/feed_handler_main.cpp:426-438 | however a sender's packets are cut into polls, stopping at the end of the session loses no delivery |
| `LiveLoops.StreamIsTaken` | include/itch/book_builder.hpp:48-134 | the objects can take every message of a self-consistent stream with fewer than 2^31 orders alive at a time |
| `LiveLoops.GenerateSendReceive` | tools/feed_handler_main.cpp:422-439 | the whole way over the objects: a generated file, packed by the sender and received by the live loop, is heard in full, with no gap, no parse error, no order or level left and every published top empty |

## Left out

- SpscRing: index wrap-around at 2^64 is not modelled; `try_pop` is the batch of one item.
- BboCache: sequence wrap-around at 2^64 is not modelled.
- Tops.FlagIsExact: says nothing about Replace and zero shares; the exact condition for every event is Tops.FlagIsExactIff.
- OrderMaps.OrderMap.Insert: the other fields of a claimed slot are whatever the slot held before, as in the source; pointers are slot numbers, and their invalidation by the next insert is not modelled.
- Mold.MoldSequencer.OnPacket: the deliver callback is the sequence of delivered messages.
- Publishing.PublishedTopIsTop: the ring's answer to a push is an input; `Strategy` ties it to the ring of `SpscRing`. The store into the cache is one step here (`BboCache` has it access by access), and the receive time stamp is not followed.
- Parsers.Parser.Replay: the signal that stops the loop is an input, the value of the flag before each slice.
- Histograms.LatencyHistogram.Percentile: the rounding of the doubles is not modelled, but its result is an input; `mean` and the sum are left out, and counters do not wrap.
- SyntheticFeeds.SyntheticFeed.Build: random draws are inputs, so the Zipf and geometric distributions play no part; fewer than 2^64 orders and steps in all, so that no reference wraps.
- Codec.Encode: a message is its header and a sequence of field values; the C++ struct members are the positions in that sequence. The length table built at compile time is the function `MessageLength`.
- LevelSearch.MaxFromBack: a vector compare is its lane-wise result, and a mask is a sequence of bits.
- Vector registers of the SSE2 and AVX2 tag groups: those groups are modelled by their byte-wise meaning.
- LiveLoops.Receiver.Loop: the polls are an input, so it covers any finite part of a live run; the signal and the statistics lines are left out.
- Prefetch instructions: they change no state; only the cursor of the lookahead is modelled.
- Memory allocation, alignment, huge pages and the compiler barriers of the block moves.
- Sockets, AF_XDP, packet header checks, memory-mapped files, signals, performance counters, clocks, argument parsing and reports.
- The latency mode of the replay, the depth profile and the symbol directory.
- The vectorised add-order decoder (include/itch/simd/add_order_decode.hpp): a fixed byte permutation.
- Hash quality, probe lengths and all timing claims; the hash itself is modelled as it is.
- The benchmarks and the legacy order table.
