# dex-core execution core: a verified model

This project models the execution core of dex-core in Dafny and proves what it is built to guarantee:
the lock-free event ring, the generational arena, the linked order book, the price-time matcher with
its multi-instrument engine, the wire codec of order events and the calendar arithmetic of the
benchmark stamps. `dafny verify dfyconfig.toml` checks everything.

## How it is organised

| files | what they hold |
|---|---|
| `Types.dfy`, `Sequences.dfy`, `Arithmetic.dfy` | domain types with their machine widths; facts about filtered sequences and Euclidean division |
| `Arenas.dfy` | the arena as a value, its reference (a map from handles plus a stack of free slots), whole runs, and the class that works in place on an array |
| `Books.dfy` | the simple book: resting orders in arrival order, with price levels, best price and price-time order as views |
| `Links.dfy`, `OrderBooks.dfy` | the linked structure as a value with its inductive invariant, and the class that mutates it, proved to be the simple book |
| `Checkers.dfy` | the runtime invariant checker |
| `Matching.dfy`, `Matchers.dfy` | matching one order, with greedy matching as its reference; the loops in place on the linked book |
| `Engines.dfy`, `MatchingEngines.dfy` | the engine as a value, with runs; the engine in place, with runs proved equal |
| `AtRest.dfy`, `Rules.dfy`, `Shadows.dfy`, `Conservation.dfy` | theorems over every run: no crossed book and sound orders; what each command reports, written on the book before it; the event stream determines the state, id order; conservation |
| `Seqlocks.dfy`, `SeqlockRuns.dfy`, `Rings.dfy` | the ring as a transition system, theorems over every interleaving, and `publish`/`poll` with other threads in between |
| `Codecs.dfy`, `Calendars.dfy`, `Stamps.dfy` | the 88-byte event record; civil dates from day numbers; the text of a stamp |

State that the program updates in place is a class here, and every method is tied to a function on
values; the theorems about whole runs are about those functions. `MatchingEngines.Drive` closes the
gap: any sequence of commands carried out on arrays, linked nodes and maps ends in the state, and has
emitted the events, of the value-level run.

## Conventions and assumptions

* Arithmetic is that of a release build: unchecked `u64` additions and subtractions wrap
  (`Types.WrapAdd`, `Types.WrapSub`). Nothing is assumed about the size of quantities, so a level's
  stored total is the true total modulo 2^64.
* A panic of the program (an amend request, a book capacity of `u32::MAX`) is the outcome `Panics` of a
  value-level step and a `requires` of the corresponding method; `Engines.RunPanicsExactly` says which
  runs meet one, from the commands alone. Every `expect` and `unwrap` in the modelled code is proved
  not to fire.
* Order ids are minted from a `u64`. The theorems over runs that rest on ids being unique (`Shadows`,
  `Conservation`) are stated for fewer than 2^64 commands, which is when the counter first wraps; those
  that do not (`AtRest`, `Rules`, `MatchingEngines.Drive`) hold for runs of any length.
* The ring's stores and loads become visible in program order. The payload is a sequence of words,
  written and read one word at a time in any order, so a read can be torn. Versions are computed in
  unchecked `u64` arithmetic, and a value is published only while the next sequence number and its
  version still fit a `u64` (`Seqlocks.SeqFits`). For rings of four or more slots that is every `u64`
  sequence number; a ring of one or two slots has 2^63 - 1 laps (`Seqlocks.FitsExactly`), and
  `Seqlocks.WrappedVersionMisreads` shows what a caught-up consumer is told when the version it expects
  has wrapped. The masked index and the shift are written as remainder and quotient; the proofs need no
  power of two.
* The ordered maps and the hash maps are Dafny maps; the first or last key of an ordered map is
  `Books.Best`.

## Where code and comments disagree

* The capacity test of `add_instrument` rejects 0 and `MAX_CAPACITY`, while its comment asks for a
  capacity below `MAX_CAPACITY`; `u32::MAX` passes the test and fails the arena's own assertion. The
  model follows the code.
* The repository's overview describes a `VecDeque` per price level; the code threads an intrusive
  doubly linked list through the arena. The model follows the code.
* The Fill-or-Kill gate is described as proving that the quantity is fillable. It never lets through an
  order that would not fill (`Matching.GateIsSound`), but a wrapped total can make it turn away one that
  would (`Matching.GateMissesWrappedTotal`, on a book that `AtRest.WrappedTotalIsReachable` reaches in
  three commands); `Matching.GateIsExactIff` says for which books it is exact.
* The invariants checked at run time are not inductive (`Checkers.PassingIsNotEnough`);
  `Checkers.ChecksLackExactlyFiling` gives the exact condition under which a passing book satisfies the
  invariant: nodes filed under their own side and price, and occupied slots all indexed.
* Stamps sort as text in time order only through the year 9999: the year is padded to four digits and
  not cut (`Stamps.TextSortsUntilYear10000`).

## Model

| member | source | states |
|---|---|---|
| `Arenas.Arena.constructor` | crates/arena/src/lib.rs:76-107 | a new arena has no live handle and a free list through every slot |
| `Arenas.Arena.Get` | crates/arena/src/lib.rs:109-116 | returns the value the handle maps to, and nothing for a stale handle or the sentinel |
| `Arenas.Arena.Write` | crates/arena/src/lib.rs:118-125 | changes the value of exactly one live handle; a stale handle changes nothing |
| `Arenas.Arena.Alloc` | crates/arena/src/lib.rs:127-145 | fails exactly when every slot is occupied; otherwise pops the free stack and yields a handle that was not live and is not the sentinel |
| `Arenas.Arena.Remove` | crates/arena/src/lib.rs:147-156 | returns and drops exactly that handle's value, pushes its slot, bumps its generation; a stale handle changes nothing |
| `Arenas.FreshRefines` | crates/arena/src/lib.rs:88-106 | the initial chain of next indices is the stack 0, 1, ..., capacity - 1 |
| `Arenas.AllocRefines` | crates/arena/src/lib.rs:127-145 | allocation on slots is a pop of the free stack and an insertion in the handle map |
| `Arenas.RemoveRefines` | crates/arena/src/lib.rs:147-156 | removal on slots is a push on the free stack and a deletion from the handle map |
| `Arenas.WriteRefines` | crates/arena/src/lib.rs:118-125 | a store through a handle is an update of the handle map |
| `Arenas.GetRefines` | crates/arena/src/lib.rs:109-116 | lookup is lookup in the handle map; the sentinel never resolves, not even in remove, which does not test for it |
| `Arenas.RunRefines` | crates/arena/src/lib.rs:127-156 | over any run the slots stay the map-and-stack reference, so the unchecked slot access in alloc is in range |
| `Arenas.GenerationOfRun` | crates/arena/src/lib.rs:206-216 | after any run a slot's generation is its start advanced by the number of its removals, cycling through 1 to 2^32 - 1 |
| `Arenas.StaleHandle` | crates/arena/src/lib.rs:206-216 | exactly when a removed handle resolves again: never through 2^32 - 3 further removals of its slot |
| `Books.Best` | crates/orderbook/src/book.rs:198-201 | the key an ordered map yields first: highest for bids, lowest for asks |
| `Books.InsertRefuses` | crates/orderbook/src/book.rs:100-113 | an insert is refused as a duplicate exactly when its hash rests, and as full exactly when it does not and the orders fill the capacity |
| `Books.InsertAppends` | crates/orderbook/src/book.rs:115-138 | an insert appends at its own price and leaves all other levels alone |
| `Books.CancelDeletes` | crates/orderbook/src/book.rs:146-188 | a cancel finds an order exactly when one with its hash rests, deletes it from wherever it stands and keeps the order of the rest; otherwise nothing changes |
| `Books.PopTakesHead` | crates/orderbook/src/book.rs:193-235 | there is a top exactly when an order rests on the side; a pop takes the head of the best level and nothing else |
| `Books.ReduceChangesHead` | crates/orderbook/src/book.rs:237-272 | a reduction lowers the quantity of the head of the best level, wrapping below zero, and changes nothing else |
| `Books.PriceTimeIsStableSort` | crates/orderbook/src/lib.rs:11-15 | price-time order is the stable sort of a side by price, each level's FIFO intact |
| `Books.TopIsFirst` | crates/orderbook/src/book.rs:69-81 | the top of the book is the first order in price-time priority |
| `Books.RemoveTopDropsFirst` | crates/orderbook/src/book.rs:193-235 | popping the top drops the first order of the price-time line |
| `Books.UncrossedMeansSeparated` | crates/orderbook/src/book.rs:54-59 | the crossed test is false exactly when every bid is below every ask |
| `Links.HashFound` | crates/orderbook/src/book.rs:147-148 | the index leads to the one resting order with the hash |
| `Links.TopFound` | crates/orderbook/src/book.rs:198-212 | the head handle of the best level is live and is the oldest order at the best price |
| `Links.TotalsAreDepth` | crates/orderbook/src/book.rs:84-98 | the stored level totals, best price first, are the true totals modulo 2^64 |
| `Links.LevelBounds` | crates/orderbook/src/book.rs:121-136 | a level's tail is valid exactly when the level exists, and its length never exceeds the number of resting orders |
| `Links.InsertKeepsInv` | crates/orderbook/src/book.rs:106-138 | linking a new node behind the tail keeps the strengthened invariants and appends one order |
| `Links.UnlinkKeepsInv` | crates/orderbook/src/book.rs:147-181 | splicing a node out of any position keeps the strengthened invariants and removes one order |
| `Links.ReduceKeepsInv` | crates/orderbook/src/book.rs:257-268 | lowering a quantity in place keeps the strengthened invariants and changes one order |
| `OrderBooks.OrderBook.constructor` | crates/orderbook/src/book.rs:28-36 | a new book is valid and empty |
| `OrderBooks.OrderBook.Insert` | crates/orderbook/src/book.rs:100-144 | is insertion in the simple book, with its two refusals; the handle returned leads to the order |
| `OrderBooks.OrderBook.Cancel` | crates/orderbook/src/book.rs:146-188 | is cancellation in the simple book; returns an order exactly when one with the hash rests |
| `OrderBooks.OrderBook.PopTop` | crates/orderbook/src/book.rs:193-235 | removes and returns the top of the simple book |
| `OrderBooks.OrderBook.ReduceTop` | crates/orderbook/src/book.rs:237-272 | lowers the quantity of the top of the simple book |
| `OrderBooks.OrderBook.PeekTop` | crates/orderbook/src/book.rs:69-81 | shows the top of the simple book and the handle it lives in |
| `OrderBooks.OrderBook.IsCrossed` | crates/orderbook/src/book.rs:54-59 | decides whether the simple book is crossed |
| `OrderBooks.OrderBook.Depth` | crates/orderbook/src/book.rs:84-98 | yields the best levels of the simple book's depth, all of them unless the limit cuts it short |
| `OrderBooks.OrderBook.Census` | crates/orderbook/src/book.rs:20-25 | arena length, index size and number of resting orders agree, and stay within the capacity |
| `Checkers.BackLinksRuleOutCycles` | crates/orderbook/src/invariants.rs:39-53 | on any node map, however corrupt, a chain whose back links match visits no handle twice |
| `Checkers.WalkLevel` | crates/orderbook/src/invariants.rs:27-68 | accepts exactly the empty level and the whole, live, acyclic list from head to tail, and returns it |
| `Checkers.CheckLevel` | crates/orderbook/src/invariants.rs:75-123 | accepts exactly the levels whose list exists, adds up to the stored total and is indexed |
| `Checkers.AssertInvariants` | crates/orderbook/src/invariants.rs:72-133 | passes exactly when every level passes and the index is as large as all levels together |
| `Checkers.LevelLengthsAddUp` | crates/orderbook/src/invariants.rs:122-132 | no slot leaks: level lengths add up to the resting orders |
| `Checkers.ReachableBooksPass` | crates/orderbook/src/invariants.rs:15-17 | of the books the operations keep, the checker accepts exactly those whose level totals all fit in 64 bits |
| `Checkers.PassingIsNotEnough` | crates/orderbook/src/invariants.rs:3-13 | a node filed under a foreign price passes every check, and its own level does not exist |
| `Checkers.ChecksLackExactlyFiling` | crates/orderbook/src/invariants.rs:3-13 | a book that passes the checks satisfies the inductive invariant for some arrival order if and only if nodes lie under their own key, occupied slots are all indexed and the sentinel is not one of them |
| `Matching.CrossIsGreedy` | crates/matcher/src/matching.rs:174-248 | the cross loop is greedy matching on the opposite side in price-time order and leaves the taker's side alone |
| `Matching.FillsTakeAllReachable` | crates/matcher/src/matching.rs:183-202 | the taker fills the smaller of its quantity and everything its limit reaches |
| `Matching.FillsArePrefix` | crates/matcher/src/matching.rs:183-245 | the makers hit are a prefix of the line, each priced no worse than the taker's limit, all but possibly the last consumed whole |
| `Matching.ResidueDropsPrefix` | crates/matcher/src/matching.rs:224-244 | what is left is the line without the makers hit, or with the last of them reduced |
| `Matching.ResidualMeansExhausted` | crates/matcher/src/matching.rs:183-190 | a taker left with quantity has left only prices strictly beyond its limit |
| `Matching.TradesArePairs` | crates/matcher/src/matching.rs:204-244 | each trade is reported twice, taker first, field by field: the maker's price and one quantity in both, each party's own id and hash, the taker's timestamp, final exactly when nothing remains |
| `Matching.FillsInClosedForm` | crates/matcher/src/matching.rs:183-202 | a maker within the limit is hit exactly when those before it do not fill the taker, for the smaller of what it has and what is wanted |
| `Matching.ResidueQty` | crates/matcher/src/matching.rs:199-202 | what the taker receives leaves the opposite side unit for unit |
| `Matching.CrossRemaining` | crates/matcher/src/matching.rs:247 | the loop returns the quantity the limit could not reach |
| `Matching.GateIsSound` | crates/matcher/src/matching.rs:66-83 | whatever the gate lets through is filled, so the residual branch is dead, even when totals wrap |
| `Matching.GateIsExact` | crates/matcher/src/matching.rs:126-161 | the gate accepts exactly what the loop would fill while the reachable total fits in 64 bits |
| `Matching.GateIsExactIff` | crates/matcher/src/matching.rs:150-160 | for which books the gate is exact for every quantity |
| `Matching.GateMissesWrappedTotal` | crates/matcher/src/matching.rs:155-158 | two asks of 2^63 at one price make the gate reject every Fill-or-Kill the loop would fill |
| `Matching.FillOrKillIsAtomic` | crates/matcher/src/matching.rs:62-83 | a Fill-or-Kill trades exactly its quantity, or changes nothing and is rejected once for all of it, by whether some wrapped running total within its limit reaches it |
| `Matching.MatchIsGreedyThenPolicy` | crates/matcher/src/matching.rs:56-114 | both sides of the book and the event list after a match, in terms of the price-time line and the time-in-force policy |
| `Matchers.EventSink.Emit` | crates/matcher/src/sink.rs:10-15 | appends one event |
| `Matchers.FillTop` | crates/matcher/src/matching.rs:224-244 | emits the maker's fill at the maker's price, under its id and hash, and takes it off the top of the book |
| `Matchers.CrossLoop` | crates/matcher/src/matching.rs:174-248 | terminates with the book, events and remainder of the cross function |
| `Matchers.LiquidityReaches` | crates/matcher/src/matching.rs:143-161 | the early-exit accumulator loop, with its wrapping sum |
| `Matchers.CheckLiquidity` | crates/matcher/src/matching.rs:126-141 | decides the gate on the simple book; the depth limit never cuts the walk short |
| `Matchers.MatchOrder` | crates/matcher/src/matching.rs:56-114 | matching with time in force on the linked book is matching on the simple book; the debug assertion is unreachable |
| `MatchingEngines.MatchingEngine.constructor` | crates/matcher/src/engine.rs:24-29 | a new engine is empty |
| `MatchingEngines.MatchingEngine.AddInstrument` | crates/matcher/src/engine.rs:31-46 | registers an empty book, or refuses as the value-level engine does |
| `MatchingEngines.MatchingEngine.MintOrderId` | crates/matcher/src/engine.rs:57-61 | returns the counter and advances it |
| `MatchingEngines.MatchingEngine.PushReject` | crates/matcher/src/events.rs:12-26 | emits one reject with id 0, the given reason and remainder and the request's stamp and hash, and touches no book |
| `MatchingEngines.MatchingEngine.PushCancel` | crates/matcher/src/events.rs:28-35 | emits one cancel with the given id and the request's stamp and hash, and touches no book |
| `MatchingEngines.MatchingEngine.ProcessNew` | crates/matcher/src/engine.rs:79-103 | validates in the code's order, mints an id and matches, touching one book only |
| `MatchingEngines.MatchingEngine.ProcessCancel` | crates/matcher/src/engine.rs:106-116 | cancels in one book and reports it, or rejects |
| `MatchingEngines.MatchingEngine.Process` | crates/matcher/src/engine.rs:63-77 | one request on the linked books is one request on the value-level engine |
| `Engines.RunPanicsExactly` | crates/matcher/src/engine.rs:31-77 | a run ends without a panic exactly when it holds no amend and asks for a capacity of u32::MAX only on instruments registered before; its books are then those of the instruments registered on the way |
| `MatchingEngines.Drive` | crates/matcher/src/engine.rs:23-121 | every run without such a command, in place, ends in the state and with the events of the value-level run |
| `AtRest.CrossExhausts` | crates/matcher/src/matching.rs:183-190 | after a residual no order of the opposite side crosses the limit |
| `AtRest.RunKeepsBooksOk` | crates/matcher/src/engine.rs:63-116 | after any run of any length every book is uncrossed, within capacity, with distinct hashes and sound orders |
| `AtRest.NeverCrossedAtRest` | crates/matcher/src/invariants.rs:10-19 | after any run of any length no book is crossed |
| `AtRest.RestingOrdersAreSound` | crates/matcher/src/engine.rs:86-94 | after any run of any length books are within capacity, hashes are distinct, quantities and prices positive, orders in their own instrument's book |
| `AtRest.WrappedTotalIsReachable` | crates/matcher/src/matching.rs:143-161 | two accepted asks of 2^63 at one price lead to a book on which the engine rejects every Fill-or-Kill bid the loop would fill |
| `Rules.AddInstrumentRule` | crates/matcher/src/engine.rs:31-46 | which capacities are invalid, which ids are taken, and that a new empty book is all that is added |
| `Rules.ValidationRule` | crates/matcher/src/engine.rs:79-97 | a new order is rejected as unknown instrument, invalid quantity or invalid price, in that order, and changes nothing; otherwise it takes the next id and touches one book |
| `Rules.OfferedIsReachable` | crates/matcher/src/matching.rs:183-190 | what lies within the limit along the price-time line is the total of the other side's orders within the limit |
| `Rules.UnfilledTakesAll` | crates/matcher/src/matching.rs:183-245 | a taker that is not filled has taken every order within its limit and no other |
| `Rules.MatchEvents` | crates/matcher/src/matching.rs:56-114 | the fills, then the one closing event, with insufficient liquidity, duplicate intent and full book each by its condition on the book before the match |
| `Rules.NewOrderRule` | crates/matcher/src/engine.rs:79-103 | the whole report of an admitted order: both events of every trade in closed form, in price-time order, and its closing event |
| `Rules.CancelRule` | crates/matcher/src/engine.rs:106-116 | a cancel takes out the order with its hash and reports its id, or is rejected as unknown instrument or unknown order; nothing else changes |
| `Rules.RunReportsByTheRules` | crates/matcher/src/engine.rs:63-116 | the rejects, cancels and new orders of any run are exactly, and in order, the closing events of its commands, so a reason is reported if and only if its condition held |
| `Rules.FillsStayWithinLimits` | crates/matcher/src/matching.rs:199-243 | every fill of any run is half of a trade with an order then resting, at that order's price, within the request's limit, under its party's own id and hash |
| `Rules.CancelTakesEffect` | crates/matcher/src/engine.rs:106-116 | after any run a cancel whose hash rests reports that order's id and leaves no order with the hash; otherwise it is rejected and changes nothing |
| `Shadows.StepReplays` | crates/matcher/src/engine.rs:63-116 | every command keeps the run invariant, with the shadow advanced by that command's events alone |
| `Shadows.RunReplays` | crates/matcher/src/engine.rs:63-116 | the run invariant holds after every run |
| `Shadows.EventStreamDeterminesState` | crates/matcher/src/matching.rs:71-112 | folding the events of any run into an empty list rebuilds every book: orders, quantities and FIFO order, and nothing else |
| `Shadows.TimePriorityIsIdOrder` | crates/matcher/src/engine.rs:57-61 | after any run ids are below the counter, increase along every level and are shared by no two resting orders of any books |
| `Conservation.TradeConserves` | crates/matcher/src/matching.rs:199-244 | one trade moves exactly its quantity from the maker, and its events say so |
| `Conservation.StepConserves` | crates/matcher/src/engine.rs:63-116 | for every id, requested plus resting before equals traded plus cancelled plus rejected plus resting after one command |
| `Conservation.QuantityIsConserved` | crates/matcher/src/matching.rs:85-111 | for every id after any run there is exactly one quantity the books hold of it, and requested = traded + cancelled + rejected + that quantity |
| `Seqlocks.FirstLoadIsExact` | crates/ipc/src/queue.rs:160-170 | the first version load takes the lap branch exactly when overwriting has begun, starts a read exactly when the value is complete and safe, and reports empty exactly when it is not complete |
| `Seqlocks.SecondLoadIsWhole` | crates/ipc/src/queue.rs:171-179 | an unchanged second version means overwriting has not begun and every word read is the published value's |
| `Seqlocks.VersionsFit` | crates/ipc/src/queue.rs:118-160 | no version wraps a u64: a slot stores its owner's true version, odd mid-write and even otherwise, and a consumer expects its cursor's |
| `Seqlocks.FitsExactly` | crates/ipc/src/queue.rs:118-133 | versions fit a u64 for exactly the sequence numbers of the first 2^63 - 1 laps, which with three or more slots is every u64 sequence number |
| `Seqlocks.WrappedVersionMisreads` | crates/ipc/src/queue.rs:160-170 | a consumer that has read everything is told it was lapped, by 0 slots under a halt or skip policy, exactly when the version it expects has wrapped to 0; otherwise it gets Empty |
| `Seqlocks.ProducerKeepsInv` | crates/ipc/src/queue.rs:115-136 | each of the producer's stores keeps the ring invariant and every consumer's, mid-read or not |
| `Seqlocks.ConsumerKeepsInv` | crates/ipc/src/queue.rs:79-198 | each of a consumer's loads, and subscribing, keeps the invariant; a new consumer starts at the published count with the policy asked for |
| `Seqlocks.LapKeeps` | crates/ipc/src/queue.rs:182-198 | the lap policy's subtraction does not wrap and is at least the capacity |
| `SeqlockRuns.RunKeepsInv` | crates/ipc/src/queue.rs:108-198 | the invariant holds in every state of every interleaving |
| `SeqlockRuns.NoTornRead` | crates/ipc/src/queue.rs:158-179 | in every interleaving a Ready value is the whole value published under the consumer's cursor |
| `SeqlockRuns.CursorAccountsForEverything` | crates/ipc/src/queue.rs:178-196 | a cursor is its start plus deliveries plus reported losses, each at least the capacity |
| `SeqlockRuns.ContiguousBetweenSkips` | crates/ipc/src/queue.rs:178-196 | in every interleaving and under every policy, a stretch of results without a skip delivers exactly the log from the position before it to the position after it |
| `SeqlockRuns.DeliveriesFollowLog` | crates/ipc/src/queue.rs:178-196 | of two Ready results the later carries the later log entry, and the entries between were all delivered or reported lost |
| `SeqlockRuns.HaltDeliversWithoutGaps` | crates/ipc/src/queue.rs:187-190 | a Halt consumer is handed exactly the log from its start to its last safe sequence number |
| `SeqlockRuns.StartsAtPublished` | crates/ipc/src/queue.rs:79-90 | for the rest of the run a consumer counts from what was published when it subscribed, under the policy it asked for |
| `SeqlockRuns.HaltDeliversFromSubscription` | crates/ipc/src/queue.rs:79-190 | a Halt consumer has been handed exactly what was published since it subscribed, up to its cursor |
| `SeqlockRuns.HaltedForever` | crates/ipc/src/queue.rs:154-156 | once halted, a consumer gives the same answer for the rest of the run |
| `SeqlockRuns.TornReadReportsLap` | crates/ipc/src/queue.rs:174-177 | a second load that finds another version returns Empty with the cursor unmoved, and that consumer's next first load, any number of steps later, finds the lap |
| `SeqlockRuns.LapNeverUnderflows` | crates/ipc/src/queue.rs:183-184 | whenever a lapped consumer loads the published count, the subtraction is in range |
| `Rings.Ring.constructor` | crates/ipc/src/queue.rs:40-71 | a new ring satisfies the invariant |
| `Rings.Ring.Publish` | crates/ipc/src/queue.rs:108-137 | whatever consumers do between its stores, publish appends one value to the log under the sequence number it returns |
| `Rings.Ring.Subscribe` | crates/ipc/src/queue.rs:79-90 | adds one consumer at the published count with the policy asked for, and changes nothing else |
| `Rings.Ring.CopyOut` | crates/ipc/src/queue.rs:171-179 | with other threads in between, the copy and the second load give the whole value exactly when overwriting has not begun, and Empty otherwise |
| `Rings.Ring.ApplyLapPolicy` | crates/ipc/src/queue.rs:182-198 | a Halt policy halts at the cursor, a Panic policy panics, a skip policy moves the cursor to the published count; the loss is the distance to it and at least a whole ring |
| `Rings.Ring.Poll` | crates/ipc/src/queue.rs:153-180 | with other threads in between: Ready is the value at the cursor; Empty means it was not complete at the start or is overwritten at the end; Skipped and Halted follow the policy; a value complete at the start and safe at the end is always delivered |
| `Codecs.ReadU64` | crates/types/src/events.rs:98-102 | reading is the inverse of writing for every eight bytes, in either byte order |
| `Codecs.U64Digits` | crates/types/src/events.rs:60-62 | the eight bytes of a number are its base-256 digits in the machine's order |
| `Codecs.EventIsLaidOut` | crates/types/src/events.rs:50-93 | the tag, the header's timestamp, the offset of every field, the code of every enumeration value and the zeros after them, for each event |
| `Codecs.Encode` | crates/types/src/events.rs:50-93 | writing slices of a zeroed buffer gives tag, zero padding, timestamp and the laid-out payload |
| `Codecs.DecodeEncoded` | crates/types/src/events.rs:50-155 | decoding an encoded event gives the event back |
| `Codecs.DecodeInverts` | crates/types/src/events.rs:95-155 | on every record, canonical or not, decoding gives an event exactly when the record has that event's tag, bytes and, except for an order, timestamp |
| `Codecs.DecodableIffEncodable` | crates/types/src/events.rs:95-155 | a record decodes exactly when some event is encoded with its tag and used bytes; otherwise the error names the reason byte of a reject, else the tag |
| `Codecs.ReencodeIffCanonical` | crates/types/src/events.rs:50-155 | re-encoding reproduces the record exactly when padding and unused payload are zero and tag 0 repeats its timestamp |
| `Calendars.EpochIsDayZero` | crates/benchkit/src/env.rs:388-399 | day 0 is 1970-01-01 |
| `Calendars.CivilIsGregorian` | crates/benchkit/src/env.rs:388-399 | for every day number the next one is the next date of the Gregorian calendar |
| `Calendars.StampsIncrease` | crates/benchkit/src/env.rs:402-404 | later seconds give later year, month, day, hour, minute and second, compared in that order |
| `Stamps.TextIsLaidOut` | crates/benchkit/src/env.rs:401-406 | the text of a four-digit year is 19 characters: four, two and two digits, and three times two, with their separators |
| `Stamps.TextSortsUntilYear10000` | crates/benchkit/src/env.rs:401-406 | the formatted stamps of all seconds up to a given one sort in time order if and only if that second is before the year 10000 |

## Left out

- Weak memory: C11 and AArch64 reordering, fences, cache-line padding, `MaybeUninit` and raw pointer layout, Send and Sync; the ring is modelled with program-order visibility.
- The ring on values: concurrent stores and loads are steps on one state value, so aliasing of the shared slots is not modelled; `Rings.Ring` passes the other threads' steps in as a schedule.
- The bitwise forms of the slot index and lap number, and the power-of-two assertion on the ring's capacity.
- `PodOrderEvent` as ring payload: the payload is any sequence of words of a fixed width.
- Debug builds, in which the wrapping additions panic instead; the checker alone is modelled as the debug build runs it.
- `process_amend`: unimplemented in the program, a panic here.
- The internals of the ordered and hash maps.
- `Arena::drop`, layout assertions and the reuse of a value's storage for the free-list index: a slot holds either an index or a value.
- Matchers.EventSink.Emit: only the vector sink; other sinks see the same events in the same order.
- The i64 width of the calendar arithmetic: day numbers there come from a u64 of seconds and stay far inside it.
- `PodPosition`, `L2Update`, telemetry primitives, the random generator, reports, statistics, benchmarks and build scripts: nothing here depends on them.
