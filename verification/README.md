# Lite-Exchange: a verified model of the matching core

This project models the matching core of Lite-Exchange and the two protocols around it: the price-ladder order book over
a shared slot arena, the shard that hosts many books over one arena, the single-producer single-consumer ring, and the
reassembly of a client's byte stream into frames. Statements are for all inputs, capacities and runs, under the
conditions named below.

`dafny verify dfyconfig.toml` checks the whole project.

## How it is built

Three layers, each proved to refine the one before it, and the protocols around them.

1. **The reference** (`PriceTime.dfy`, `Matching.dfy`). A book is two sequences of resting orders in price-time priority;
   matching consumes a prefix of the opposite sequence. `Executes` says what such an execution is without saying how it is
   computed; `MatchExecutes` and `OnlyMatch` show that the matcher does exactly that and nothing else could.
2. **The shard as a state machine** (`Engine.dfy`, `Effects.dfy`, `Runs.dfy`, `Isolation.dfy`, `RunFacts.dfy`,
   `Provenance.dfy`, `Tallies.dfy`). One arena (free stack and generations), one reference book per hosted symbol with
   orders named by slot, the symbol each slot last held, one message per step. Runs are followed with a label per
   submission and unbounded recycle counts, so a statement about an order is a statement about that order and not about
   whatever occupies its slot later.
3. **The in-place structures** (`LevelBitmap.dfy`, `Pool.dfy`, `PriceLevel.dfy`, `Ladder.dfy`, `BookSide.dfy`,
   `OrderBook.dfy`, `Shard.dfy`). Arrays, intrusive links, bitmaps, cached best levels and nested loops, as in the source.
   Each method's contract is the reference or the state machine applied to the old state.
4. **The protocols** (`Spsc.dfy`, `Delivery.dfy`, `Codec.dfy`, `Session.dfy`, `Tokens.dfy`, `Router.dfy`).

`Renaming.dfy` shows that the reference does not look at names, `Holdings.dfy` follows slots through every operation, and
`Arith.dfy` holds division facts.

A `PriceLevel` is a record held by value in the ladder's array, as the source stores it; the two sides of a book, which the
source picks between by a template parameter, are two objects of one class `BookSide`. Templated capacities are constructor
parameters. The fill buffer with its count is one sequence.

## Where the code does less than its comments say

- `include/lx/proto/messages.hpp:35` says a stale or forged cancel token is rejected. The code tests the generation, and
  that the symbol the slot last held is hosted. `Engine.CancelAnswer` says exactly which tokens are rejected: those of
  another generation, and those of a free slot that last held no hosted symbol. A token with the current generation of a
  live slot is honoured whether or not it came in an Ack and whichever session sends it. A token of the current generation of a free slot is
  acknowledged too; `Engine.StepOk` shows that this, and nothing else, breaks the slot partition, and
  `Engine.ZeroTokenAccepted` that the all-zero token does so on a fresh shard. Tokens that came in an Ack never do
  (`Runs.CancelFinds`), up to a multiple of 2^32 recycles of the slot (`Runs.TokenCurrent`).
- The fill cap can leave a book crossed. `Matching.SubmitUncrossed` says exactly when, `Matching.CapCanCross` gives a case.
- A fill can be worse than the aggressor's limit, because limits are compared by level and a level holds many prices: those
  off the tick grid, those less than a tick below the base (level 0 has both), and those whose tick count exceeds 32 bits
  and is narrowed, also when they are on the grid. `Matching.FillsWithinWhen` says exactly when every fill is within the
  limit, for all prices; `Matching.WindowLimits` that without narrowing only orders on the limit's own level can break it;
  `Matching.LimitCanBreak` and `Matching.NarrowedCanBreak` give cases.
- Orders off the ladder, orders that find no free slot and unfilled immediate-or-cancel orders are answered by nothing; the
  model emits nothing for them either.

## Model

| member | source | states |
|---|---|---|
| `Matching.MatchExecutes` | include/lx/book/order_book.hpp:186-247 | the k-th fill is with the k-th order in price-time priority, every order met but the last is exhausted, every one is within the limit, at most `cap` fills, no quantity lost, and trading stops only at a spent order, an empty side, the limit or the cap |
| `Matching.OnlyMatch` | include/lx/book/order_book.hpp:186-247 | over open orders no other outcome has that property |
| `Matching.MatchConserves` | include/lx/book/order_book.hpp:207-231 | aggressor's quantity and the opposite side's open quantity both fall by exactly the traded quantity |
| `Matching.SubmitConserves` | include/lx/book/order_book.hpp:81-107 | fills plus remainder equal the submitted quantity, and the book's open quantity falls by what traded and grows by the remainder unless the time-in-force byte is 1 |
| `Matching.SubmitRests` | include/lx/book/order_book.hpp:81-107 | side byte 0 meets asks and may join the bids, any other the reverse; an order rests exactly when its time-in-force byte is not 1 and the open quantity of the orders it meets is below its own, and then stands last of its level or better with exactly the difference |
| `Matching.SubmitProper` | include/lx/book/order_book.hpp:81-107 | a new order leaves both sides in priority order with no zero-quantity order resting |
| `Matching.InsertSorted` | include/lx/book/price_level.hpp:17-31 | a resting order joins behind every order of its level or better and before every strictly worse one, the others keep their order, and the side stays in priority order |
| `Matching.SubmitUncrossed` | include/lx/book/order_book.hpp:81-104 | an uncrossed book becomes crossed exactly when a non-IOC order has more than `cap` orders within its limit and the first `cap` do not satisfy it |
| `Matching.WithdrawUncrossed` | include/lx/book/order_book.hpp:110-141 | a cancel never crosses a book |
| `Matching.CapCanCross` | include/lx/book/order_book.hpp:213-214 | with the cap of 64 a 65-lot bid against 65 single-lot offers does leave the book crossed |
| `Matching.LevelIs` | include/lx/book/order_book.hpp:172-175 | for every price and non-zero tick the level is the int32 congruent modulo 2^32 to the quotient truncated toward zero |
| `Matching.LadderPrices` | include/lx/book/order_book.hpp:59-62 | with a positive tick whose count fits an int32, the ladder takes exactly the prices above base - tick and below base + ladder * tick, and the level is given by inequalities on the price |
| `Matching.GridLevel` | include/lx/book/order_book.hpp:172-175 | on the grid the level is the number of ticks above the base |
| `Matching.LimitHolds` | include/lx/book/order_book.hpp:172-175 | for any two prices: one is no higher exactly when it has fewer whole ticks, or as many and no larger signed remainder |
| `Matching.MetWhen` | include/lx/book/order_book.hpp:186-247 | an order is traded with exactly when it is within the limit, before the cap, and the open quantity ahead of it does not satisfy the aggressor |
| `Matching.FillsWithinWhen` | include/lx/book/order_book.hpp:172-221 | every fill is within the limit exactly when each order met has fewer ticks, or as many and no larger remainder (mirrored for sells), for all prices on the ladder, narrowed or not |
| `Matching.WindowLimits` | include/lx/book/order_book.hpp:172-221 | without narrowing, exactly when each order met on the limit's own level has no worse remainder |
| `Matching.FillsWithinLimit` | include/lx/book/order_book.hpp:193-221 | with on-grid prices no fill is worse than the aggressor's limit, on either side |
| `Matching.LimitCanBreak` | include/lx/book/order_book.hpp:172-175 | off the grid a bid at 101 pays 109, and just below the base a bid at 95 pays 105 |
| `Matching.NarrowedCanBreak` | include/lx/book/order_book.hpp:172-175 | on the grid, a bid at 3 pays 2^32, which narrows to level 0 |
| `Matching.SubmitAll` | include/lx/book/order_book.hpp:64-108 | a property of a side's resting orders that partial fills keep, and that the new order has, holds of the side afterwards |
| `Renaming.RenamedSubmit` | include/lx/book/order_book.hpp:56-108 | fills, leftover and fate of an order do not depend on which slots orders are in |
| `Renaming.RenamedWithdraw` | include/lx/book/order_book.hpp:110-141 | neither does a cancel |
| `Holdings.AddOrderHolding` | include/lx/book/order_book.hpp:64-107 | a new order moves slots between free stack and queues and neither loses nor repeats one, whichever way it ends |
| `Holdings.CancelOrderHolding` | include/lx/book/order_book.hpp:110-141 | so does a cancel of a queued slot |
| `Bitmap.LevelBitmap.constructor` | include/lx/book/level_bitmap.hpp:51-52 | starts as the empty set, for any size |
| `Bitmap.LevelBitmap.Set` | include/lx/book/level_bitmap.hpp:12 | adds one level to the set and changes no other |
| `Bitmap.LevelBitmap.Clear` | include/lx/book/level_bitmap.hpp:13 | removes one level and changes no other |
| `Bitmap.LevelBitmap.Test` | include/lx/book/level_bitmap.hpp:14 | membership |
| `Bitmap.LevelBitmap.NextUp` | include/lx/book/level_bitmap.hpp:17-31 | the least member at or above `from`, NULL_IDX exactly when there is none, for every size, content and start |
| `Bitmap.LevelBitmap.NextDown` | include/lx/book/level_bitmap.hpp:34-48 | the greatest member at or below `from`, NULL_IDX when there is none or `from` is out of range |
| `ArenaPool.Pool.constructor` | include/lx/book/pool.hpp:14-20 | all slots free in index order, all generations zero |
| `ArenaPool.Pool.Alloc` | include/lx/book/pool.hpp:22-27 | takes the top of the free stack, or reports that there is none and changes nothing |
| `ArenaPool.Pool.Release` | include/lx/book/pool.hpp:29-35 | pushes the slot, retires its generation modulo 2^32, never overruns the stack |
| `Levels.PushBack` | include/lx/book/price_level.hpp:17-31 | appends to the queue; count and quantity modulo 2^32 follow; orders do not change and links change only inside this queue |
| `Levels.PopFront` | include/lx/book/price_level.hpp:33-50 | takes the first of the queue, likewise; an empty level does not change |
| `Levels.Remove` | include/lx/book/price_level.hpp:52-68 | deletes any position of the queue, likewise |
| `Levels.UntouchedLevel` | include/lx/book/price_level.hpp:17-68 | a level none of whose slots changed is intact |
| `Levels.CountExact` | include/lx/book/price_level.hpp:12 | the 32-bit order count never wraps |
| `Ladders.FlatPush` | include/lx/book/order_book.hpp:86-98 | appending to a level's queue is inserting in the priority list |
| `Ladders.FlatPop` | include/lx/book/order_book.hpp:206-230 | the head of the best level's queue is the head of the priority list |
| `Ladders.FlatCut` | include/lx/book/order_book.hpp:118-130 | cutting out of a queue is deleting from the priority list |
| `BookSides.BookSide.Vacate` | include/lx/book/order_book.hpp:121-136 | after a level empties, bits are set exactly for non-empty levels and the cached best is the best non-empty level or NULL_IDX |
| `BookSides.BookSide.Rest` | include/lx/book/order_book.hpp:86-90 | resting a slot inserts its order, and links, bits and best level agree again |
| `BookSides.BookSide.Take` | include/lx/book/order_book.hpp:118-137 | taking a slot out deletes its order, and links, bits and best level agree again |
| `BookSides.BookSide.FillHead` | include/lx/book/order_book.hpp:209-230 | one fill with the head of the list: report, quantities, and release of an exhausted slot |
| `BookSides.BookSide.MatchLevel` | include/lx/book/order_book.hpp:207-231 | the inner loop does not change where reference matching ends, stops for the cap only with the level still occupied, and terminates |
| `BookSides.BookSide.Match` | include/lx/book/order_book.hpp:186-247 | queues, leftover, fills, free stack and generations are those of the reference matcher cut off at the cap, with bits and best level in agreement also after the early return |
| `BookSides.StopsHere` | include/lx/book/order_book.hpp:145-157 | the cached best level is NULL_IDX exactly for an empty side and otherwise the level of the head of the list |
| `BookSides.BookSide.FindBest` | include/lx/book/order_book.hpp:177-184 | the first occupied level from a start outward: up for asks, down for bids |
| `Books.OrderBook.constructor` | include/lx/book/order_book.hpp:44-53 | an empty book over a borrowed arena |
| `Books.OrderBook.AddOrder` | include/lx/book/order_book.hpp:56-108 | fills, queues, free stack, generations and handle are those of the reference, and no slot of another book changes |
| `Books.OrderBook.CancelOrder` | include/lx/book/order_book.hpp:110-141 | likewise for a cancel; a stale generation is refused and nothing changes |
| `Books.OrderBook.BestBidPrice` | include/lx/book/order_book.hpp:145-150 | the price of the level of the head of the bid list, INT64_MIN when there is none |
| `Books.OrderBook.BestAskPrice` | include/lx/book/order_book.hpp:152-157 | the price of the level of the head of the ask list, INT64_MAX when there is none |
| `Tokens.RoundTrip` | include/lx/book/order_book.hpp:22-36 | a token gives back its handle exactly when the slot is below 2^24, and always its shard |
| `Tokens.TokenLayout` | include/lx/book/order_book.hpp:24-29 | shard in bits 63:56, generation in 55:24, low 24 bits of the slot in 23:0 |
| `Tokens.TokenBack` | include/lx/book/order_book.hpp:31-38 | every 64-bit value is the token of the handle and shard it is read as |
| `Tokens.SameToken` | include/lx/book/order_book.hpp:22-36 | two handles share a token exactly when shard, generation and low 24 bits of the slot agree |
| `Engine.StepOk` | include/lx/engine/shard.hpp:77-95 | a message keeps each slot in exactly one place, each order open, in its symbol's book, on its price's level, in priority order, exactly when it is no cancel that passes the tests for a slot not queued |
| `Engine.SymbolLeads` | include/lx/engine/shard.hpp:170 | the symbol recorded in a live slot leads to the book that queues it |
| `Engine.SlotCount` | include/lx/book/pool.hpp:53 | resting orders plus free slots equal the arena size |
| `Engine.StepOutputBound` | include/lx/engine/shard.hpp:37 | a tick emits at most 129 messages |
| `Engine.ReportsReach` | include/lx/engine/shard.hpp:179-194 | the aggressor's session is told of every fill exactly once, in order, and any other session of exactly the fills of its own resting orders |
| `Engine.ReportsAt` | include/lx/engine/shard.hpp:179-194 | reports go out in the order of the fills, each to the resting order's session and right after it to the aggressor's when that is another |
| `Engine.UnhostedRejected` | include/lx/engine/shard.hpp:138-145 | an order for a symbol without a book is answered by exactly one Reject with its id, and nothing changes |
| `Engine.UnplacedDropped` | include/lx/book/order_book.hpp:56-66 | an order off the ladder or without a free slot changes nothing and is answered by nothing |
| `Engine.OffLadderDropped` | include/lx/book/order_book.hpp:59-62 | in particular one priced a tick or more below the base, or at or above the ladder's top |
| `Engine.OtherDropped` | include/lx/engine/shard.hpp:92-93 | a message of another type is dropped |
| `Engine.TokenOkWhen` | include/lx/engine/shard.hpp:162-177 | a token that passes the tests names a queued order exactly when its slot is not free |
| `Engine.CancelAnswer` | include/lx/engine/shard.hpp:158-177 | a cancel is rejected, and nothing changes, exactly when the generation is not the slot's or the slot is free and last held no hosted symbol; any other is acknowledged, and its slot is freed and in no queue |
| `Engine.ZeroTokenAccepted` | include/lx/engine/shard.hpp:158-177 | on a fresh shard that hosts symbol 0 the all-zero token is acknowledged and slot 0 is then free twice |
| `Engine.DoubleReleaseBreaks` | include/lx/book/pool.hpp:29-35 | releasing a free slot breaks the slot partition |
| `Shards.BuildTable` | include/lx/engine/shard.hpp:55-71 | each hosted symbol, and no other, has a book of its own |
| `Shards.HostsFound` | include/lx/engine/shard.hpp:124-127 | for every u16 symbol the lookup gives its last position in the list (without a list its own number, while there are books and symbol space), and NO_BOOK for every other, those outside the symbol space included |
| `Shards.Shard.constructor` | include/lx/engine/shard.hpp:51-72 | all books empty over one fresh arena, and every symbol looked up as `Shards.HostsFound` says |
| `Shards.Shard.HandleNew` | include/lx/engine/shard.hpp:138-156 | new state and output are those of the state machine; other books do not change |
| `Shards.Shard.HandleCancel` | include/lx/engine/shard.hpp:158-177 | new state and output are those of the state machine, rejection for want of a book included; other books do not change |
| `Shards.Shard.EmitFills` | include/lx/engine/shard.hpp:151-152 | each fill goes to the resting order's session and once to the aggressor's when that is another, in order |
| `Shards.Shard.Tick` | include/lx/engine/shard.hpp:77-95 | one message is handled as by the state machine, or none when the ring is empty |
| `Shards.Shard.Drain` | include/lx/engine/shard.hpp:97-101 | ticking through a message sequence goes through the states of the state machine |
| `Shards.Shard.BestBid` | include/lx/engine/shard.hpp:108-112 | the symbol's best bid, INT64_MIN when not hosted or empty |
| `Shards.Shard.BestAsk` | include/lx/engine/shard.hpp:114-118 | the symbol's best ask, INT64_MAX when not hosted or empty |
| `Effects.StepMoves` | include/lx/engine/shard.hpp:77-95 | which slots a message releases and places, that each release retires one generation, and that no other slot joins a queue |
| `Effects.Somewhere` | include/lx/book/pool.hpp:22-35 | every slot is free or queued, never both |
| `Runs.RunInv` | include/lx/engine/shard.hpp:77-177 | in every run whose cancels use issued tokens, each queued slot's current token is that of the order in it, and an issued token is level with its slot only while its order rests there |
| `Runs.TokenCurrent` | include/lx/engine/shard.hpp:160-164 | an issued token gives back its handle exactly when the slot is below 2^24, and the handle passes the generation test exactly when its slot was recycled a multiple of 2^32 times since |
| `Runs.CancelFinds` | include/lx/engine/shard.hpp:158-171 | with fewer than 2^32 recycles it passes exactly when its own order still rests, in the book of its symbol |
| `Runs.RunIsFeed` | include/lx/engine/shard.hpp:77-101 | a fresh shard fed with a legal run's messages goes through the run's states, every cancel being safe |
| `Isolation.CancelExact` | include/lx/engine/shard.hpp:158-177 | a cancel is acknowledged exactly when its own order still rests, removes only it and frees one slot; otherwise it is rejected and nothing changes |
| `Isolation.EmitsReply` | include/lx/engine/shard.hpp:138-214 | what a shard emits for an event is its reply on the wire, and an Ack carries the token recorded for the order |
| `Isolation.SymbolIsolated` | include/lx/engine/shard.hpp:124-177 | while none of a symbol's own orders meets an exhausted arena, its queues and replies are those of the reference book fed with its own orders and cancels, however other symbols interleave and whichever of their orders find no slot |
| `RunFacts.SlotsConserved` | include/lx/book/pool.hpp:14-35 | after every run each slot is free or queued exactly once, and the two counts make up the arena |
| `RunFacts.QuantityConserved` | include/lx/book/order_book.hpp:64-108 | over every run accepted quantity equals twice the traded quantity plus what rests, was cancelled, or was left of orders with time-in-force byte 1 |
| `Provenance.SentOnce` | include/lx/engine/shard.hpp:138-156 | in a legal run each submission has a label of its own |
| `Provenance.QueuesKnown` | include/lx/book/order_book.hpp:68-77 | over every run each resting order carries the id, price, symbol, session and side of the one submission with its label, however slots were recycled |
| `Provenance.TimePriority` | include/lx/book/price_level.hpp:17-31 | over every run two orders of a side stand by level, and on one level in the order of their submissions |
| `Provenance.FillsAddressed` | include/lx/book/order_book.hpp:209-221 | over every run the k-th fill is with the k-th order faced, carries id, price and session of the submission under that order's label, of the same symbol and the opposite side, and exhausts it unless it is the last |
| `Provenance.FillsInOrder` | include/lx/book/order_book.hpp:193-231 | over every run the fills of an order move from level to level away from the best, and on one level in the order of submissions |
| `Provenance.FillsCount` | include/lx/engine/shard.hpp:147-149 | over every run an order trades with exactly the first orders faced that cross, at most 64, while the open quantity ahead is below its own |
| `Provenance.OrderRests` | include/lx/book/order_book.hpp:81-107 | over every run an order that reaches its book rests exactly when its time-in-force byte is not 1 and the orders it meets fall short, by exactly what is left of it |
| `Provenance.SessionsTold` | include/lx/engine/shard.hpp:179-194 | over every run the fill reports a session receives are, in order, those of its own orders' trades and those of other sessions' trades with orders it submitted, none missing, misdirected or repeated |
| `Provenance.LimitsWhen` | include/lx/book/order_book.hpp:172-221 | over every run the fills of an order are within its limit exactly when the submissions it meets are, by ticks and remainders |
| `Provenance.LimitsRespected` | include/lx/book/order_book.hpp:193-221 | over every run of on-grid orders no fill is worse than its aggressor's limit |
| `Tallies.OrderAccounted` | include/lx/book/order_book.hpp:56-141 | over every run, for every order of a hosted symbol: submitted quantity is what it took on arrival, gave while resting, still rests, was cancelled and was dropped; dropped is all of it when it reached no level or slot, what was left when its time-in-force byte is 1, and else zero |
| `RunFacts.NeverCrossed` | include/lx/book/order_book.hpp:81-104 | over every run no book is crossed at any point exactly when the cap of 64 fills never stops an order that may rest short of its limit |
| `Spsc.WrapIndex` | include/lx/queue/spsc.hpp:11 | a wrapping 64-bit counter indexes a power-of-two ring as an unbounded one would |
| `Spsc.FullWhen` | include/lx/queue/spsc.hpp:17-21 | a push fails exactly when the ring is full as far as the producer has seen, also across counter wrap |
| `Spsc.EmptyWhen` | include/lx/queue/spsc.hpp:29-31 | a pop fails exactly when the ring is empty as far as the consumer has seen |
| `Spsc.StepInv` | include/lx/queue/spsc.hpp:15-36 | every load, store and slot access of either thread keeps the ring's invariant |
| `Spsc.AlwaysEnabled` | include/lx/queue/spsc.hpp:15-36 | neither thread is kept from its next step, and a load may return any counter value from the last seen to the newest |
| `Spsc.Safe` | include/lx/queue/spsc.hpp:10-36 | in every interleaving, with stale counter reads, popped values are a prefix of pushed values, at most N are held, and the slot being written is never the slot being read |
| `Spsc.ReadsNext` | include/lx/queue/spsc.hpp:32 | the slot the consumer reads holds the next value in order |
| `Spsc.RoomForPushes` | include/lx/queue/spsc.hpp:15-26 | once k places are free as far as the producer has seen, no push finds the ring full until k more have completed, in every interleaving |
| `Delivery.PushedInOrder` | include/lx/engine/shard.hpp:216-220 | however often the ring is full, what reaches it is the front of the shard's output, in order, nothing lost or repeated |
| `Delivery.ReceivedInOrder` | include/lx/engine/shard.hpp:179-220 | in every interleaving the gateway pops a front of what the state machine emits |
| `Delivery.NoRetry` | include/lx/engine/shard.hpp:216-220 | with as many places free as there are messages no push is tried twice: each takes four steps |
| `Delivery.TickNeverWaits` | include/lx/engine/shard.hpp:77-220 | a tick that starts with 129 places free never waits for the gateway, whatever the message and the interleaving |
| `Spsc.SpscQueue.Push` | include/lx/queue/spsc.hpp:15-26 | appends, or refuses exactly when N values are held |
| `Spsc.SpscQueue.Pop` | include/lx/queue/spsc.hpp:27-36 | takes the oldest value, or reports that there is none |
| `Codec.HeaderMeans` | include/lx/proto/codec.hpp:20-49 | in bytes: length in the first two, low byte first, type in the third; below 8 bytes more are needed, a length outside 8..256 or a type outside the six is invalid, a short frame needs more, and any other is a frame of that type and length |
| `Codec.Verdicts` | include/lx/proto/codec.hpp:20-49 | invalid exactly for a bad header, and a frame exactly when a whole one stands at the front, of which there is only one |
| `Codec.TryDecode` | include/lx/proto/codec.hpp:20-49 | an accepted frame is whole and between 8 and 256 bytes; more bytes are asked for only below 256 |
| `Codec.VerdictStands` | include/lx/proto/codec.hpp:20-49 | a verdict on a buffer stands whatever bytes follow |
| `Sessions.ParseJoined` | include/lx/net/session.hpp:37-70 | round trip, in bytes: a stream of whole frames gives one message for each frame of 32 bytes and type 2 or of 16 bytes and type 3, equal to the frame with bytes 4 to 7 set to the session id, none for any other, and nothing is left |
| `Sessions.TakeJoined` | include/lx/net/session.hpp:28-79 | one pass with room for them takes, sends and counts all of them |
| `Sessions.TakeStops` | include/lx/net/session.hpp:37-70 | a pass stops at an invalid header, for lack of bytes, or at an order or cancel that the queue refuses, exactly as the bytes it leaves say |
| `Sessions.StampSets` | include/lx/net/session.hpp:53-63 | the queued message is the frame with its session id field set to the server's and every other byte kept |
| `Sessions.TakeIsFront` | include/lx/net/session.hpp:37-70 | whatever follows, one pass takes the front of the one-shot parse and leaves what parses as the rest |
| `Sessions.ChunkingIndependent` | include/lx/net/session.hpp:18-79 | however the stream is chunked and the queue refuses, messages sent are a prefix of the one-shot parse with the session id overwritten, all of them once the session closed, and consumed bytes followed by buffered bytes are the stream |
| `Sessions.ClosesWhen` | include/lx/net/session.hpp:44-48 | a pass closes an open session exactly when what it leaves begins with an invalid header |
| `Sessions.AppendKeeps` | include/lx/net/session.hpp:18-26 | an append keeps the first bytes that fit in 4096 and changes nothing else |
| `Sessions.StarvedPass` | include/lx/net/session.hpp:42-43 | a pass that ends for lack of bytes has sent every message among the bytes kept and leaves at most 255, in every session |
| `Sessions.StarvedSentAll` | include/lx/net/session.hpp:28-79 | and every message of the stream when no append was cut off |
| `Sessions.NextAppendFits` | include/lx/net/session.hpp:18-26 | so the next append of up to 3841 bytes is kept whole, in every session |
| `Sessions.Session.Append` | include/lx/net/session.hpp:18-26 | buffers what fits and drops the rest |
| `Sessions.Session.Scan` | include/lx/net/session.hpp:37-70 | the decoding loop takes what a pass takes, and terminates |
| `Sessions.Session.Consume` | include/lx/net/session.hpp:28-79 | one pass, whose leftover moves to the front; an invalid frame closes the session |
| `Router.AckLeadsBack` | include/lx/engine/shard_router.hpp:20-30 | a cancel made from an Ack goes to the shard that accepted the order |
| `Router.AllLeadBack` | include/lx/engine/shard_router.hpp:20-30 | that holds for every shard exactly when there are at most 256 |
| `Router.RouteExact` | include/lx/engine/shard_router.hpp:20-30 | a message goes to shard i of n exactly when i is its symbol, or the top byte of its token, modulo n; other types go nowhere |
| `Router.ShardRouter.Push` | include/lx/engine/shard_router.hpp:20-30 | the message joins its shard's ring unless that is full, and no other ring changes |

## Left out

- Gateways (`include/lx/net/gateway.hpp`, `include/lx/net/uring_gateway.hpp`): sockets, polling and the map from sessions to
  connections; what they hand on is modelled from `Session` and from the outbound ring on.
- `include/lx/engine/shard_set.hpp` and `include/lx/util/`: holders, huge pages, pinning, timestamps and padding have no
  functional property; a huge page is an array of zeroed records.
- Engine.CancelStep: for a token that passes the tests for a free slot the model frees the slot again and acknowledges, as
  the source does, and leaves the queues alone; what unlinking a slot that is in no queue does to a level's links, count and
  total, and the ladder index of a never used slot's price, are not modelled.
- Effects.StepMoves: requires that the message is no such cancel, since it speaks of the queues; so do
  `RunFacts.EntryBalanced` and `RunFacts.CancelUncrossed`.
- Books.OrderBook.CancelOrder: requires that a handle of the slot's current generation names a queued slot, because the
  source does not test liveness and indexes its ladder and links with whatever the slot holds.
- Shards.Shard.HandleCancel: requires that a token that passes the tests names a queued order; `Engine.StepOk` shows that
  no other requirement would keep the shard intact.
- Shards.Shard.Tick: requires the same of the token at the head of the ring; `Runs.RunIsFeed` shows that issued tokens
  meet it.
- Shards.Shard.Drain: requires the same of every token of the sequence when its turn comes.
- Shards.Shard.HandleNew: the outbound ring is a list that accepts every message, and so is the inbound ring of a shard.
  That the messages pass the ring in order, and when the push loop does not wait, is stated about the ring, in `Delivery`.
- Delivery.TickNeverWaits: that a shard which does wait gets on depends on the gateway popping, which is not modelled.
- Sessions.Session.Consume: the queue is the number of messages it accepts before it refuses one, which is all a pass can
  observe; messages are frame bytes with the session id overwritten, not decoded structs.
- `price_to_idx`: the difference of price and base is exact; its overflow beyond int64 is undefined in the source. A zero
  tick is excluded for the same reason.
- Runs.Legal: a run has cancels by issued tokens only, of slots below 2^24; `Tokens.SameToken` says which slots share
  tokens beyond that, `Engine.CancelAnswer` what other tokens do.
- Spsc.Safe: the memory model is interleaving with stale but monotone counter reads; slot accesses are single steps, which
  the absence of a racing access justifies.
- The `running_` flag, `stop`, benchmarks and build files: no functional property.
- The MPSC queue, ReplaceOrder and the map for far prices of `ARCHITECTURE.md` are not in the code and not in the model.
