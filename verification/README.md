# Verified model of match-rust

match-rust is an exchange-matching workspace: two matching engines and the sequenced protocols
around them. This project models its core in Dafny and proves what the engines and protocols are
for, over every input, every run and, where threads, networks or crashes are involved, every
interleaving.

- **High-performance engine** (`OrderStore`, `HpLevels`, `HpBook`, `HpEngine`). The slot store, level
  index, best-price caches, level pool and client map are class state; the specification
  (`PriceTime`, `HpSpec`) is one list of resting orders in arrival order. Each command refines one step
  on that list. `HpMatching`, `HpDepth`, `HpRuns`, `HpClients`, `HpLedger` and `HpLaws` prove what the
  steps mean: closed form, priority, volume, who is used up, uncrossed book, exact client lists,
  conservation read from the events, what each command does.
- **Radix index** (`BitFlip`, `ArtKeys`, `ArtIndex`, `ArtMap`). The byte tree behaves as an ordered map over all
  64-bit ticks.
- **Java-equivalent engine** (`McTypes`, `McBook`, `McSpec`, `McSweep`, `McHandlers`, `McRuns`,
  `McExceptions`, `McForms`, `McEngine`). The handlers for limit, market, PostOnly, IOC and FOK orders refine a sweep of the
  sorted opposite side; each form is then told in closed form, and FOK is all or nothing.
- **Both engines together** (`Adapter`, `CrossEngine`, `CrossRuns`). On comparable streams they make the
  same trades.
- **Replicated state machine** (`RaftCodec`, `RaftFsm`, `RaftRetries`). Command bytes, idempotent
  apply, snapshot and restore.
- **UDP order session** (`UdpPacket`, `UdpSession`, `UdpProtocol`, `UdpSkips`, `UdpLaws`). Client and server over a network
  that loses, repeats and reorders.
- **Command ring** (`SpscArith`, `Spsc`). The object, and every interleaving of producer and consumer.
- **Journal** (`Journal`, `JournalCrash`). The mapped file, and crashes at any moment.
- **MoldUDP64** (`MoldPacket`, `MoldRing`, `MoldStream`, `MoldRuns`, `MoldGaps`) and **SoupBinTCP** (`SoupPacket`,
  `SoupSession`, `SoupRuns`, `SoupWire`). Framing, replay caches, gap tracking, re-login. Formats follow the
  Nasdaq MoldUDP64 1.00 and SoupBinTCP specifications.
- **Fixed-point decimals** (`Decimal`, `Scale`) and **byte layouts** (`Bytes`, `Layouts`).

Prices and quantities of the Java-equivalent engine are `real` numbers, since its decimals are exact.
Machine widths are explicit wherever the source depends on them: the ring's wrapping indices, the
encoded integers, length prefixes, 64-bit ticks and the decimal parser's bounds.

Where the source handles buys and sells in twin functions (`match-core`), one method takes the side and
the points where the twins differ are written out.

## Properties that fail, and exactly when

Each line names the exact condition and, after it, a failing input.

- Client lists go stale exactly when a command uses up an order of client 0, which the book tells
  beforehand (`HpClients.StepExact`, `HpClients.RunExactIff`; `HpClients.ClientZeroExample`).
- A market order of the Java-equivalent engine rests exactly when it arrives behind a priced order of its
  own side while the opposite side has orders (`McExceptions.MarketRestsIff`;
  `McExceptions.MarketRestsExample`).
- A FOK order filled exactly by two or more makers reports its last fill as partly filled, and only then
  (`McExceptions.FokStatusesIff`; `McExceptions.FokStatusExample`).
- A failed FOK order reports its whole quantity revoked exactly when nothing crossed it; otherwise its
  revoke carries what the tentative walk had left (`McForms.FokRevokeIff`; `McForms.FokRevokeExample`).
- The book comparators are transitive except between equal keys, which takes a number repeated at one price
  (`McTypes.ComparatorTransitive`; `McTypes.ComparatorNeedsDistinct`); the duplicate check keeps numbers
  distinct in every run.
- A UDP report is skipped exactly when the client takes a retransmission that starts beyond the report it
  expects (`UdpSkips.NoSkipIff`; `UdpSkips.SkipExample`), which needs a request served after its start had
  left the window (`UdpProtocol.DeliveryInOrder`).
- A MoldUDP64 heartbeat that runs ahead hides losses (`MoldRuns.CoverageIffQuiet`;
  `MoldRuns.HeartbeatExample`).
- A MoldUDP64 number is reported lost after it was delivered, or reported twice, only if truncated packets
  alone had settled it before (`MoldGaps.SettledOnce`; `MoldGaps.TruncatedExample`).
- An empty SoupBinTCP message ends a replay early (`SoupSession.ReloginExact`;
  `SoupSession.EmptyMessageExample`). Payloads over 65534 bytes do not survive framing
  (`SoupPacket.FramingExact`; `SoupPacket.LongPayloadExample`). A session name with outer white space turns
  every login away (`SoupSession.ReloginExact`; `SoupSession.SpacedNameExample`).
- A market order with a fill limit of zero reads back as unlimited (`RaftCodec.DecodeEncode`;
  `RaftCodec.ZeroFillsExample`).
- Filling an order beyond its open lots leaves its level's total wrong unless it is alone there
  (`HpBook.Book.FillOrder`, `HpLevels.OverfillTotal`; `HpLevels.OverfillExample`); no engine path does so.
- Records of 4 GiB or more do not read back from the journal (`Journal.FrameReadsBack`;
  `Journal.LongRecordExample`) or the replicated log (`RaftCodec.RecordsOfFrames`).
- Printing and parsing do not round trip for the least 64-bit value, or for nonzero values at scales above
  19 (`Scale.RoundTrip`; `Scale.RoundTripExample`).
- A decimal that renders in exponent notation is refused by the adapter (`Adapter.ToFixedExact`;
  `Adapter.ExponentRefused`).

## Where the code and its comments disagree

- crates/match-raft-fsm/src/lib.rs: the comments give 25 and 34 bytes for encoded cancel and market
  commands; the code writes 17 and 38. The model follows the code.
- crates/match-core/src/handlers/fok_buy.rs: the last fill of a multi-maker FOK walk that ends exactly
  reports the taker as partly filled. The model keeps this; see `McExceptions.FokStatusesIff`.
- crates/match-core/src/match_market.rs: a market order that arrives behind a better order of its own
  side is left on the book, though the comments say it must not rest. The model keeps this; see
  `McExceptions.MarketRestsIff`.

## Model

| member | source | states |
|---|---|---|
| OrderStores.OrderStore.Insert | crates/match-core-hp/src/order_store.rs:34-46 | a new order takes the last freed slot, or a fresh one only when none is free; no live order had that id, and the live orders gain exactly this one, last in arrival order |
| OrderStores.OrderStore.Get | crates/match-core-hp/src/order_store.rs:48-51 | a lookup finds an order exactly when it is live, and finds that order |
| OrderStores.OrderStore.SetOpen | crates/match-core-hp/src/order_store.rs:53-56 | writing an open quantity through the mutable lookup changes that order and nothing else |
| OrderStores.OrderStore.Remove | crates/match-core-hp/src/order_store.rs:58-64 | removal frees exactly a live slot and keeps the arrival order of the others; free slots stay distinct and exactly the empty ones |
| HpLevels.PushKeepsLevels | crates/match-core-hp/src/level.rs:11-14 | pushing an id on its tick keeps the index the per-tick FIFO view of the resting orders, totals included |
| HpLevels.DropKeepsLevels | crates/match-core-hp/src/book.rs:244-260 | taking an order out of its level keeps ids and total exact, for every position in the FIFO |
| HpLevels.ReopenKeepsLevels | crates/match-core-hp/src/book.rs:100-135 | a partial fill that debits the level total keeps it the sum of the open lots |
| HpLevels.OverfillTotal | crates/match-core-hp/src/book.rs:100-135 | debiting a level for at least the order's lots keeps its total exact if and only if the debit was the order's own or nothing else is on the level |
| HpLevels.OverfillExample | crates/match-core-hp/src/book.rs:100-135 | two orders on one level, one overfilled: the level's total falls short of the other order |
| HpBook.Book.BestAsk | crates/match-core-hp/src/book.rs:156-159 | the cached ask equals the lowest tick with a resting sell |
| HpBook.Book.BestBid | crates/match-core-hp/src/book.rs:161-164 | the cached bid equals the highest tick with a resting buy |
| HpBook.Book.FrontId | crates/match-core-hp/src/book.rs:166-168 | the front of a level is the oldest resting order of that side and tick, and is absent exactly when there is none |
| HpBook.Book.Rest | crates/match-core-hp/src/book.rs:81-89 | resting puts a stored order at the back of its level and keeps store, levels, totals, best-price caches and pool in agreement if and only if it was not resting already; the pending taker becomes the last in arrival order |
| HpBook.Book.RemoveFromLevel | crates/match-core-hp/src/book.rs:244-260 | taking an order out of its level debits the level, never below zero, and drops an emptied level; a missing level changes nothing; caches and pool stay right |
| HpBook.Book.Cancel | crates/match-core-hp/src/book.rs:91-97 | cancel succeeds exactly for a resting order, takes only it off the book and frees its slot |
| HpBook.Book.FillOrder | crates/match-core-hp/src/book.rs:100-135 | a fill of any size takes the lots off that order, or the whole order and its slot when depleted; everything agrees again if and only if the fill was within the open lots or the level is gone, and all but the level total agree in any case; an unknown id changes nothing |
| HpEngine.Engine.TakeFront | crates/match-core-hp/src/engine.rs:225-255 | one trade of the loop: the fill reported, the maker debited, its slot freed and its client entry dropped when depleted |
| HpEngine.Engine.MatchBuy | crates/match-core-hp/src/engine.rs:199-258 | the buy loop ends with the book, fills, client map and free list of the price-time match of the incoming order |
| HpEngine.Engine.MatchSell | crates/match-core-hp/src/engine.rs:262-321 | the sell loop does the same on the other side |
| HpEngine.Engine.OnLimit | crates/match-core-hp/src/engine.rs:120-156 | a limit order refines its step on the arrival-ordered list, in state and in events |
| HpEngine.Engine.OnMarket | crates/match-core-hp/src/engine.rs:159-195 | a market order refines its step, budget included |
| HpEngine.Engine.OnCancel | crates/match-core-hp/src/engine.rs:86-117 | a cancel refines its step, by order id first and by client id otherwise |
| HpEngine.Engine.OnOrder | crates/match-core-hp/src/engine.rs:64-84 | from every valid state, every command produces exactly the events and the next state of the price-time specification, and every redundant structure agrees again |
| HpMatching.MatchSettles | crates/match-core-hp/src/engine.rs:199-321 | the book after a match in closed form: arrival order kept, each order less exactly the lots its fills report, exactly the depleted orders gone |
| HpMatching.FillsReport | crates/match-core-hp/src/engine.rs:233-246 | every field of every fill: maker and taker with their clients, the maker's price, and what each has left at that point |
| HpMatching.MatchConserves | crates/match-core-hp/src/engine.rs:199-321 | lots traded plus lots left equal lots brought; every fill is positive; fills stay within the budget |
| HpMatching.MatchPriority | crates/match-core-hp/src/engine.rs:199-321 | no order left on the book had price-time priority over any order that traded, and every trade is within the limit |
| HpMatching.FillsSorted | crates/match-core-hp/src/engine.rs:199-321 | the makers of a match appear in price-time order, each once: with MatchPriority, the fills are the sorted prefix of the opposite side |
| HpDepth.QueueMembers | crates/match-core-hp/src/engine.rs:199-321 | the queue of an order is exactly the orders of its side at a better price, or at its price and not later |
| HpDepth.MatchDepletes | crates/match-core-hp/src/engine.rs:199-321 | a match depletes an order if and only if the order crosses, the lots queued up to it are at most the taker's, and its place in the queue is within the fill budget |
| HpMatching.MatchVolume | crates/match-core-hp/src/engine.rs:199-321 | without a budget the volume is the smaller of the order and the crossing liquidity |
| HpMatching.MatchExhausts | crates/match-core-hp/src/engine.rs:199-321 | a taker with lots left, and fills of its budget left, has emptied every crossing level |
| HpMatching.FillsFinish | crates/match-core-hp/src/engine.rs:199-321 | each fill finishes its maker or the taker, and all but the last finish their makers |
| HpRuns.StepKeeps | crates/match-core-hp/src/engine.rs:64-84 | every command keeps slots partitioned between orders and free list, open lots positive and within quantity, and the book uncrossed |
| HpRuns.MatchFrees | crates/match-core-hp/src/engine.rs:233-249 | a match moves exactly the depleted orders' slots to the free list |
| HpRuns.Run | crates/match-core-hp/src/engine.rs:64-84 | those invariants hold after every sequence of commands |
| HpRuns.MarketNeverRests | crates/match-core-hp/src/engine.rs:159-195 | after a market order the book is the old one less what its events report; it is revoked exactly when lots are left |
| HpRuns.LimitRestsRemainder | crates/match-core-hp/src/engine.rs:120-156 | a limit order rests exactly its untraded lots, last in arrival order, and reports resting exactly then |
| HpLaws.LimitTrades | crates/match-core-hp/src/engine.rs:120-156 | a limit order trades the smaller of its lots and the crossing lots, rests the others under the next slot, reports fills first and the rest last, and frees its makers' slots and, when done, its own; without lots it does nothing |
| HpLaws.MarketTrades | crates/match-core-hp/src/engine.rs:159-195 | a market order trades the smaller of its lots and the other side, or stops at its fill limit; otherwise nothing of the other side is left; what it did not trade is revoked, once, last |
| HpLaws.FreedInOrder | crates/match-core-hp/src/engine.rs:233-255 | the slots freed are those of the depleted makers, in the order of the fills |
| HpLaws.LastFreedFirst | crates/match-core-hp/src/order_store.rs:34-64 | the slot of a cancelled order is the next one handed out; a new one is made only when none is free |
| HpLaws.CancelLive | crates/match-core-hp/src/engine.rs:86-104 | cancelling a live order takes out exactly it, frees its slot, reports it revoked under its client and takes it off that client's list only |
| HpLaws.CancelClient | crates/match-core-hp/src/engine.rs:105-116 | cancelling by client takes out exactly that client's orders, frees their slots and reports one revoke each, in arrival order; with none, nothing changes |
| HpLaws.CancelUnknown | crates/match-core-hp/src/engine.rs:86-117 | an id of no live order and no listed client changes nothing |
| HpClients.StepExact | crates/match-core-hp/src/engine.rs:86-321 | a command keeps each client's list exactly its resting orders in arrival order if and only if, told from the book before it, it will not use up a crossing order of client 0 |
| HpClients.RunExact | crates/match-core-hp/src/engine.rs:86-156 | with nonzero client ids the lists are exact after every run |
| HpClients.RunExactIff | crates/match-core-hp/src/engine.rs:86-321 | over every run the lists are exact throughout if and only if no command of it uses up an order of client 0 |
| HpClients.ClientZeroExample | crates/match-core-hp/src/engine.rs:247-254 | two commands from the empty engine after which client 0 still lists a gone order |
| HpClients.CancelByClient | crates/match-core-hp/src/engine.rs:105-116 | cancelling by client removes exactly that client's orders and leaves every other client's queue as it was |
| HpLedger.StepBalances | crates/match-core-hp/src/engine.rs:64-84 | accounts kept from the events alone agree with the book after a step |
| HpLedger.RunBalances | crates/match-core-hp/src/engine.rs:64-84 | over every run, read from the events alone: the lots reported filled for each resting order are its submitted lots less its open lots, and no other order keeps an account |
| HpLedger.StepClosesInFull | crates/match-core-hp/src/engine.rs:64-321 | each event that closes an order, by depletion or revocation, accounts for all its submitted lots: those posted before plus its own |
| HpLedger.RunClosesInFull | crates/match-core-hp/src/engine.rs:64-321 | so it is over every run, for orders that came and left within one command too |
| BitFlip.FlipTopIsXor | crates/match-core-hp/src/art_index.rs:157-159 | exclusive-or with the sign bit of a 64-bit word is, on the integers, adding or subtracting two to the 63rd |
| ArtKeys.KeyBytesPreserveOrder | crates/match-core-hp/src/art_index.rs:157-159 | ticks compare as integers exactly as their key bytes compare lexicographically, over all 64-bit ticks |
| ArtKeys.KeyBytesInjective | crates/match-core-hp/src/art_index.rs:157-164 | distinct ticks have distinct key bytes |
| ArtIndex.InsertAt | crates/match-core-hp/src/art_index.rs:68-155 | insertion, leaf splits included, keeps leaves only at the root or under depth 7 and no empty inner node |
| ArtIndex.InsertFinds | crates/match-core-hp/src/art_index.rs:244-253 | after an insert a lookup finds the new level at its tick and what was there before at every other tick |
| ArtIndex.RemoveAt | crates/match-core-hp/src/art_index.rs:266-285 | removal with pruning keeps the tree well formed |
| ArtIndex.RemoveFinds | crates/match-core-hp/src/art_index.rs:266-285 | removal returns what was stored, forgets that tick and no other |
| ArtIndex.ExtremeBounds | crates/match-core-hp/src/art_index.rs:296-309 | the extreme walk returns a stored tick that bounds every stored tick |
| ArtMap.Walk | crates/match-core-hp/src/art_index.rs:323-352 | the walk yields the first n entries in tick order, ascending or descending |
| ArtMap.SortedListing | crates/match-core-hp/src/level_index.rs:61-67 | a list of a map's entries sorted by tick is the ordered map's own listing |
| ArtMap.Art.Get | crates/match-core-hp/src/art_index.rs:187-205 | get agrees with the map |
| ArtMap.Art.Contains | crates/match-core-hp/src/art_index.rs:228-230 | contains agrees with the map |
| ArtMap.Art.Insert | crates/match-core-hp/src/art_index.rs:232-242 | insert is map update, for every tree and tick |
| ArtMap.Art.Remove | crates/match-core-hp/src/art_index.rs:255-263 | remove is map removal and returns the removed level |
| ArtMap.Art.BestTickOf | crates/match-core-hp/src/art_index.rs:287-294 | the best tick is the map's least key for asks and greatest for bids |
| ArtMap.Art.Depth | crates/match-core-hp/src/art_index.rs:311-321 | depth is the first n entries of the ordered map |
| McTypes.ComparatorTotal | crates/match-core/src/order.rs:147-171 | for every two orders the book comparator answers exactly one of before, after and same key |
| McTypes.ComparatorTransitive | crates/match-core/src/order.rs:147-171 | two precedences in a row give the third if and only if the ends are not the same key |
| McTypes.ComparatorNeedsDistinct | crates/match-core/src/order.rs:162-171 | such a chain between equal keys exists, for a number repeated at one price |
| McTypes.StrLessAt | crates/match-core/src/order.rs:147-171 | order numbers compare at the first place they differ, and a number comes before its extensions |
| McHandlers.OrderBook.Insert | crates/match-core/src/book.rs:68-74 | insertion is refused exactly for an unknown side or an equal key, and otherwise puts the order at its sorted place |
| McHandlers.OrderBook.PopFirst | crates/match-core/src/book.rs:103-108 | pops the first order of a side and nothing else |
| McHandlers.OrderBook.RemoveByNo | crates/match-core/src/book.rs:114-135 | takes out the order with that number and nothing else |
| McHandlers.RevokeByNo | crates/match-core/src/match_market.rs:32-41 | revokes by number: the order leaves the book and the event carries it; an absent number does nothing |
| McHandlers.RatherThan | crates/match-core/src/match_limit.rs:163-339 | one trade between the two fronts: smaller side removed, larger side kept with the rest, both on a tie |
| McHandlers.HandleLimit | crates/match-core/src/match_limit.rs:68-139 | the limit loops refine the sweep of the opposite side at crossing prices, remainder resting |
| McHandlers.HandleHeight | crates/match-core/src/handlers/height_buy.rs:27-97 | the PostOnly, IOC and FOK loop refines the step of each form |
| McHandlers.FokHandle | crates/match-core/src/handlers/fok_buy.rs:21-112 | the crossing FOK order either fills completely or leaves the book as it was |
| McHandlers.FokWalk | crates/match-core/src/handlers/fok_buy.rs:115-228 | the recursive tentative walk ends with the complete fills or with the book restored; it terminates on the opposite orders |
| McHandlers.Rollback | crates/match-core/src/handlers/fok_buy.rs:230-240 | rollback puts every consumed maker back in its exact prior record and place and takes the FOK order off |
| McHandlers.HandleMarket | crates/match-core/src/match_market.rs:49-165 | the market loops refine the sweep bounded by the gear, with the leftover revoked for the right reason |
| McEngine.Dispatch | crates/match-core/src/engine.rs:32-75 | every order, whatever its form or status, does to its book exactly one step of the specification |
| McEngine.Engine.OnOrder | crates/match-core/src/engine.rs:32-75 | an order changes its own symbol's book by that step and no other book |
| McSweep.SweepShape | crates/match-core/src/match_limit.rs:68-139 | a sweep trades with a prefix of the opposite side in order, at the makers' prices |
| McSweep.SweepReports | crates/match-core/src/match_limit.rs:22-46 | every fill reports the smaller remainder, what each side has left after it, and statuses that agree with that |
| McSweep.SweepStops | crates/match-core/src/match_limit.rs:72-139 | a taker left over has no further order it may trade with |
| McSweep.SweepVolume | crates/match-core/src/match_limit.rs:163-281 | a sweep trades the smaller of the order and the crossing liquidity, and consumes the taker exactly when the liquidity covers it |
| McRuns.StepKeepsGood | crates/match-core/src/engine.rs:32-75 | every step over every form keeps both sides sorted, numbers unique and the book uncrossed |
| McRuns.Run | crates/match-core/src/engine.rs:32-75 | so does every sequence of orders |
| McRuns.FillsByPriority | crates/match-core/src/match_limit.rs:163-206 | after any run, the k-th fill of an order has it as taker, the k-th best opposite order as maker, the maker's price, and a crossing price unless it is a market order |
| McRuns.ImmediateFormsNeverRest | crates/match-core/src/handlers/height_buy.rs:27-97 | IOC and FOK orders are never on the book afterwards; PostOnly orders never fill |
| McRuns.FokAllOrNothing | crates/match-core/src/handlers/fok_buy.rs:21-240 | a FOK order fills exactly its quantity at crossing prices if and only if the crossing liquidity covers it, and otherwise the book is unchanged and it is revoked |
| McRuns.RunFok | crates/match-core/src/handlers/fok_sell.rs:19-240 | after every run of tradable orders a FOK order fills its quantity at crossing prices if the crossing liquidity covers it, and otherwise leaves the book as it was and is revoked for that reason |
| McRuns.RunKeepsPositive | crates/match-core/src/match_limit.rs:163-281 | no resting order is ever left with nothing to trade |
| McForms.SweepTrades | crates/match-core/src/match_limit.rs:68-206 | a sweep in closed form: it trades the smaller of the order and what the reachable orders hold, uses up the first ones, and leaves the order with exactly the difference |
| McForms.SweepTakesInOrder | crates/match-core/src/match_limit.rs:22-46 | every field of the k-th fill, from the order and the first k opposite orders |
| McForms.LimitTrades | crates/match-core/src/match_limit.rs:68-139 | a limit order trades the smaller of its quantity and the crossing liquidity, from the best order on; what is left rests at its place and nothing is revoked |
| McForms.IocTrades | crates/match-core/src/handlers/height_buy.rs:27-97 | an IOC order trades the smaller of its quantity and the crossing liquidity; what is left is revoked, once, exactly when the liquidity does not cover it; its own side does not change |
| McForms.FokTrades | crates/match-core/src/handlers/fok_buy.rs:21-240 | a FOK order that fills takes the opposite orders as any other would; one that does not leaves the book alone and is revoked with what its walk had left |
| McForms.FokRevokeIff | crates/match-core/src/handlers/fok_buy.rs:115-240 | a failed FOK order reports its whole quantity revoked if and only if no opposite order crossed it |
| McForms.FokRevokeExample | crates/match-core/src/handlers/fok_buy.rs:115-240 | a FOK buy of two against a sell of one is reported revoked with one left, though nothing traded |
| McForms.MarketTurnedBack | crates/match-core/src/match_market.rs:49-165 | a market order with nothing to trade against is revoked whole as empty, one behind another market order as blocked, and one behind a priced order rests whole |
| McForms.MarketTrades | crates/match-core/src/match_market.rs:49-165 | any other market order trades with as many opposite orders as its gear allows, a buy only up to the first market order, and the rest is revoked for the reason it stopped |
| McForms.PostOnlyRests | crates/match-core/src/handlers/height_buy.rs:27-60 | a PostOnly order rests whole if it reaches no opposite order and is revoked whole otherwise |
| McForms.UserRevokes | crates/match-core/src/match_limit.rs:48-65 | a user's revoke takes out exactly the order of that number on its side and reports what was left of it |
| McForms.NothingHappens | crates/match-core/src/engine.rs:32-75 | a revoke of an absent number, a new order under a live number and an order of no side do nothing |
| McForms.RunMeets | crates/match-core/src/engine.rs:32-75 | after every run of tradable orders the conditions of these laws hold for the next order |
| McExceptions.MarketRestsIff | crates/match-core/src/match_market.rs:49-165 | a market order is left on the book if and only if the opposite side has orders and the first order of its own side is not a market order and does not come after it |
| McExceptions.MarketRestsExample | crates/match-core/src/match_market.rs:49-165 | a book reached by two orders on which a market order is left |
| McExceptions.FokStatusesIff | crates/match-core/src/handlers/fok_buy.rs:21-228 | a filled FOK order reports every status in agreement with what is left if and only if no two or more of the first opposite orders add up exactly to it |
| McExceptions.FokStatusExample | crates/match-core/src/handlers/fok_buy.rs:115-228 | a book reached by two orders on which an exactly filled FOK order is reported as partly filled |
| Adapter.ToFixedExact | crates/match-core-hp/src/adapter.rs:79-85 | with a rendering that writes the number, a decimal is accepted if and only if its text is in the plain grammar and fits the scale and 64 bits, and then it is the exact scaled integer |
| Adapter.ExponentRefused | crates/match-core-hp/src/adapter.rs:79-85 | a decimal rendered in exponent notation is refused at every scale |
| Adapter.ConvertedIff | crates/match-core-hp/src/adapter.rs:32-73 | exactly which orders are converted, and which error each of the others gets |
| Adapter.IdsAreNumerals | crates/match-core-hp/src/adapter.rs:75-77 | every 64-bit numeral is read as its number, with or without a plus; empty and negative ones are refused |
| CrossEngine.BestTwin | crates/match-core/src/book.rs:91-101 | the first order of the sorted side and the front of the best level are the same order |
| CrossEngine.SweepIsMatch | crates/match-core-hp/src/engine.rs:199-321 | a sweep of one engine and a match of the other make the same trades and leave matching books |
| CrossRuns.OrdersAgree | crates/match-core-hp/src/adapter.rs:32-73 | one comparable order makes the same trades on both engines and keeps the books matching |
| CrossRuns.EnginesAgree | crates/match-core-hp/src/adapter.rs:32-73 | for every comparable stream the engines emit the same sequence of taker, maker, price and quantity |
| RaftCodec.DecodeEncode | crates/match-raft-fsm/src/lib.rs:106-169 | decoding inverts encoding exactly for commands that are not a market order with a zero fill limit, which reads back as unlimited |
| RaftCodec.ZeroFillsExample | crates/match-raft-fsm/src/lib.rs:106-169 | a market order for no fills reads back as one for any number |
| RaftCodec.RecordsOfFrames | crates/match-raft-fsm/src/lib.rs:42-59 | reading the length-framed log gives back the appended records if and only if each fits the 32-bit prefix |
| RaftFsm.GroupState.Apply | crates/match-raft-fsm/src/lib.rs:212-225 | a new key appends the command, advances the state by it and returns its events; a repeated key changes nothing and has no effects |
| RaftFsm.GroupState.TakeSnapshot | crates/match-raft-fsm/src/lib.rs:227-233 | a snapshot holds the framed log and the keys applied |
| RaftFsm.GroupState.ReplayAll | crates/match-raft-fsm/src/lib.rs:42-59 | replay consumes every complete record in order and collects its keys |
| RaftFsm.GroupState.Restore | crates/match-raft-fsm/src/lib.rs:235-248 | a restored group has the state built by the snapshot's records |
| RaftFsm.BuildAppend | crates/match-raft-fsm/src/lib.rs:42-59 | building from a log is applying its commands one by one |
| RaftFsm.SnapshotRestores | crates/match-raft-fsm/src/lib.rs:227-248 | restoring a snapshot of any valid group whose records fit the length prefix gives the same engine state, counters, log and key set |
| RaftFsm.CountsAreNumbers | crates/match-raft-fsm/src/lib.rs:216-225 | the counters are the numbers of fill and of revoke events |
| RaftFsm.GroupReads | crates/match-raft-fsm/src/lib.rs:212-225 | read from the log of any valid group: its engine is the engine after those commands, its counters number the fills and revokes of that run, its keys are those the records carry |
| RaftRetries.DeliverKeys | crates/match-raft-fsm/src/lib.rs:212-225 | after any delivery the accepted keys are all the keys delivered |
| RaftRetries.RetryInvisible | crates/match-raft-fsm/src/lib.rs:212-225 | a retry of a delivered key, wherever it arrives, leaves the accepted log as if it had not come |
| RaftRetries.FirstOfEachKey | crates/match-raft-fsm/src/lib.rs:212-225 | whatever is delivered, a record is accepted if and only if no record before it carried its key |
| UdpPacket.DecodeEncode | crates/match-udp-order/src/packet.rs:37-58 | a frame is read back from its datagram |
| UdpPacket.ParseNestedAll | crates/match-udp-order/src/session.rs:307-337 | the nested reports of a retransmission are read back in order with their payloads |
| UdpSession.ServerSession.OnDatagram | crates/match-udp-order/src/session.rs:86-161 | a datagram moves the server as the protocol step says; undecodable bytes do nothing |
| UdpSession.ServerSession.BuildNakResponse | crates/match-udp-order/src/session.rs:196-210 | the retransmission loop yields exactly the stored reports in the clipped range |
| UdpSession.ServerSession.AckAndReport | crates/match-udp-order/src/session.rs:164-182 | a report is numbered, stored and sent; the oldest leaves when the window is full |
| UdpSession.ClientSession.SendOrder | crates/match-udp-order/src/session.rs:237-243 | an order gets the next number and stays pending |
| UdpSession.ClientSession.OnNakResponse | crates/match-udp-order/src/session.rs:307-337 | the retransmission loop delivers exactly the reports not seen before and advances past them |
| UdpSession.ClientSession.OnDatagram | crates/match-udp-order/src/session.rs:286-361 | a datagram moves the client as the protocol step says |
| UdpProtocol.DoKeeps | crates/match-udp-order/src/session.rs:86-361 | every action, with datagrams lost, repeated or reordered, keeps the protocol invariant |
| UdpProtocol.SurfacedIsPrefix | crates/match-udp-order/src/session.rs:86-128 | in every run the orders surfaced are a prefix of the orders sent: each once, in order, unaltered |
| UdpProtocol.OneNakPerGap | crates/match-udp-order/src/session.rs:105-128 | in every run at most one resend request goes out per gap start |
| UdpProtocol.WindowIsLatest | crates/match-udp-order/src/session.rs:164-182 | the report store is always the last reports, as many as the capacity allows |
| UdpProtocol.DeliveryInOrder | crates/match-udp-order/src/session.rs:286-337 | reports reach the client in strictly increasing order with original payloads, and without a skip as long as no request was served after its start had left the window |
| UdpSkips.StepDeficit | crates/match-udp-order/src/session.rs:286-361 | the count of reports passed over grows exactly when the client takes a retransmission that starts beyond the report it expects |
| UdpSkips.NoSkipIff | crates/match-udp-order/src/session.rs:286-361 | over every run what was delivered is exactly the reports before the expected one if and only if no such retransmission was taken |
| UdpSkips.SkipExample | crates/match-udp-order/src/session.rs:196-337 | a run with a window of one report in which the client skips two |
| UdpLaws.OrderArrives | crates/match-udp-order/src/session.rs:92-127 | an order is surfaced exactly when it is the next one, acknowledged if it has been surfaced by then and otherwise to be sent again; a gap is asked for the first time it shows |
| UdpLaws.AcknowledgedIsSurfaced | crates/match-udp-order/src/session.rs:92-127 | in every run an order answered OK on receipt has been surfaced, unaltered and for good; any other is answered with the request to send it again |
| UdpLaws.RequestServed | crates/match-udp-order/src/session.rs:128-210 | a request is answered with exactly the original reports from the first one still in the window on, as many as were asked for and exist |
| UdpLaws.ReportArrives | crates/match-udp-order/src/session.rs:293-306 | a report is delivered exactly when it is the expected one; a later one makes the client ask for all between; an earlier one does nothing |
| UdpLaws.ResponseArrives | crates/match-udp-order/src/session.rs:307-337 | a retransmission delivers exactly those of its reports not yet behind the client |
| UdpLaws.GapCloses | crates/match-udp-order/src/session.rs:196-337 | a late report, the request it causes and the answer to it deliver exactly the missing reports while they are in the window |
| UdpLaws.AckArrives | crates/match-udp-order/src/session.rs:338-346 | an acknowledgement reads back as its number and result, and the client forgets that order and no other |
| UdpLaws.HelloAnswered | crates/match-udp-order/src/session.rs:136-152 | a greeting's answer reads back as the last report, the oldest one kept, and a flag exactly when the next one wanted is gone |
| Spsc.SpscRing.constructor | crates/match-core-hp/src/spsc.rs:38-50 | the capacity is the least power of two that is at least two and at least the request |
| Spsc.SpscRing.TryPush | crates/match-core-hp/src/spsc.rs:64-75 | a push is refused exactly when the ring is full and otherwise appends, across index wraparound |
| Spsc.SpscRing.TryPop | crates/match-core-hp/src/spsc.rs:78-87 | a pop returns the oldest unread command, or none exactly when there is none |
| Spsc.SpscRing.PopN | crates/match-core-hp/src/spsc.rs:90-109 | a batch pop appends the oldest commands, as many as asked for and available |
| Spsc.RepeatedTryPop | crates/match-core-hp/src/spsc.rs:78-109 | single pops have the effect a batch pop has |
| Spsc.DoKeeps | crates/match-core-hp/src/spsc.rs:64-109 | each load, store and slot access of either side keeps the ring invariant |
| Spsc.BoundedFifo | crates/match-core-hp/src/spsc.rs:64-109 | under every interleaving what was popped is a prefix of what was pushed, and no more than the capacity is in flight |
| Spsc.NoUnreadOverwritten | crates/match-core-hp/src/spsc.rs:64-75 | under every interleaving a producer write leaves every unread slot as it was |
| Spsc.RefusalsAreExact | crates/match-core-hp/src/spsc.rs:64-109 | under every interleaving a push is refused exactly when full and a pop comes back empty exactly when empty |
| Spsc.PublishesWhatItStarted | crates/match-core-hp/src/spsc.rs:64-75 | under every interleaving a push ends by publishing the command it was started with, and nothing else changes what was pushed |
| Spsc.PopsTheOldest | crates/match-core-hp/src/spsc.rs:78-109 | under every interleaving a pop takes as many commands as are there and asked for, the oldest not yet popped |
| SpscArith.SlotOfWrapped | crates/match-core-hp/src/spsc.rs:70-71 | masking an index is not disturbed by its wrapping at two to the 64th |
| SpscArith.SlotIsRemainder | crates/match-core-hp/src/spsc.rs:70-71 | the slot of an index is its remainder by the capacity |
| Journal.MmapJournal.Append | crates/match-core-hp/src/journal.rs:104-121 | an append returns the record's offset and adds it to the log, or refuses exactly when it does not fit; earlier bytes stay |
| Journal.MmapJournal.AppendBatch | crates/match-core-hp/src/journal.rs:124-144 | a batch appends the longest prefix that fits and reports its bytes |
| Journal.MmapJournal.Commit | crates/match-core-hp/src/journal.rs:161-189 | the header becomes the cursor unless the data sync failed first |
| Journal.MmapJournal.IterRecords | crates/match-core-hp/src/journal.rs:208-225 | iteration yields the records of the area up to the bound, each with its offset |
| Journal.FrameReadsBack | crates/match-core-hp/src/journal.rs:104-121 | a record reads back as itself if and only if its length fits the 32-bit prefix |
| Journal.LongRecordExample | crates/match-core-hp/src/journal.rs:104-121 | a record of 4 GiB does not read back |
| JournalCrash.DoKeeps | crates/match-core-hp/src/journal.rs:104-189 | appends, both syncs, the header write and write-back of any bytes at any time keep the durability invariant |
| JournalCrash.CrashRecoversACommit | crates/match-core-hp/src/journal.rs:161-225 | whenever the crash comes, recovery returns exactly the records before some commit, no earlier than the last successful one |
| JournalCrash.CommittedSurvives | crates/match-core-hp/src/journal.rs:161-225 | what a successful commit covered is recovered after every later crash |
| JournalCrash.CommitCompletes | crates/match-core-hp/src/journal.rs:161-189 | a commit whose syncs succeed goes through its three steps, and a crash right after it recovers every record appended |
| JournalCrash.AppendsRecord | crates/match-core-hp/src/journal.rs:104-121 | an append that fits adds its record without touching the disk; one that does not fit changes nothing |
| MoldPacket.HeaderRoundTrip | crates/match-moldudp64/src/types.rs:87-136 | downstream headers and requests are read back from their twenty bytes |
| MoldPacket.DownstreamRoundTrip | crates/match-moldudp64/src/publisher.rs:185-201 | a packet of messages below 64 KiB is read back whole, each message under its number |
| MoldRing.MessageRingBuf.Push | crates/match-moldudp64/src/ring_buf.rs:52-74 | a push appends to the history; slots, base and low watermark follow it |
| MoldRing.FloorWhenConsecutive | crates/match-moldudp64/src/ring_buf.rs:52-74 | with consecutive numbers the low watermark is the oldest number still cached |
| MoldRing.MessageRingBuf.Get | crates/match-moldudp64/src/ring_buf.rs:76-81 | a lookup only finds a cached message with that number; with consecutive numbers it hits exactly the last capacity messages |
| MoldRing.MessageRingBuf.GetRange | crates/match-moldudp64/src/ring_buf.rs:87-99 | a range holds cached messages with consecutive numbers from its start; with consecutive pushes it is the longest such run |
| MoldStream.MoldPublisher.Publish | crates/match-moldudp64/src/publisher.rs:64-68 | a message gets the next number, joins the history and is sent as its own packet |
| MoldStream.MoldPublisher.PublishBatch | crates/match-moldudp64/src/publisher.rs:81-146 | a batch sends, numbers and caches exactly the longest prefix that fits the datagram |
| MoldStream.ServeOnce | crates/match-moldudp64/src/retransmit.rs:43-87 | a request is answered from the cache only, with consecutive messages from the requested number; with consecutive pushes, exactly with the retained run; short and foreign requests are not answered |
| MoldStream.MoldSubscriber.ParsePacket | crates/match-moldudp64/src/subscriber.rs:117-189 | a datagram moves the watermark and reports messages and gap as the receiving step says |
| MoldStream.MoldSubscriber.Recv | crates/match-moldudp64/src/subscriber.rs:102-113 | short datagrams are ignored |
| MoldRuns.WatermarkGrows | crates/match-moldudp64/src/subscriber.rs:171-181 | the watermark never goes back, whatever arrives |
| MoldRuns.RunCovers | crates/match-moldudp64/src/subscriber.rs:125-189 | over every run, truncated packets and replays included, each number up to the watermark was delivered or reported lost unless a heartbeat ran ahead |
| MoldRuns.CoverageIffQuiet | crates/match-moldudp64/src/subscriber.rs:128-181 | over complete datagrams coverage holds throughout if and only if no heartbeat announced beyond the next expected number |
| MoldRuns.HeartbeatExample | crates/match-moldudp64/src/subscriber.rs:128-181 | one message and one heartbeat that runs ahead: a number below the watermark was neither delivered nor reported lost |
| MoldGaps.GapExact | crates/match-moldudp64/src/subscriber.rs:137-147 | a packet reports a gap if and only if it carries messages and starts beyond the number after the watermark; it names exactly the numbers strictly between and counts them |
| MoldGaps.NothingLostTwice | crates/match-moldudp64/src/subscriber.rs:137-181 | over complete datagrams no number is reported lost after it was delivered or reported lost |
| MoldGaps.GapsDisjoint | crates/match-moldudp64/src/subscriber.rs:137-181 | over complete datagrams the reported gaps do not overlap and come in increasing order |
| MoldGaps.WatermarkIsGreatest | crates/match-moldudp64/src/subscriber.rs:125-181 | over every run the watermark is the greatest number a complete datagram told of |
| MoldGaps.SettledOnce | crates/match-moldudp64/src/subscriber.rs:149-181 | over all runs a number reported lost was delivered or reported before by truncated packets at most |
| MoldGaps.TruncatedExample | crates/match-moldudp64/src/subscriber.rs:149-181 | a truncated packet delivers a number that is then reported lost |
| MoldRuns.OnlyPublished | crates/match-moldudp64/src/subscriber.rs:150-169 | however packets are lost, repeated and reordered, only published messages surface, each under its own number |
| MoldRuns.NakReplyExact | crates/match-moldudp64/src/retransmit.rs:62-87 | a retransmission reply reads back as the original messages from the requested start, and comes exactly when the start is retained |
| MoldRuns.ReplyIsGenuine | crates/match-moldudp64/src/retransmit.rs:62-87 | every retransmission reply is a packet of published messages, so OnlyPublished covers replies |
| SoupPacket.ParseStream | crates/match-soupbintcp/src/packet.rs:147-164 | the loop consumes exactly the complete packets at the front |
| SoupPacket.TwoChunks | crates/match-soupbintcp/src/packet.rs:147-164 | parsing a part, then its leftover with the rest, is parsing the whole |
| SoupPacket.ChunkingInvisible | crates/match-soupbintcp/src/packet.rs:147-164 | however a stream is cut into reads, the same packets come out and the same bytes are left |
| SoupPacket.ParseInvertsWire | crates/match-soupbintcp/src/packet.rs:51-61 | packets written back to back are read back whole |
| SoupPacket.FramingExact | crates/match-soupbintcp/src/packet.rs:51-61 | a packet survives framing if and only if its payload is at most 65534 bytes |
| SoupPacket.LongPayloadExample | crates/match-soupbintcp/src/packet.rs:51-61 | a payload of 65535 bytes does not survive |
| SoupPacket.SequenceFieldRoundTrip | crates/match-soupbintcp/src/packet.rs:209-219 | every 64-bit number survives its padded ASCII field |
| SoupSession.LoginRoundTrip | crates/match-soupbintcp/src/packet.rs:71-114 | a login request is read back with its sequence and its session name as the padded field keeps it, for every name |
| SoupSession.AcceptedRoundTrip | crates/match-soupbintcp/src/packet.rs:89-122 | the granted sequence is read back |
| SoupSession.NewServer | crates/match-soupbintcp/src/session.rs:76-87 | a session name longer than its field is refused, and any other starts an empty session |
| SoupSession.ServerSession.Enqueue | crates/match-soupbintcp/src/session.rs:91-101 | a message gets the next number and the store holds the last ones, at least one even for capacity zero |
| SoupSession.ServerSession.HandleLogin | crates/match-soupbintcp/src/session.rs:115-146 | a login is rejected for a foreign session, and otherwise granted a start and sent everything retained from it |
| SoupSession.LoginGranted | crates/match-soupbintcp/src/session.rs:115-146 | a foreign session is rejected; any other login is granted the number asked for if kept or next, the oldest kept if that number is gone, the next one for 0 or beyond, and is sent every message from there |
| SoupSession.ServerSession.HandlePacket | crates/match-soupbintcp/src/session.rs:150-170 | a logout closes, data, heartbeats and debug packets do nothing, unknown kinds are errors, and exactly a granted login sets the logged-in flag |
| SoupSession.ClientSession.HandlePacket | crates/match-soupbintcp/src/session.rs:220-259 | each server packet moves the expected sequence and login state by its kind |
| SoupSession.ReplayAccepted | crates/match-soupbintcp/src/session.rs:233-249 | a logged-in client takes a whole replay exactly when no message in it is empty |
| SoupSession.ReloginExact | crates/match-soupbintcp/src/session.rs:115-146 | after a re-login over a stream cut in any way the client accepted exactly the retained messages from the granted start and expects the server's next number, if and only if none is empty; a session name its field does not keep is turned away |
| SoupSession.EmptyMessageExample | crates/match-soupbintcp/src/session.rs:233-249 | one empty message: after the re-login the client is not caught up |
| SoupSession.SpacedNameExample | crates/match-soupbintcp/src/packet.rs:71-114 | a name of legal length with leading space is not kept by its field |
| SoupRuns.DoKeeps | crates/match-soupbintcp/src/session.rs:91-259 | messages, deliveries, broken connections and re-logins keep the session invariant packet by packet, empty messages included |
| SoupWire.PrefixArrives | crates/match-soupbintcp/src/packet.rs:147-164 | however much of the stream has arrived, a prefix of the packets was read and the bytes left are exactly the others |
| SoupWire.DoKeeps | crates/match-soupbintcp/src/session.rs:91-259 | so do all actions over a byte stream that arrives in arbitrary pieces |
| SoupWire.AtMostOnceInOrder | crates/match-soupbintcp/src/session.rs:91-259 | over every run the client accepts original messages in strictly increasing order, and each number it passed was accepted or had left the store |
| SoupWire.NoLossWithinStore | crates/match-soupbintcp/src/session.rs:91-259 | while everything sent fits the store the client has exactly a prefix, across any disconnections |
| SoupWire.CaughtUp | crates/match-soupbintcp/src/session.rs:91-259 | once all bytes of a live connection arrived the client is logged in and expects the server's next number, or it stopped at an empty message |
| Layouts.CommandLayout | crates/match-raft-fsm/src/lib.rs:106-141 | where each field of a replicated command lies, little-endian, signed ones in two's complement |
| Layouts.RecordLayout | crates/match-raft-fsm/src/lib.rs:42-59 | a logged record is its length in four little-endian bytes, then its bytes |
| Layouts.FrameLayout | crates/match-udp-order/src/packet.rs:37-48 | a UDP frame is the magic, the big-endian sequence, the type and the payload |
| Layouts.DownstreamLayout | crates/match-moldudp64/src/publisher.rs:185-201 | a MoldUDP64 packet is session, first number and count, then each message after its length, big-endian |
| Layouts.PacketLayout | crates/match-soupbintcp/src/packet.rs:51-61 | a SoupBinTCP packet is the big-endian length of what follows, the type and the payload |
| Layouts.SequenceLayout | crates/match-soupbintcp/src/packet.rs:202-219 | a sequence number is its numeral right-aligned in twenty characters |
| Layouts.LoginLayout | crates/match-soupbintcp/src/packet.rs:107-114 | where user, password and sequence of a login lie |
| Bytes.LeByteAt | crates/match-raft-fsm/src/lib.rs:106-141 | byte i of a little-endian number is its i-th digit to base 256 |
| Bytes.BeByteAt | crates/match-udp-order/src/packet.rs:37-48 | big-endian has the same digits in the other order |
| Scale.ParseFixed | crates/match-core-hp/src/scale.rs:36-86 | the parser computes the outcome the grammar gives |
| Scale.OutcomeExact | crates/match-core-hp/src/scale.rs:36-86 | a string is empty, outside the grammar, or parsed to the one number it writes: too many digits, overflow, or the scaled value |
| Scale.MagnitudeIsExact | crates/match-core-hp/src/scale.rs:69-80 | the scaled value is the decimal's value times ten to the scale, exactly |
| Scale.PrintedWrites | crates/match-core-hp/src/scale.rs:93-110 | a printed value is in the grammar, trimmed, and writes its own sign, whole and fraction |
| Scale.PrintsCanonically | crates/match-core-hp/src/scale.rs:93-110 | a value is printed as a minus or nothing, its whole part without idle zeros, and all decimals of the scale, nineteen at most |
| Scale.RoundTrip | crates/match-core-hp/src/scale.rs:36-110 | printing then parsing returns the value if and only if it is not the minimum and the scale is at most 19 or the value zero |
| Scale.RoundTripExample | crates/match-core-hp/src/scale.rs:36-110 | the least 64-bit value, and one lot at twenty decimals, do not round trip |

## Left out

- average_price: it depends on a library's division precision and does not affect matching.
- The decimal library's rendering of a number: it is a parameter of the adapter, required only to write that number when it is in the plain grammar; which numbers it renders in exponent notation is not modelled.
- Level objects: a level is a value stored in the index map, so recycling is modelled as returning an empty level, not as reuse of the same allocation.
- HpBook.Book.RecycleLevel: states only that pooled levels are empty; pool order and capacity are not observable.
- The level index inside the book is a map; the radix tree is proved to be that map separately, and get_mut and get_or_insert_with are not modelled as references.
- book.insert_limit, depth queries of both books and resting_orders: they would only add easy members.
- Test-only hooks that corrupt the book, and the defensive branches they reach, which are unreachable from valid states.
- 64-bit overflow of lot sums: quantities are mathematical integers.
- match-core buy and sell twins: one parametrised method each, so textual differences that do not change behaviour are not visible.
- match-raft-fsm: the map from group ids to groups, the byte encoding of effects and the bincode framing of snapshots; one group is modelled. Command bytes shorter than their layout make the source panic and are excluded by a precondition.
- match-udp-order: timeouts are arbitrary resends, nak_request as a stand-alone call is not modelled, and runs stay below 32-bit wraparound. Eventual acceptance is not claimed, since the client forgets an order on any acknowledgement.
- Weak memory: the ring's steps are sequentially consistent; acquire and release orderings are not modelled. len_approx is left out.
- Journal: the system calls are steps, the 8-byte header reaches the disk whole or not at all, capacity is at least the header, and file creation and drop are left out.
- match-moldudp64: sockets, the session-name packing and its debug assertion, and the NAK emission helper; sequence numbers stay below 64-bit overflow; one publisher at a time.
- MoldStream.MoldPublisher.Publish: does not model the window between the two locks when several threads publish.
- match-soupbintcp: OUCH field codecs, credentials and heartbeat clocks; messages of a run are at most 65534 bytes and fewer than two to the 64th; white space in login fields is ASCII.
- worker, affinity, match-contract, match-spot, match-wal, match-protocol, match-bench, match-replay, match-dpdk-io: plumbing, flat field checks or foreign calls.
