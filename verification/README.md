# Obz Market Lab, verified

A Dafny model of the path from an order command to a subscriber's view of the book, with
proofs of what that path promises. Verify it with `dafny verify dfyconfig.toml`.

## How it is built

**Matching.** `PriceTime` says what a side of a book means: one flat queue of orders, best
price first and oldest first within a price. Matching is greedy consumption of that queue,
and `PriceTimeFacts` shows that the greedy fill is the only outcome with the properties
that price-time priority asks for. `MatchingSpec` is the whole engine as a transition
function on such queues. The classes keep the program's form: `BookSides.BookSide` holds
price levels with cached totals and lists of mutable nodes that handles point at,
`OrderBooks.OrderBook` has the two sides, and `Engines.Engine` has the books, the index of
handles and the counter. Each method is proved to do what the transition function says, so
what `MatchingInvariant`, `MatchingTheorems`, `Answers`, `Conservation`, `Replacement`
and `SnapshotMeaning` prove about the function holds of the classes. A partial fill changes a
node through the front of its queue while the index still holds its handle; the index
never copies an order.

**Feed.** `Codec` writes the 38-byte form into an array field by field and reads it branch
by branch. `FeedEncoders` numbers updates. `SequencedBuffers` and `Processors` put arrivals
back in order; `Delivery` and `Completeness` say what that achieves on an arbitrary finite
sequence of arrivals. `Views` folds updates into the top of each book. `TopUpdates` ties
the engine's events to the tops of its books, and `EndToEnd` joins everything.

**Runner.** `RunnerProtocol` is the threaded runner as a step system over atomic accesses
to shared state, with any number of producers, one worker and one controller;
`Runners.Runner` is its code, one method for each such step, over the engine class.

Sizes, prices, totals and counters are unsigned 64-bit words. Arithmetic that can wrap in
the program wraps here: `Wrap` is written at every update of a level total and of the
order-priority counter. Two results need a bound and say so. Level totals equal true sums
modulo 2^64 always; an update can be published exactly when no moved top has wrapped to
zero (`TopUpdates.RunCanonicalIff`), which is certain when the sizes of the commands sum to
less than 2^64 (`PublishBound.AskedPublishable`) and not beyond: `TopUpdates.WrappedLevelIsRefused`
is a run of two commands with sum 2^64 where one has. Sequence numbers order queues until
2^64 - 1 of them have been used (`MatchingTheorems.RunsKeepPriority`); the order of the queue
itself, and everything else about matching, does not depend on them.

`docs/matching-rules.md` lists fewer reasons to refuse an update than the engine has: the
engine also refuses a zero user, client order or size, and the model follows the engine.
The same document gives a level's total as the size available there, which holds below
2^64 only.

## Model

| member | source | states |
|---|---|---|
| `EndToEnd.ViewFollowsEngine` | components/market_data/feed/src/top_of_book_view.cpp:47-65 | For every command run, every network behaviour (loss, duplication, reordering, corrupted datagrams that do not decode) and every processor that starts at or before the sequence after the snapshot's: whenever delivery stands at a command boundary, a view whose book was established from the engine's snapshot shows exactly the engine's depth-1 snapshot at that boundary. The only condition on the run is that its updates can be published: none wrapped to zero, and the 64-bit sequence range not used up |
| `EndToEnd.ViewCatchesUp` | components/market_data/feed/include/obz/market_lab/market_data/processor.hpp:31-58 | Once every published packet from the first expected one on has arrived, in any order within the gap limit and with any duplicates, the view shows the engine's final depth-1 snapshot |
| `EndToEnd.BoundedViewFollowsEngine` | components/market_data/feed/src/top_of_book_view.cpp:47-65 | The same with nothing asked of the run but what a caller can see beforehand: the sizes that its commands name sum to less than 2^64, and two updates a command fit in the sequence range |
| `EndToEnd.BoundedViewCatchesUp` | components/market_data/feed/include/obz/market_lab/market_data/processor.hpp:31-58 | Catching up under the same bounds |
| `EndToEnd.MidDeliverySnapshot` | components/market_data/feed/src/top_of_book_view.cpp:7-14 | A snapshot established after any number of packets have been delivered: with delivery at most one past the snapshot's sequence the view is right at the boundary; further on it is right exactly when each side of the book is told again later or ends as it was in the snapshot |
| `EndToEnd.MissedHarmlessIff` | components/market_data/feed/src/top_of_book_view.cpp:54-65 | Leaving out the first n updates gives the same tops exactly when each side is touched later or ends where it began |
| `EndToEnd.SnapshotEstablishes` | components/market_data/feed/src/top_of_book_view.cpp:7-14 | Whatever the view was, establishing the engine's snapshot meets the condition that the theorems put on the view |
| `EndToEnd.PlainNetwork` | components/market_data/feed/src/feed_encoder.cpp:50-70 | For every run whose updates can be published, a network that neither loses nor reorders meets the conditions on what is carried and reached whatever the limits, and the one on recovery when the capacity is at least the gap limit |
| `EndToEnd.PlainNetworkShows` | components/market_data/feed/src/top_of_book_view.cpp:7-65 | Over such a network, with any limits, a view established from any snapshot of the run ends up showing the engine's final depth-1 snapshot |
| `EndToEnd.ReceivedAsSent` | components/market_data/protocol/src/codec.cpp:206-221 | Datagrams that arrive as they were sent are received as they were numbered |
| `EndToEnd.SnapshotTopsAreTops` | components/matching/engine/src/order_book.cpp:527-559 | The first level of a depth-1 snapshot is the same best price and total that book updates are made from |
| `EndToEnd.DeliversPublished` | components/market_data/feed/include/obz/market_lab/market_data/processor.hpp:31-58 | What the processor delivers of genuine arrivals is one contiguous stretch of the published stream, packet for packet |
| `EndToEnd.ReceivedGenuine` | docs/market-data-protocol.md:34-36 | Each packet a receiver decodes is the published packet of its sequence number; malformed datagrams contribute nothing |
| `PriceTimeFacts.GreedyIsFill` | components/matching/engine/src/order_book.cpp:446-493 | The greedy fill has every property of price-time matching: a prefix of the queue is filled completely in order at its own prices, at most the next order is cut and only by the last trade, everything behind is untouched, every traded price crosses, size is conserved, and trading stops only at zero open size, an empty side or a price that does not cross |
| `PriceTimeFacts.FillUnique` | components/matching/engine/src/order_book.cpp:446-493 | Those properties determine the outcome: a result has them if and only if it is the greedy fill |
| `PriceTimeFacts.GreedyConserves` | components/matching/engine/src/order_book.cpp:485-487 | Matching takes from the opposite queue exactly what it trades, and the aggressor's open size falls by the same amount |
| `BookSides.BookSide.MatchOrder` | components/matching/engine/src/order_book.cpp:435-460 | The nested loops over price levels and lists, which update nodes and aggregates in place, leave exactly the greedy fill of the flattened side: remaining queue, open size, trade events in order, filled keys; handles to unfilled nodes stay valid |
| `BookSides.BookSide.MatchAgainstLevel` | components/matching/engine/src/order_book.cpp:462-494 | Matching one level stops at zero open size or an empty list, keeps the level's aggregate right modulo 2^64 and consumes nodes only from the front |
| `BookSides.BookSide.RestOrder` | components/matching/engine/src/order_book.cpp:496-525 | The remainder joins behind every order at its price or better, in a new level when there is none; the returned handle names its node; no other node changes |
| `BookSides.BookSide.RemoveOrder` | components/matching/engine/src/order_book.cpp:345-375 | A handle that names its order removes exactly that order from list, level and aggregate, and the level when it empties; any other handle changes nothing |
| `BookSides.BookSide.CancelFromLevels` | components/matching/engine/src/order_book.cpp:277-309 | The same removal, with `order_cancelled` reported exactly when it happens |
| `BookSides.BookSide.ReduceOrderSize` | components/matching/engine/src/order_book.cpp:311-343 | Succeeds exactly for a named order at an unchanged price that does not grow; then only that open size and its level's total change |
| `BookSides.BookSide.TopOfBook` | components/matching/engine/src/order_book.cpp:527-535 | Best price and total of the flattened side, or nothing when the side is empty |
| `BookSides.BookSide.SnapshotLevels` | components/matching/engine/src/order_book.cpp:537-559 | The best `depth` levels of the flattened side, best first |
| `LevelFacts.ViewsAreLevels` | components/matching/engine/src/order_book.cpp:547-556 | The levels kept in the ordered map are the maximal same-price runs of the flat queue with their sums modulo 2^64 |
| `LevelFacts.LevelsOrdered` | components/matching/engine/src/order_book.cpp:446-459 | Levels are strictly ordered best first and none is empty |
| `SnapshotMeaning.LevelsTell` | docs/matching-rules.md:202-210 | Each price at which something rests is shown exactly once, best first, with the sum (modulo 2^64) of everything that rests there |
| `SnapshotMeaning.SnapshotsTell` | components/matching/engine/src/order_book.cpp:537-559 | In every reachable state a snapshot changes nothing, shows of each side's levels a prefix of exactly `depth` or, when there are fewer, all of them, and none is given exactly for a symbol without a book |
| `OrderBooks.OrderBook.Submit` | components/matching/engine/src/order_book.cpp:77-159 | Both submit paths: events, book, filled keys and resting handle are those of matching and then resting the remainder of a limit order, bid update before ask update |
| `OrderBooks.OrderBook.Update` | components/matching/engine/src/order_book.cpp:161-217 | In-place reduction or replacement, by the handle's side; `updated` is true exactly when the handle names the order |
| `OrderBooks.OrderBook.ReplaceOrder` | components/matching/engine/src/order_book.cpp:377-433 | Remove, match as aggressor, rest; own side's update before the opposite one |
| `OrderBooks.OrderBook.Cancel` | components/matching/engine/src/order_book.cpp:219-251 | Removes the order and reports the cancellation before the change of top, on the handle's side |
| `OrderBooks.OrderBook.Snapshot` | components/matching/engine/src/order_book.cpp:67-75 | Both sides' levels up to the depth |
| `Engines.Engine.Submit` | components/matching/engine/src/engine.cpp:12-29 | The engine's books, index of handles and counter after a submit stand for the abstract step, and so do the events; all invariants are kept |
| `Engines.Engine.Update` | components/matching/engine/src/engine.cpp:31-59 | The same for updates; the handle taken from the index is proved to name its order, so the two internal rejections are dead branches |
| `Engines.Engine.Cancel` | components/matching/engine/src/engine.cpp:61-81 | The same for cancels |
| `Engines.Engine.Snapshot` | components/matching/engine/src/engine.cpp:83-95 | The snapshot of the symbol's book, or nothing for an unknown symbol |
| `Engines.Engine.RecordSubmitResult` | components/matching/engine/src/engine.cpp:189-206 | Filled keys leave the index and a resting order enters it |
| `Engines.Engine.RecordUpdateResult` | components/matching/engine/src/engine.cpp:208-221 | Filled keys leave the index; the updated key gets its new handle or leaves |
| `MatchingInvariant.StepKeeps` | components/matching/engine/src/engine.cpp:12-95 | Every command keeps: positive open sizes, price order, sides of orders, distinct keys, an uncrossed book, and an index that holds exactly the resting keys, each in its one book |
| `MatchingInvariant.EveryRunKeeps` | components/matching/engine/src/engine.cpp:12-95 | So every reachable state has them |
| `MatchingInvariant.RestUncrossed` | components/matching/engine/src/order_book.cpp:106-111 | Resting what is left after matching never crosses the book |
| `MatchingInvariant.ExecuteKeeps` | components/matching/engine/src/order_book.cpp:402-422 | Matching and then resting, for submits and repricing updates alike, keeps the whole book invariant: uncrossed, in price order, with distinct keys and positive open sizes |
| `MatchingInvariant.ExecuteKey` | components/matching/engine/src/order_book.cpp:489-492 | The keys resting after an execution are the old ones less exactly the filled ones, plus the aggressor's if it rested |
| `MatchingTheorems.AcceptedIffAcceptable` | components/matching/engine/src/engine.cpp:107-145 | A command is taken exactly when its identifiers and size are non-zero, an update is a limit and its key is active (a submit's is not); a refused command answers with one event and leaves no trace; sequence numbers are consumed only by taken submits and updates |
| `Answers.RefusedSubmit` | components/matching/engine/src/engine.cpp:107-151 | A refused submit changes nothing and is answered by one submit rejection with its own key and the first reason that applies |
| `Answers.RefusedUpdate` | components/matching/engine/src/engine.cpp:127-157 | The same for updates |
| `Answers.RefusedCancel` | components/matching/engine/src/engine.cpp:64-67 | And for cancels |
| `Answers.TakenSubmit` | components/matching/engine/src/order_book.cpp:77-159 | For any fill with the properties of price-time matching: a taken submit is answered by its own acceptance, then that fill's trades in order as events with aggressor and resting key, then at most one update a side, bid before ask; the opposite side is what the fill leaves, and the own side is as it was with the remainder of a limit order, at its price and with the next sequence number, behind every order at its price or better |
| `Answers.TakenReplacement` | components/matching/engine/src/order_book.cpp:377-433 | An update that changes the price or grows the order: update acceptance, trades, own side's update before the opposite one; the order has left its queue and its remainder joins it as a submit's would |
| `Answers.TakenReduction` | components/matching/engine/src/order_book.cpp:168-177 | Any other taken update is answered by its acceptance and at most an update of its own side |
| `Answers.TakenCancel` | components/matching/engine/src/order_book.cpp:219-251 | A cancel takes exactly that order out of its queue, leaves every other order where it is, and is answered by the cancellation and at most an update of its own side |
| `Answers.FillExists` | components/matching/engine/src/order_book.cpp:446-493 | Such a fill always exists, so every taken command has one outcome |
| `Answers.FillWithinLimit` | components/matching/engine/src/order_book.cpp:261-275 | No trade is worse than the limit price, and when size is left over the best price left does not meet the limit |
| `MatchingTheorems.RestsIffLimitRemains` | components/matching/engine/src/engine.cpp:189-206 | After a taken submit its order rests in the symbol's book exactly when it was a limit order with open size left, is active exactly then, and of the other orders exactly the filled ones left the book |
| `MatchingTheorems.NoInternalRejection` | components/matching/engine/src/engine.cpp:43-54 | No reachable command is refused because a book is missing or inconsistent, and cancelling succeeds exactly for active keys |
| `MatchingTheorems.RunsNeverRejectInternally` | components/matching/engine/src/engine.cpp:61-81 | The same after any run from an empty engine |
| `MatchingTheorems.TradesAreFair` | components/matching/engine/src/order_book.cpp:470-493 | Each trade is with another order, of the opposite side, next in priority, at its price, for a positive size within its open size; all but the last fill it; the trade count is the number of filled orders or one more |
| `MatchingTheorems.OtherBooksUnchanged` | components/matching/engine/src/engine.cpp:23-26 | A command leaves every book but its own symbol's exactly as it was |
| `MatchingTheorems.RunsKeepPriority` | docs/matching-rules.md:103-114 | Over any run that uses up at most the 2^64 - 1 positive sequence numbers (only taken submits and updates use one) each queue is strictly ordered by price and then by sequence number |
| `MatchingTheorems.StepAged` | components/matching/engine/src/order_book.cpp:508-515 | A command keeps queues ascending in sequence below the next number, as long as the number it gives out, if it does, has not wrapped |
| `MatchingTheorems.NextNumber` | components/matching/engine/src/engine.cpp:24-50 | The counter advances by one for a taken submit or update and stays for everything else |
| `MatchingTheorems.ReduceKeepsPlaces` | components/matching/engine/src/order_book.cpp:319-342 | An update at the order's own price and of at most its open size changes that open size and nobody's place, price, key or age |
| `Conservation.StepBalanced` | components/matching/engine/src/order_book.cpp:77-159 | Each command balances, for every symbol: resting quantity changes by what it entered, less twice what it traded, less what it cancelled, less what expired |
| `Conservation.QuantityConserved` | components/matching/engine/src/order_book.cpp:485-487 | Over any run and for every symbol: submitted quantity plus net update changes equals twice the traded volume plus cancelled plus expired market remainder plus what still rests |
| `Conservation.MarketTakesAll` | docs/matching-rules.md:94-101 | A market order trades all the liquidity opposite up to its size; only the excess expires |
| `Replacement.ReplaceIsResubmit` | components/matching/engine/src/order_book.cpp:377-433 | An update to another price, or of more than the open size, has the same books, active keys, counter and trades as cancelling the order and submitting it afresh |
| `Replacement.UpdateIsResubmitIffNotInPlace` | docs/matching-rules.md:63-70 | The equivalence holds exactly when the update's price differs from the order's or its size exceeds the open size |
| `TopUpdates.StepTells` | components/matching/engine/src/order_book.cpp:561-586 | A command's updates are none, or at most one per side of its own book, each carrying that side's new top and sent exactly when it changed |
| `TopUpdates.StepTold` | components/matching/engine/src/order_book.cpp:561-586 | Folding a command's updates over the tops before it gives the tops after it, for every symbol |
| `TopUpdates.RunTold` | components/matching/engine/src/order_book.cpp:561-586 | The same over runs: at a command boundary the last update of each side is its current top |
| `TopUpdates.PublishableIff` | components/market_data/protocol/src/codec.cpp:105-112 | A top can be encoded exactly when its level's true sum is not a positive multiple of 2^64; below 2^64 the published total is the true sum |
| `TopUpdates.RunCanonicalIff` | components/market_data/protocol/src/codec.cpp:89-112 | All updates of a run can be encoded exactly when no top that a command moves has wrapped to zero |
| `TopUpdates.FittingRunsPublish` | components/matching/engine/src/order_book.cpp:508 | That is so in particular while the sums of best levels fit in 64 bits |
| `PublishBound.AskedPublishable` | components/matching/engine/src/order_book.cpp:508 | Commands whose sizes sum to less than 2^64 give a run all of whose updates can be published |
| `PublishBound.BoundIsSharp` | components/matching/engine/src/order_book.cpp:508 | Two commands whose sizes sum to exactly 2^64 do not |
| `PublishBound.UpdatesBound` | components/matching/engine/src/order_book.cpp:561-586 | A run sends at most two updates a command |
| `TopUpdates.WrappedLevelIsRefused` | components/matching/engine/src/order_book.cpp:508 | Without the bound it fails: two bids of 2^63 at one price are both accepted and rest, the level shows total 0, and its update cannot be published |
| `TopUpdates.RunPublishes` | components/market_data/feed/src/feed_encoder.cpp:50-70 | Every update of such a run is published, in order, under consecutive sequence numbers; other events consume none |
| `FeedEncoders.FeedEncoder.Encode` | components/market_data/feed/src/feed_encoder.cpp:50-70 | One call is one step of the publisher: skipped event, exhaustion, refused update, or datagram and advance |
| `FeedEncoders.FeedEncoder.Create` | components/market_data/feed/src/feed_encoder.cpp:43-48 | A first sequence of zero is refused, any other starts the publisher there |
| `FeedEncoders.PublishesCanonical` | components/market_data/feed/src/feed_encoder.cpp:50-70 | For any stream of events: what is published is exactly its canonical updates, in order, numbered consecutively and cut off after 2^64 - 1; refused updates and other events consume no number; the publisher is left at the next number or exhausted |
| `FeedEncoders.PublishesEveryUpdate` | components/market_data/feed/src/feed_encoder.cpp:50-70 | So a stream of canonical updates that fits is published completely, up to and including 2^64 - 1 |
| `FeedEncoders.ExhaustedIsSilent` | components/market_data/feed/src/feed_encoder.cpp:56-58 | After 2^64 - 1 nothing more is published |
| `FeedEncoders.FeedAnswersTell` | components/market_data/feed/src/feed_encoder.cpp:50-70 | The answer to any event after any others: skipped exactly when it is no book update; exhausted exactly when the range is used up; refused for its own first reason; otherwise published under the next number, in bytes that decode to exactly what the event says |
| `FeedEncoders.CanonicalEncodes` | docs/market-data-protocol.md:55-59 | The codec takes an update exactly when its symbol is non-zero and a positive price is paired with a positive size |
| `Codec.Encode` | components/market_data/protocol/src/codec.cpp:192-204 | Invalid values are refused with the first reason in order; otherwise the buffer holds the documented 38-byte layout |
| `Codec.EncodeHeader` | components/market_data/protocol/src/codec.cpp:50-59 | Writes signature, version, type and sequence at the head of the buffer and leaves the rest of it alone |
| `Codec.EncodeBody` | components/market_data/protocol/src/codec.cpp:118-127 | Writes the five body fields behind the header and leaves the header alone |
| `Codec.WriteAndAdvance` | components/market_data/protocol/src/codec.cpp:37-41 | Writes one big-endian field at the head of the span, moves the span behind it and changes nothing else |
| `Codec.DecodeEncoded` | components/market_data/protocol/src/codec.cpp:206-221 | Decoding an encoded packet gives it back, for every valid packet |
| `Codec.EncodeDecoded` | components/market_data/protocol/src/codec.cpp:61-83 | Encoding what was decoded gives the bytes back, for every byte string the decoder takes |
| `Codec.AcceptedIffEncoded` | components/market_data/protocol/src/codec.cpp:132-188 | The decoder takes exactly the image of the encoder |
| `Codec.EncodedInjective` | components/market_data/protocol/src/codec.cpp:85-130 | Different packets have different encodings |
| `Codec.WireForm` | docs/market-data-protocol.md:25-53 | The encoded packet in bytes: 38 of them, signature, version and type as eight given bytes, 0 for buy and 1 for sell, the price flag, and sequence, price, size and symbol at their offsets with the most significant byte first |
| `Codec.BigEndian` | docs/market-data-protocol.md:3-5 | Byte i of a w-byte field is the digit of weight 256^(w-1-i) |
| `Codec.DecodedTells` | components/market_data/protocol/src/codec.cpp:143-187 | A decoded packet is a buy exactly when byte 16 is 0, has a price exactly when byte 17 is 1, and its numbers are the bytes at their offsets |
| `Codec.EncoderReasons` | components/market_data/protocol/src/codec.cpp:85-112 | Which of the four reasons the encoder gives, by the packet's own fields |
| `Codec.HeaderReasons` | components/market_data/protocol/src/codec.cpp:61-83 | Which header error the decoder gives, by the bytes, in the order of its checks |
| `Codec.BodyReasons` | components/market_data/protocol/src/codec.cpp:132-188 | Which body error, likewise |
| `Codec.DecoderReasons` | components/market_data/protocol/src/codec.cpp:206-221 | The header's error comes first, then an unknown type, then the body's error |
| `Codec.FromBeOfBe` | docs/market-data-protocol.md:3-5 | Big-endian reading undoes writing for every width and value that fits |
| `Codec.BeOfFromBe` | docs/market-data-protocol.md:3-5 | And writing undoes reading for every byte string |
| `SequencedBuffers.SequencedBuffer.Push` | components/market_data/feed/include/obz/market_lab/market_data/sequenced_buffer.hpp:36-70 | All six outcomes, in the order of the checks, with the state each leaves |
| `SequencedBuffers.SequencedBuffer.PopReady` | components/market_data/feed/include/obz/market_lab/market_data/sequenced_buffer.hpp:72-87 | Releases exactly the least pending value, and only when it is the next one due |
| `SequencedBuffers.First` | components/market_data/feed/include/obz/market_lab/market_data/sequenced_buffer.hpp:77 | The least pending key |
| `SequencedBuffers.AheadIffNotSteppedPast` | components/market_data/feed/include/obz/market_lab/market_data/sequenced_buffer.hpp:51-54 | On its own the buffer keeps every stored entry at or ahead of the next sequence in one operation exactly when that is not the push of the next sequence while an entry for it is stored; that push strands the entry |
| `SequencedBuffers.AheadIffNeverSteppedPast` | components/market_data/feed/include/obz/market_lab/market_data/sequenced_buffer.hpp:36-106 | The same over any sequence of pushes and pops |
| `SequencedBuffers.StrandedForever` | components/market_data/feed/include/obz/market_lab/market_data/sequenced_buffer.hpp:72-81 | A stranded entry stays pending with its value through all later operations, and from then on no pop releases anything |
| `SequencedBuffers.UndrainedPushStepsPast` | components/market_data/feed/include/obz/market_lab/market_data/sequenced_buffer.hpp:51-54 | A run of three pushes without a pop in which it happens |
| `Processors.Processor.Process` | components/market_data/feed/include/obz/market_lab/market_data/processor.hpp:30-58 | Push, deliver, and drain until nothing is due; the packets handed to the consumer in order |
| `Delivery.StepSettled` | components/market_data/feed/include/obz/market_lab/market_data/processor.hpp:46-57 | Between calls every pending key lies strictly above the next sequence and within the gap limit, the pending count is within capacity, an unset or exhausted sequence means nothing pending; the next sequence never goes back, up to and including 2^64 - 1 |
| `Delivery.ReadyReleases` | components/market_data/feed/include/obz/market_lab/market_data/processor.hpp:46-55 | A ready call delivers its packet and exactly the contiguous run behind it, each as it was stored, and keeps the rest |
| `Delivery.DeliversInOrder` | components/market_data/feed/include/obz/market_lab/market_data/processor.hpp:31-58 | After any arrivals the delivered sequences are a gap-free ascending run from the first expected (or first seen) one up to just before the next expected one |
| `Delivery.ExactlyOnce` | components/market_data/feed/include/obz/market_lab/market_data/sequenced_buffer.hpp:36-87 | Arrivals are delivered, pending or rejected, exactly; no sequence is accepted twice, and what is delivered or pending is packet for packet what was accepted |
| `Delivery.AnswersTell` | components/market_data/feed/include/obz/market_lab/market_data/sequenced_buffer.hpp:36-70 | Each of the six answers, to any arrival after any others: ready at the next sequence, old below it, duplicate exactly when pending, beyond the gap limit and not pending, within it with the buffer full, within it with room; 2^64 is the next sequence once the range has ended |
| `Delivery.OldIsDelivered` | components/market_data/feed/include/obz/market_lab/market_data/sequenced_buffer.hpp:47-49 | An arrival is old exactly when its sequence was delivered already or lies before the start |
| `Delivery.FirstIsReady` | components/market_data/feed/include/obz/market_lab/market_data/sequenced_buffer.hpp:42-45 | The first packet of a processor without a configured first sequence is taken, whatever its sequence |
| `Completeness.NeverFull` | components/market_data/feed/include/obz/market_lab/market_data/sequenced_buffer.hpp:60-66 | With capacity at least the gap limit no single call on a settled buffer is refused for capacity |
| `Completeness.CapacityNeverExhausted` | apps/market_data_listener/src/main.cpp:31-32 | So on no run at all, as with the listener's 64 and 64 |
| `Completeness.StaysFaithful` | components/market_data/feed/include/obz/market_lab/market_data/sequenced_buffer.hpp:36-87 | Under bounded reordering the buffer knows exactly what has arrived: it expects the lowest missing sequence and holds everything above it |
| `Completeness.Complete` | components/market_data/feed/include/obz/market_lab/market_data/processor.hpp:31-58 | Once first .. first + n - 1 have arrived, in any order within the gap limit of the lowest missing one and with any duplicates, exactly that stream has been delivered in order and nothing is pending |
| `Completeness.InOrderDelivers` | components/market_data/feed/include/obz/market_lab/market_data/processor.hpp:31-58 | Arrivals in order and without gaps are delivered as they came, whatever the limits |
| `Views.TopOfBookView.Apply` | components/market_data/feed/src/top_of_book_view.cpp:47-65 | Replaces one side of a current book by a newer update, and ignores every other update |
| `Views.TopOfBookView.Invalidate` | components/market_data/feed/src/top_of_book_view.cpp:16-22 | The loop marks every known book stale and the stream with them |
| `Views.TopOfBookView.Establish` | components/market_data/feed/src/top_of_book_view.cpp:7-14 | The symbol's book becomes the snapshot's, current |
| `Views.Rebase` | components/market_data/feed/src/top_of_book_view.cpp:47-52 | Establishing at r and applying a whole stream is applying only what came after r |
| `Views.ReplayChangesNothing` | components/market_data/feed/src/top_of_book_view.cpp:47-52 | Replaying any packets already applied, in any order and number, changes nothing |
| `Views.AppliedIsolated` | components/market_data/feed/src/top_of_book_view.cpp:47-65 | An update to one symbol never affects another |
| `Views.StaleUntilSnapshot` | components/market_data/feed/src/top_of_book_view.cpp:16-34 | After invalidation no stream of updates changes or restores anything; a snapshot restores its own symbol only |
| `Views.EstablishedIsGot` | components/market_data/feed/src/top_of_book_view.cpp:36-45 | A snapshot just established is what `get` returns and is current; other symbols are as before |
| `Views.AppliedIsGot` | components/market_data/feed/src/top_of_book_view.cpp:47-65 | What one packet does to the answer for its symbol: a newer one replaces its side by its price and size, or by nothing, and becomes the reference; any other does nothing |
| `Views.AwaitedUntilSnapshot` | components/market_data/feed/src/top_of_book_view.cpp:24-34 | Before any invalidation a symbol without a snapshot is awaited, whatever updates arrive, and `get` has nothing for it |
| `Views.GotIffCurrent` | components/market_data/feed/src/top_of_book_view.cpp:36-45 | `get` answers exactly for current symbols, with their own symbol |
| `RunnerProtocol.Linearizable` | components/matching/runtime/src/runner.cpp:122-150 | Under every interleaving of producers, worker and controller: executed commands, the one in hand and the queue are together the accepted commands in order; the engine is the sequential fold of the executed ones; replies are exactly the sequential responses; the queue respects its capacity |
| `RunnerProtocol.RealTimeOrder` | components/matching/runtime/tests/runner_tests.cpp:109-126 | A command accepted before another call began stands before it in the order of execution |
| `RunnerProtocol.StepExtends` | components/matching/runtime/src/runner.cpp:154-186 | No step changes or withdraws a reply or reorders what was accepted: each command is answered once |
| `RunnerProtocol.NoneUnanswered` | components/matching/runtime/tests/runner_tests.cpp:198-210 | When stop has returned, exactly the accepted commands have replies, each the sequential engine's, and the engine has executed them all |
| `RunnerProtocol.StoppedForGood` | components/matching/runtime/src/runner.cpp:50-58 | After stop the runner cannot be restarted, later calls throw, and log, engine and replies never change again |
| `RunnerProtocol.JoiningStep` | components/matching/runtime/src/runner.cpp:70-75 | While stop joins, the worker is never blocked, and exactly its own steps bring the end nearer, by one each |
| `RunnerProtocol.StopReturns` | components/matching/runtime/src/runner.cpp:65-76 | In any behaviour of a joining runner, whatever producers do: stop can return exactly when the worker has taken the steps that remained (three a queued job, what it had in hand, its exit), and until then the worker can take another |
| `RunnerProtocol.CallsAnswered` | components/matching/runtime/src/runner.cpp:122-130 | In any behaviour a call throws exactly when the runner was never started or its stop has begun, and otherwise goes on to its push with its command; only after a stop is the queue closed |
| `RunnerProtocol.CommandsKept` | components/matching/runtime/src/runner.cpp:82-120 | A call's command is never altered or lost: it is on its way until it is accepted as it was or thrown back |
| `RunnerProtocol.BlockedOnlyByQueue` | components/matching/runtime/src/runner.cpp:129-138 | A launched worker waits only for an empty open queue, and a push only for room in an open queue |
| `RunnerProtocol.RunnerStepKeeps` | components/matching/runtime/src/runner.cpp:50-150 | The invariant behind these, including how the flags, the controller and the worker's life fit together |
| `Runners.Runner.Visit` | components/matching/runtime/src/runner.cpp:141-186 | Visiting a queued command calls the right engine operation and yields its response |
| `Runners.Runner.Process` | components/matching/runtime/src/runner.cpp:132-138 | The worker runs the command in hand, and the protocol's invariant is kept, as by every method of the class |
| `Runners.Runner.WaitAndPop` | components/matching/runtime/src/runner.cpp:132-139 | The worker takes the oldest command, and leaves its loop exactly when the queue is closed and drained |
| `Runners.Runner.BeginEnqueue` | components/matching/runtime/src/runner.cpp:122-127 | A call is refused exactly when the runner is not accepting |
| `Runners.Runner.FinishEnqueue` | components/matching/runtime/src/runner.cpp:129 | The push appends to an open queue; one that meets a closed queue is not accepted |
| `Runners.Runner.CheckNotClosed` | components/matching/runtime/src/runner.cpp:50-53 | Start is refused after stop |
| `Runners.Runner.ExchangeAccepting` | components/matching/runtime/src/runner.cpp:55-58 | Start is refused while the runner is accepting |
| `Runners.Runner.StopAccepting` | components/matching/runtime/src/runner.cpp:65-68 | Stop does nothing unless it is the one that clears `accepting` |
| `Runners.Runner.SetClosed` | components/matching/runtime/src/runner.cpp:70 | `closed` is set after `accepting` is cleared |
| `Runners.Runner.CloseCommands` | components/matching/runtime/src/runner.cpp:71 | The queue is closed after `closed` is set |
| `Runners.Runner.LaunchWorker` | components/matching/runtime/src/runner.cpp:60-62 | The worker is launched after `accepting` is set, so a producer may already be pushing |
| `Runners.Runner.JoinWorker` | components/matching/runtime/src/runner.cpp:73-75 | Stop returns only once the worker has left its loop |
| `Runners.Runner.SetValue` | components/matching/runtime/src/runner.cpp:154-160 | The promise of the executed command gets its response |

## Left out

- Multicast sockets, the publisher and listener programs, signals and option parsing: the network is an arbitrary sequence of byte strings, of which those that decode were published.
- Scenario parsing, replay, console and JSON output, tracing, benchmarks and build scripts: no state that the properties here depend on.
- EndToEnd.ViewFollowsEngine: asks that the updates of the run can be published, because the encoder refuses a level whose total has wrapped to zero; EndToEnd.BoundedViewFollowsEngine gives bounds on the commands that ensure it. The claim is about command boundaries, because one command may emit two updates after both sides have changed.
- MatchingTheorems.RunsKeepPriority: asks that at most 2^64 - 1 sequence numbers are used up, because the order-priority counter wraps after that.
- Replacement.UpdateIsResubmitIffNotInPlace: assumes that the counter has not wrapped, so that a fresh sequence number differs from the old ones; Replacement.ReplaceIsResubmit needs no such bound.
- Concurrent callers of start and stop: the model has one controller at a time, because the program clears `accepting` before it sets `closed`, and a second controller could start again in between.
- The bounded blocking queue is a library that is not part of this model; it is taken as a FIFO that blocks pushes while full, refuses them once closed, and drains after closing.
- A feed consumer that throws or calls back into the processor: the packets handed to the consumer are a result of `Process`.
- Two methods for buy and sell: the comparator is a parameter, and each pair of paths is one method that reports bids before asks on submit, as both do; it takes both tops before matching, where a submit takes the resting side's just before resting.
- The `std::map` container: levels are a sequence in the map's order and a level is a value in it, so a lookup is a search for the price; the lists inside are sequences of mutable nodes, so an iterator is a reference to a node.
- The big-endian primitives are a library that is not part of this model; they are specified from the protocol document.
- Mutexes, promises and futures, memory orders, allocation failure, hash functions and moves: a promise is an identity with at most one reply, and each access to shared state is one step.
- Exceptions that reach a promise from the engine: the modelled operations raise none, as a trade's size is never zero.
- Out-of-range `side` values and error texts: sides are two constructors, reasons are a datatype.
- The check that a quantity is positive when it is built: an incoming size is a plain word, so that the engine's own check of zero is modelled.
