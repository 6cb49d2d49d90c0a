# Verified model of the mini-oems order management core

This project models, in Dafny 4.11, the parts of the order management system that must agree with each other: the
price-time-priority matching book, the multi-symbol engine, the order manager with its event log and durable tables, the FIX
tag-value codec, the pre-trade risk checks, and the TWAP and VWAP slicers. Check it with `dafny verify dfyconfig.toml`.

## How the model is built

**The book.** `PriceTime` states price-time priority the naive way: one list of resting orders in arrival order, scanned again
and again for the best price, earliest entry first. `OrderBooks.OrderBook` is the implementation's form: two maps from price to
a queue, an id index, and nested matching loops over them. Its `Valid` says that maps, queues and index are exactly the grouping
of one ghost list, and each method is proved to do to that list what the naive definition does. `Allocation` gives a third,
closed form (an entry trades what is left after everything ahead of it) and derives priority, maximality, conservation and
additivity from it. `BookLevels` holds the frame lemmas, `Snapshots` the depth views.

**The order manager.** `Lifecycle` is the state machine of submissions, cancels and restarts on values: order table, event log,
executions, counters, books and the three durable tables. `OrderManagers.OrderManager`, `OrderManagers.Database` and
`MatchingEngines.MatchingEngine` are classes with the source's fields and loops, proved to compute exactly those functions.
`Invariant` proves that one invariant ties all five descriptions together after every operation: `Agreement` (the book of a
symbol is the open limit orders of the table, in id order), `Ledger` (double entry), `EventLog` (the log is in the lifecycle
language, replays to the stored status and reports every execution) and `Durable` (tables mirror memory). `Submissions` ties an
entered order, its trades and its answer to the request. A restart keeps that invariant too, whatever
texts the orders hold, so `Runs` proves its results for every run of submissions, cancels and restarts. Uncrossed books are a
separate property, because a restart can break it: `Recovery` and `Runs` say exactly when. The risk verdict is an arbitrary
input of each submission.

**The FIX codec.** A message is its list of fields; bytes are characters below 256. `FixMessages.FixMessage` has the source's
loops; `FixCodec` proves exactly when a message survives the wire and exactly which one-byte damage strict parsing accepts. The
checksum is the one of Appendix B (CheckSum Calculation) of the FIX 4.2 specification.

**Risk and slicing.** `RiskManagers.RiskManager` has the checks in their order and the sliding window; the time of a check is an
input. `RiskRules` proves the bound on every window and the exact sets of accepted prices. `Slicing` has the slicing loops; VWAP
weights are real numbers.

## What the proofs found

- Text columns are bound to the database up to their first NUL (`src/core/persistence/database.cc:123-151`). Recovery is therefore
  exact if and only if no stored client order id or symbol holds a NUL (`Recovery.RecoveryIsExactIffNulFree`), and restarts are
  invisible to a whole run if and only if no valid request before a restart holds one (`Runs.RestartsAreInvisibleIff`). Ledger,
  log, tables and the agreement of manager and books survive a restart in any case. Two symbols that differ behind a NUL are
  restored into one book, which may then be crossed (`Findings.NulSymbolsCanCrossTheRestoredBook`);
  `Recovery.RestartIsUncrossedIff` is the exact condition.
- A market order left `PartiallyFilled` rests nowhere; cancelling it logs `CancelRequested` and fails. The error is `OrderNotFound`
  while the symbol's empty book exists and `BookNotFound` after a restart, because books without open orders are not restored.
  `Recovery.CancelAnswerDiffersIff` lists every difference a restart makes to the answer of a cancel.
- The status diagram at `src/core/types/types.h:68-78` has no rejection after acceptance and no partial fill before a cancel. The
  code also rejects an accepted market order that finds no liquidity, cancels partly filled limit orders, and never stores
  `PendingCancel`. `EventLog.NextPhase` follows the code.
- Strict parsing accepts a damaged checksum field in one family of cases: the checksum is `000` and its first digit becomes `-`, or
  its second or third digit becomes a byte that is neither a digit nor the delimiter. Nothing else of one byte goes unnoticed. The
  family is not empty: `FixCodec.CorruptionCanBeAccepted` has a message.
- A begin string that holds `9=` makes every message unreadable (`FixCodec.BeginStringHidesTheLength`): only the first occurrence
  of the body length tag is looked at.
- The rate limit's bound needs a clock that does not run backwards; the system clock it reads promises no such thing. Under any
  limit of two or more every single step back of the clock breaks the bound in some run; under a limit of one no clock can
  (`RiskRules.BoundNeedsNoClockIff`).
- Under VWAP the last slice absorbs all rounding and can be negative; the other slices together then exceed the parent
  (`Slicing.LastSliceIsNegativeIff`, for every profile). Two units over four equal weights become 1, 1, 1 and -1, and under the
  default profile seven units over ten slices become nine times 1 and -2 (`Slicing.DefaultProfileCanOverfill`). TWAP slices are
  zero, and refused by the order manager, when there are more slices than units.
- `DefaultVolumeProfile` reserves its capacity before it looks at the sign of the number of buckets, so a negative number is an error
  of the container and not the empty profile the guard below it would return (`src/core/algo/vwap.cc:10-14`).

## Model

| member | source | states |
|---|---|---|
| PriceTime.BestIsFirstAmongBest | src/core/matching/order_book.cc:118-127 | The order traded with next has a price nobody on its side beats, and nobody with that price arrived earlier. |
| PriceTime.UnfilledMeansNothingAcceptable | src/core/matching/order_book.cc:118-153 | Quantity is left over only when no opposite order at an acceptable price is left. |
| PriceTime.AddOrderKeepsBook | src/core/matching/order_book.cc:22-36 | Accepting any order keeps every bid strictly below every ask, ids unique and quantities positive; a market order never rests, and an unfilled one leaves the other side empty. |
| PriceTime.WithoutKeeps | src/core/matching/order_book.cc:39-70 | A cancel takes away the entry with that id and no other. |
| PriceTime.WithoutKeepsUncrossed | src/core/matching/order_book.cc:39-70 | Cancelling never crosses the book. |
| PriceTime.AddThenCancelRestores | src/core/matching/order_book.cc:39-70 | Adding a limit order that finds no counterparty and cancelling it gives back exactly the book before. |
| PriceTime.EveryBookRunIsUncrossed | src/core/matching/order_book.cc:10-70 | From an empty book, or any uncrossed one, any sequence of additions and cancels with any ids keeps every bid strictly below every ask. |
| PriceTime.MatchKeepsUncrossed | src/core/matching/order_book.cc:113-163 | Matching alone never crosses a book. |
| Allocation.MatchLeavesAllocated | src/core/matching/order_book.cc:113-163 | The book left by the matching loop is the closed form: every entry gave up what was left of the quantity after all entries ahead of it, capped by its size. |
| Allocation.MatchTradesShares | src/core/matching/order_book.cc:129-151 | The trades with each resting order add up to exactly that share. |
| Allocation.NoQueueJumping | src/core/matching/order_book.cc:118-153 | If an order trades at all, everyone ahead of it in the queue is completely filled and gone. |
| Allocation.MatchIsMaximal | src/core/matching/order_book.cc:118-153 | The total traded is the smaller of the incoming quantity and all opposite quantity at acceptable prices. |
| Allocation.MatchConserves | src/core/matching/order_book.cc:113-163 | What is traded and what is left add up to the incoming quantity. |
| Allocation.FillsAreNumberedAndAcceptable | src/core/matching/order_book.cc:132-142 | Trades are numbered without gaps, are positive, name the incoming order and respect its limit. |
| Allocation.FillExhaustsItsEntry | src/core/matching/order_book.cc:129-151 | Each trade is with a resting order of the other side at that order's price, and every trade but the last exhausts its counterparty, so at most one entry is left partly filled. |
| Allocation.FillPricesWorsen | src/core/matching/order_book.cc:118-153 | Prices never improve from one trade to a later one, and no resting order trades twice. |
| Allocation.MatchIsAdditive | src/core/matching/order_book.cc:118-153 | Matching q1 and then q2 under one limit leaves the same book, and the same total with every resting order, as matching q1 + q2. |
| Allocation.AnswerReportsWhatRests | src/core/matching/order_book.cc:10-37 | The answer to a new order is the first applicable of three errors, or reports as resting exactly the unfilled part of a limit order, at its own price, which is then the latest arrival; when nothing is reported the book has no entry for it. |
| Allocation.FillsRespectTheLimit | src/core/matching/order_book.cc:155-161 | A limit buy never trades above its own price and a limit sell never below it. |
| BookLevels.RepresentationIsDetermined | src/core/matching/order_book.h:147-157 | Maps, queues and index are a function of the list of resting orders: two books with the same resting orders are the same. |
| BookLevels.EraseIsWithout | src/core/matching/order_book.cc:52-61 | Erasing the one position of an id leaves everyone before and after it in place. |
| Snapshots.SnapshotsCountEveryOrder | src/core/matching/order_book.cc:87-111 | The order counts of both depth views add up to the number of resting orders. |
| Snapshots.UncrossedIffBestBelow | src/core/matching/order_book.cc:87-111 | A book is uncrossed exactly when the first bid row, if both views have one, is below the first ask row. |
| OrderBooks.OrderBook.constructor | src/core/matching/order_book.cc:8 | A new book is empty and counts executions from one. |
| OrderBooks.OrderBook.MatchAgainst | src/core/matching/order_book.cc:113-163 | The nested loops over price levels terminate and make exactly the trades, leave exactly the book and exactly the quantity of the naive scan, with maps, queues and index in step. |
| OrderBooks.OrderBook.Rest | src/core/matching/order_book.cc:165-181 | A rested order is the latest arrival, in its side's level and in the index. |
| OrderBooks.OrderBook.AddOrder | src/core/matching/order_book.cc:10-37 | Result, errors and new book are those of the naive definition; an error changes nothing. |
| OrderBooks.OrderBook.CancelOrder | src/core/matching/order_book.cc:39-70 | Succeeds exactly for resting ids, returns that entry, removes it alone, and leaves everyone else in place; the inner not-found branches are unreachable. |
| OrderBooks.OrderBook.RestoreRestingOrder | src/core/matching/order_book.cc:72-85 | Puts an order at the back of the queue without matching, or reports which of three errors applies and changes nothing. |
| OrderBooks.OrderBook.Bids | src/core/matching/order_book.cc:87-98 | Rows strictly descend in price and give, for every price with a bid and no other, total quantity and count of exactly its queue. |
| OrderBooks.OrderBook.Asks | src/core/matching/order_book.cc:100-111 | The same for asks, strictly ascending. |
| OrderBooks.OrderBook.OrderCount | src/core/matching/order_book.h:133 | The size of the index is the number of resting orders. |
| OrderBooks.IndexedEntryIsInLevel | src/core/matching/order_book.cc:46-56 | An id in the index is found in the level the index names. |
| MatchingEngines.MatchRenumbers | src/core/matching/matching_engine.cc:13-15 | Overwriting execution ids changes nothing else about the trades or the book. |
| MatchingEngines.MatchingEngine.GetOrCreateBook | src/core/matching/matching_engine.cc:44-53 | Finds the symbol's book or adds an empty one; no other symbol's book changes. |
| MatchingEngines.MatchingEngine.AddOrder | src/core/matching/matching_engine.cc:7-17 | The naive result under global, gap-free execution ids; only the symbol's own book changes. |
| MatchingEngines.MatchingEngine.Renumber | src/core/matching/matching_engine.cc:13-15 | The fills get the next consecutive global ids, and the counter ends behind the last one. |
| MatchingEngines.MatchingEngine.CancelOrder | src/core/matching/matching_engine.cc:19-25 | Fails with BookNotFound or OrderNotFound and changes nothing, or removes and returns that order's entry, from that symbol's book only. |
| MatchingEngines.MatchingEngine.RestoreRestingOrder | src/core/matching/matching_engine.cc:35-42 | Ignores market orders and exhausted ones; otherwise the order joins its symbol's book or an error is reported. |
| MatchingEngines.MatchingEngine.SeedNextExecutionId | src/core/matching/matching_engine.h:61-63 | Execution ids continue at the given number, and never below one. |
| OrderManagers.Database.SaveOrder | src/core/persistence/database.cc:123-151 | Insert or replace by id, with text up to the first NUL. |
| OrderManagers.Database.AppendEvent | src/core/persistence/database.cc:212-233 | A plain insert: an existing key keeps its row. |
| OrderManagers.Database.SaveExecution | src/core/persistence/database.cc:281-304 | Insert or replace by execution id. |
| OrderManagers.OrderManager.SubmitOrder | src/core/order/order_manager.cc:15-117 | New state and answer are those of the state machine, for every request and every risk verdict. |
| OrderManagers.OrderManager.ApplyFills | src/core/order/order_manager.cc:245-282 | The loop over fills is the fold of the one-fill step over orders, log, executions and tables. |
| OrderManagers.OrderManager.CancelOrder | src/core/order/order_manager.cc:119-143 | New state and answer are those of the state machine, including the event logged before a failing cancel. |
| OrderManagers.OrderManager.RestoreFromDatabase | src/core/order/order_manager.cc:145-193 | New state and answer are those of reloading the three tables in key order into books, log and counters. |
| OrderManagers.OrderManager.AppendEvent | src/core/order/order_manager.cc:231-243 | The event gets the next id, in memory and in the table. |
| Agreement.MatchAgreesWithTable | src/core/order/order_manager.cc:245-282 | Applying the fills of a match to the order table gives the matched book; every passive order a fill names is known, open, and large enough. |
| Agreement.RestingOrdersAreOpen | src/core/order/order_manager.cc:92-117 | The book of a symbol is exactly its open limit orders with positive remainder, in increasing id order. |
| Agreement.RestingOrdersAfterRemoval | src/core/order/order_manager.cc:130-138 | When an order stops resting in the table, its book loses that entry and keeps the order of the rest. |
| Ledger.FillKeepsLedger | src/core/order/order_manager.cc:245-282 | One fill adds one numbered execution and the same quantity to an older and a newer order of opposite sides of one symbol, and every order still shows what its executions add up to. |
| Ledger.BoughtEqualsSold | src/core/order/order_manager.cc:245-282 | From executions that fit the orders it follows that as much is bought as sold of every symbol, namely the volume of its executions. |
| EventLog.EventKeepsLog | src/core/order/order_manager.cc:264-280 | An event that the lifecycle allows keeps the log replaying to the stored statuses. |
| EventLog.OnlyRequestsFollow | src/core/order/order_manager.cc:119-134 | After a cancel request for a market order the log holds nothing for it but further cancel requests. |
| EventLog.FillsStayLogged | src/core/order/order_manager.cc:264-280 | One more execution adds one pair of fill events, first to the passive and then to the aggressive order, with its execution id and quantity in words. |
| EventLog.NothingFollowsTheEnd | src/core/order/order_manager.cc:125-128 | After an event that filled, cancelled or rejected an order the log holds none for it. |
| Durable.SortedRowsOf | src/core/persistence/database.cc:176-191 | Rows inserted in any order and read back sorted by key are the original sequence. |
| Durable.AppendEventIsMirrored | src/core/persistence/database.cc:212-233 | Event ids never collide, so no event row is lost. |
| Settlement.FillsKeepSettling | src/core/order/order_manager.cc:245-282 | Through all fills of a submission ledger, log and tables stay in step with the order table. |
| Invariant.EngineAcceptsNewOrders | src/core/order/order_manager.cc:79-90 | The engine never rejects a validated order, because its id is new to the book. |
| Invariant.SubmitKeepsInv | src/core/order/order_manager.cc:15-117 | Any submission with any verdict keeps books, order table, ledger, log and tables in agreement. |
| Invariant.SubmitSucceedsIffApproved | src/core/order/order_manager.cc:15-117 | A submission succeeds exactly when it is valid and risk approves; invalid requests change nothing, and a risk rejection touches no book and no execution. |
| Submissions.SubmissionEntersTheRequest | src/core/order/order_manager.cc:15-117 | A valid request is entered under the next id with its own client order id, symbol, side, type, price and quantity; its executions are on its side, in its symbol, within its limit, and add up to its filled quantity; the order is the answer, or the risk error is and nothing trades. |
| Submissions.InvalidRequestIsAnswered | src/core/order/order_manager.cc:16-25 | An invalid request changes nothing and is answered for its quantity first, then its limit price, then its symbol. |
| Submissions.RejectionIsLogged | src/core/order/order_manager.cc:52-53 | A risk rejection appends the request with its client order id and a rejection with the error's name. |
| Text.ErrorNamesAreDistinct | src/core/types/error.h:68-117 | No two errors have the same name, so the name in a rejection event tells which error it was. |
| Submissions.UnfilledMarketOrderIsLogged | src/core/order/order_manager.cc:93-107 | A market order that trades nothing is logged as requested, accepted and rejected for lack of liquidity. |
| Invariant.CancelKeepsInv | src/core/order/order_manager.cc:119-143 | Any cancel request keeps the same agreement. |
| Invariant.CancelSucceedsIffOpen | src/core/order/order_manager.cc:119-143 | A cancel succeeds exactly for open limit orders, then changes only that order's status and book place and returns the order; a failing one changes no order, book or execution. |
| Invariant.CancelAnswers | src/core/order/order_manager.cc:119-134 | Every other cancel: an unknown order is answered OrderNotFound and an ended one InvalidStateTransition, both without a trace; a partly filled market order gets the engine's error, and the request is logged. |
| Invariant.CancelIsLogged | src/core/order/order_manager.cc:130-138 | A successful cancel appends its request and its completion to the log, and nothing else. |
| Invariant.EngineFindsOpenOrders | src/core/order/order_manager.cc:130-134 | The engine knows an order exactly when the table holds it open; the only open order it does not know is a partly filled market order. |
| Invariant.SubmitKeepsUncrossed | src/core/order/order_manager.cc:15-117 | No submission crosses a book. |
| Invariant.CancelKeepsUncrossed | src/core/order/order_manager.cc:119-143 | No cancel crosses a book. |
| Recovery.RestoreNeverFails | src/core/order/order_manager.cc:145-193 | After any run, restoring the tables into a fresh engine succeeds, whatever texts the orders hold. |
| Recovery.RecoveryIsExactIffNulFree | src/core/order/order_manager.cc:145-193 | Orders, log, executions, counters and every queue in its order come back exactly, if and only if no stored order text holds a NUL. |
| Recovery.RestartKeepsInv | src/core/order/order_manager.cc:145-193 | After a restart orders, ledger, log, tables and books agree again, whatever texts the orders hold. |
| Recovery.RestartIsUncrossedIff | src/core/order/order_manager.cc:145-193 | A restart leaves every book uncrossed exactly when no open buy and sell order whose symbols agree up to the first NUL cross each other. |
| Recovery.SubmitRespectsSame | src/core/order/order_manager.cc:15-117 | A restored process answers and settles every later submission as the original would. |
| Recovery.CancelRespectsSame | src/core/order/order_manager.cc:119-143 | A restored process handles every later cancel the same, up to the name of one error. |
| Recovery.CancelAnswerDiffersIff | src/core/order/order_manager.cc:102-134 | A restart changes the answer to a cancel exactly when the order is open and a text of it is cut, or when it is a partly filled market order whose book exists before the restart and has no open order to be restored for, or the other way round. |
| Runs.Run | src/main.cc:94-97 | Every state of every run of submissions, cancels and restarts, with any texts and verdicts, satisfies the invariant. |
| Runs.RestartsAreInvisibleIff | src/main.cc:94-97 | A process restarted any number of times between operations ends in the same state as one that never was, exactly when no valid request before a restart, and no order stored at the start of a run that restarts, holds a NUL in client order id or symbol; it has then given the same answers, up to the name of one error. |
| Runs.RunIsUncrossedIff | src/core/order/order_manager.cc:145-193 | No book is crossed at any point of a run exactly when none of its restarts meets crossing open orders that the tables hold under one symbol. |
| Runs.EveryCleanRunIsUncrossed | src/core/order/order_manager.cc:145-193 | From an empty system no book is crossed at any point of a run, if no valid request before a restart holds a NUL. |
| Runs.EveryRunBalances | src/core/order/order_manager.cc:245-282 | In every run, restarts included, filled plus remaining is the order quantity, filled is the sum of the order's executions, as much is bought as sold of every symbol, executions are numbered 1, 2, 3, ... and the passive order is the older one. |
| Runs.EveryRunAgrees | src/core/order/order_manager.cc:79-143 | In every run, restarts included, an order rests with quantity q exactly when the manager holds it as a limit order, accepted or partly filled, with q remaining. |
| Runs.EveryRunReplays | src/core/order/order_manager.cc:231-282 | In every run, restarts included, the log replays to the stored status of each order, and for a market order that was asked to be cancelled to the phase that admits only further requests; it reports every execution to both its orders, in order and with its number and quantity, and says nothing about an order after its end. |
| Findings.NulSymbolsCanCrossTheRestoredBook | src/core/persistence/database.cc:123-151 | A run of two orders whose symbols differ behind a NUL: no book is crossed before a restart, one is after it. |
| Findings.RestartChangesACancelAnswer | src/core/matching/matching_engine.cc:19-25 | A run after which the same cancel request is answered OrderNotFound before and BookNotFound after a restart. |
| FixMessages.ComputeCheckSum | src/core/fix/fix_message.cc:25-31 | The wrapping 32-bit accumulation is the sum of the bytes modulo 256, for buffers of any length. |
| FixMessages.FixMessage.Parse | src/core/fix/fix_message.cc:33-56 | The loop over the buffer reads the fields, or fails, as the field-by-field definition does. |
| FixMessages.FixMessage.ParseStrict | src/core/fix/fix_message.cc:58-114 | Succeeds exactly when the fields parse and both computed fields are right. |
| FixMessages.FixMessage.Get | src/core/fix/fix_message.cc:116-123 | The first value of the tag, if any. |
| FixMessages.FixMessage.Set | src/core/fix/fix_message.cc:135-143 | The first field with the tag is overwritten, or one is appended; nothing else changes. |
| FixMessages.FixMessage.Serialize | src/core/fix/fix_message.cc:159-187 | The appended buffers are header, remaining fields in order and trailer, with length and checksum of exactly what precedes them. |
| FixMessages.SetIsWhatGetSees | src/core/fix/fix_message.cc:116-143 | Reading a tag after setting one gives the set value for that tag and the old answer for every other. |
| FixMessages.SetChangesOneField | src/core/fix/fix_message.cc:135-143 | Setting replaces the first field with the tag in its place or adds one field at the end; all other fields stay where they are. |
| FixText.FromCharsOfDecimal | src/core/fix/fix_message.cc:45-50 | Reading a printed number gives it back, whatever non-digit text follows it. |
| FixCodec.RoundTripIffWellFormed | src/core/fix/fix_message.cc:58-187 | Strict parsing gives a serialised message back in canonical order if and only if its tags are positive, its values hold no delimiter, its begin string holds no `9=`, and its body length is a 32-bit number. |
| FixCodec.CanonicalIsStable | src/core/fix/fix_message.cc:159-187 | Serialising the canonical message reproduces the same bytes. |
| FixCodec.CanonicalIsTheMessage | src/core/fix/fix_message.cc:159-187 | What is written is the begin string or FIX.4.4, a body length, the message type or 0, every field with another tag than 8, 9, 35 and 10 in its order and with its repetitions, and a checksum. |
| FixCodec.ReadBackAnswersAlike | src/core/fix/fix_message.cc:58-187 | What strict parsing returns for a well-formed message gives the original value for every tag but those four, and has the same other fields. |
| FixCodec.WireOfMessage | src/core/fix/fix_message.cc:159-187 | The body length on the wire is the length of the body, and the checksum the sum of all bytes before its field modulo 256. |
| FixCodec.StrictAcceptsIff | src/core/fix/fix_message.cc:62-112 | With any numbers in their places a message is accepted exactly when the first is the length of the body and the second the sum of the bytes before the checksum field modulo 256. |
| FixCodec.StrictNeedsBothNumbers | src/core/fix/fix_message.cc:62-84 | Nothing is accepted without a body length field, or whose last field is not a checksum. |
| FixCodec.ParsedIsSound | src/core/fix/fix_message.cc:33-56 | Whatever the parser returns has positive tags and no delimiter in a value. |
| FixCodec.BodyLengthIsLocated | src/core/fix/fix_message.cc:12-21 | The first `9=` of a serialised message is its body length field unless the begin string holds one. |
| FixCodec.BeginStringHidesTheLength | src/core/fix/fix_message.cc:12-21 | No message whose begin string holds `9=` can be read back, whatever its fields. |
| FixCodec.BeginStringCanHideTheLength | src/core/fix/fix_message.cc:12-21 | Such a message, with no delimiter in any value. |
| FixCodec.TrailerIsLocated | src/core/fix/fix_message.cc:77-98 | The last trailer mark of a message is its own trailer, whatever the values contain. |
| FixCodec.DamageInsideIsDetected | src/core/fix/fix_message.cc:58-114 | Changing any byte before the end of the body makes strict parsing fail, for every message. |
| FixCodec.CorruptionIsAcceptedIff | src/core/fix/fix_message.cc:58-114 | Changing any one byte of a well-formed message is accepted exactly when the checksum is 000 and a checksum digit became a sign or a non-digit in the listed way. |
| FixCodec.CorruptionCanBeAccepted | src/core/fix/fix_message.cc:105-112 | A well-formed message with checksum 000 whose second checksum digit is replaced and which strict parsing still accepts. |
| RiskManagers.RiskManager.Check | src/core/risk/risk_manager.cc:11-49 | The first failing check decides, and only a request that passes all others reaches the rate limit. |
| RiskManagers.RiskManager.CheckTickSize | src/core/risk/risk_manager.cc:114-138 | The loop finds the verdict of the first band that contains the price. |
| RiskManagers.RiskManager.CheckRateLimit | src/core/risk/risk_manager.cc:167-178 | The loop drops exactly the front approvals older than a second, then approves and records, or rejects. |
| RiskRules.KeptCountsTheWindow | src/core/risk/risk_manager.cc:167-178 | What the window keeps is exactly the approvals of the last second. |
| RiskRules.RejectsIffWindowIsFull | src/core/risk/risk_manager.cc:44-48 | A rate rejection happens exactly when the second ending now already holds the allowed number of approvals; a request that fails an earlier check consumes nothing. |
| RiskRules.EveryWindowIsBounded | src/core/risk/risk_manager.cc:167-178 | Over any run with a clock that never runs backwards, every closed window of one second holds at most the allowed number of approvals. |
| RiskRules.EveryStepBackBreaksTheBound | src/core/risk/risk_manager.cc:167-178 | Under any limit of two or more and for any two times, a clock stepping back from the later to the earlier one breaks the bound, by one approval, in a run in which it does not step back otherwise. |
| RiskRules.BoundNeedsNoClockIff | src/core/risk/risk_manager.cc:167-178 | The bound holds in every run under every clock exactly when the limit is at most one. |
| RiskRules.BackwardsClockBreaksTheBound | src/core/risk/risk_manager.cc:167-178 | With a clock that steps back, three approvals fall into one second under a limit of two. |
| RiskRules.CrossMultipliedIsInterval | src/core/risk/risk_manager.cc:72-81 | The cross-multiplied comparison accepts exactly the integers within the rounded-down width around the reference. |
| RiskRules.TickCheckIsExact | src/core/risk/risk_manager.cc:114-138 | A price passes exactly when it is a multiple of the positive tick of the first band that contains it. |
| RiskRules.AcceptedPricesAreExact | src/core/risk/risk_manager.cc:63-165 | A limit price passes band, daily limit and tick checks exactly when it lies in both intervals and on a tick, each where configured. |
| RiskRules.ApprovedIff | src/core/risk/risk_manager.cc:11-49 | During any run a request is approved exactly when symbol, quantity, lots, notional and, for a limit order, price intervals and tick are within the configured limits and the second ending now still has room. |
| RiskRules.AnswerIff | src/core/risk/risk_manager.cc:11-49 | For every answer exactly which requests get it during a run: a rule's error when it is the first of the nine rules the request breaks, the rate limit's when it breaks none and the last second is full, and none otherwise. |
| RiskRules.TseBandsArePartition | src/core/types/instrument.h:78-89 | Every non-negative 64-bit price lies in exactly one band of the exchange's table. |
| RiskRules.TseTicksAreExact | src/core/types/instrument.h:78-89 | Under that table a price passes exactly when it is a multiple of its band's tick. |
| RiskRules.ProductsFit | src/core/risk/risk_manager.cc:27-30 | For positive 64-bit prices and quantities no product of the checks leaves 128 bits and no difference overflows. |
| Slicing.GenerateTwapSlices | src/core/algo/twap.cc:5-27 | The loop builds the quotient-and-remainder split on its schedule, or nothing for invalid parameters. |
| Slicing.TwapConservesQuantity | src/core/algo/twap.cc:10-25 | The slices add up to the parent exactly and differ by less than their number. |
| Slicing.TwapFollowsParent | src/core/algo/twap.cc:5-27 | Every child has the parent's client order id, symbol, side, type and price; the first is due at the start and each next one the truncated share of the duration later. Without a positive number of slices and quantity there is none. |
| Slicing.TwapSlicesAreQuotients | src/core/algo/twap.cc:10-18 | Every slice but the last is the quotient; the last is what the others leave. |
| Slicing.TruncDivTruncates | src/core/algo/twap.cc:13 | The step of the schedule is truncated toward zero, for negative durations too. |
| Slicing.ScheduleFitsTheDuration | src/core/algo/twap.cc:13-24 | With a positive duration the schedule starts at once, never goes back, and ends before the duration is over. |
| Slicing.TwapChildrenAreValidIff | src/core/order/order_manager.cc:15-25 | Every TWAP child passes the order manager's validation exactly when the parent does and has at least one unit a slice. |
| Slicing.DefaultVolumeProfile | src/core/algo/vwap.cc:8-27 | The loops build the normalised profile; a negative number of buckets is an error, zero gives none. |
| Slicing.UShapeIsADistribution | src/core/algo/vwap.cc:8-27 | The default weights are positive, add up to one, and read the same from either end. |
| Slicing.UShapeIsAParabola | src/core/algo/vwap.cc:15-21 | The default weights are in the proportions of one plus the scaled square of the distance from the middle. |
| Slicing.GenerateVwapSlices | src/core/algo/vwap.cc:29-70 | The loops give each slice but the last its rounded share and the last what is left, or nothing for a mismatched or worthless profile. |
| Slicing.VwapConservesQuantity | src/core/algo/vwap.cc:48-68 | The slices add up to the parent exactly and follow the schedule. |
| Slicing.VwapFollowsParent | src/core/algo/vwap.cc:29-70 | Every child has the parent's client order id, symbol, side, type and price and its place in the schedule; there is none exactly for invalid parameters or a given profile of another length or without a positive total. |
| Slicing.RoundIsNearest | src/core/algo/vwap.cc:55-56 | Shares are rounded to the nearest integer, halves away from zero. |
| Slicing.VwapDriftIsBounded | src/core/algo/vwap.cc:48-68 | Each slice but the last is within half a unit of its exact share, the last within half a unit for every slice before it. |
| Slicing.ScalingChangesNothing | src/core/algo/vwap.cc:41-46 | Scaling all weights by one positive factor changes no slice. |
| Slicing.EqualWeightsAreTwapIff | src/core/algo/vwap.cc:48-68 | Equal weights give the TWAP split exactly when there is one slice or the remainder is less than half the number of slices. |
| Slicing.VwapChildrenAreValidIff | src/core/order/order_manager.cc:15-25 | For every profile all VWAP children pass the order manager's validation exactly when the parent does, every exact share but the last is at least half a unit, and the rounded shares leave something for the last. |
| Slicing.LastSliceIsNegativeIff | src/core/algo/vwap.cc:51-59 | For every profile the last slice is negative, and the others exceed the parent, exactly when the rounded shares of the others do; an exact last share of half a unit for each other slice rules it out. |
| Slicing.DefaultProfileCanOverfill | src/core/algo/vwap.cc:35-59 | Under the default profile seven units over ten slices become nine times one and a last slice of minus two. |
| Slicing.EqualWeightsLastIsNegativeIff | src/core/algo/vwap.cc:56-59 | Under equal weights that happens exactly when twice the remainder reaches the number of slices and quotient plus remainder is below that number less one. |
| Slicing.DriftBoundIsReached | src/core/algo/vwap.cc:56-59 | The bound on the last slice is attained for every even number of equal slices, with a negative slice from four on. |

## Left out

- Timestamps: no modelled branch reads one except the rate limiter, where the time is an input. A restored book entry takes its timestamp from the order's creation, so books are compared without them.
- Database failures and crashes in the middle of an operation: every write succeeds and the database is always present; recovery is stated between operations, into a fresh engine.
- SQLite itself, its schema, the audit log and the service state: only the three tables and their order by key are modelled.
- 64-bit wrap-around of id counters, level totals and schedule times: counters and sums are unbounded. Products of the risk checks are shown to fit.
- OrderManagers.OrderManager.SubmitOrder: takes the risk verdict as an input instead of calling the risk manager, so that its properties hold for every verdict.
- OrderBooks.OrderBook.CancelOrder: has no branch for an id whose level or entry is missing, because it proves that there is no such id.
- Slicing.GenerateVwapSlices: computes with exact reals, so floating-point rounding, infinities and NaN weights are not captured.
- RiskRules.EveryWindowIsBounded: for limits that stay fixed during the run; changing them in between is modelled but not part of the bound.
- Maps keyed by price are unordered here: iteration order is the choice of the best key, which is what the sorted maps of the source provide.
- FIX sessions and the gateway, reading and writing integer field values, HTTP controllers, the command line, market data and the algo engine's run records: wrappers that add little beside the parts they call.
- Filters of order and event queries, lot size and notional checks beyond their place in the sequence: settled by reading one expression.
