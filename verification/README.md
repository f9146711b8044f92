# A verified model of the C fast path

The C servers under `fast-servers/` hold a concurrent request pipeline -- a database executor, requests
that are parked while a unit of work runs, a shared session cache -- and, beside it, a few algorithms
with a promise each: a chunked-body decoder that works in place, base58 peer ids, a `.env` editor,
token buckets, proportional placement, prepared-statement tracking, calendar arithmetic and the field
rules. This project models those parts in Dafny and proves what they promise.

How it is arranged:

- **Step systems.** `Executor`, `TicketRuns`, `ResumeProtocol`, `CacheRuns` and `StatementSlots` are
  state machines whose steps are single locked sections or single atomic operations, with the gaps
  between them kept. A run is any sequence of enabled steps, so the theorems are about every
  interleaving. Each has an invariant kept by every step and theorems that read it: what never goes
  wrong, and, by measures that steps lower (`SweepPass`, `ResumeRest`), that work goes on and comes to
  an end. `TicketAtomic` reduces every run of one of them to undivided operations.
- **Numbers and literals.** `ChunkedSizes`, `LimitNumbers`, `EnvForms` and a few lemmas elsewhere say
  what the small functions mean in digits, minutes and characters, so that no theorem rests on a table
  that both its sides read.
- **Adversaries.** The database driver and the work (`RunUnit`) and the PostgreSQL session (`Prepared`)
  are arbitrary scripts, held only to what the code says of them: a failed COMMIT has ended its
  transaction, a session can only lose names.
- **Classes and loops.** What the source changes in place is changed in place here (`GroupQueue.Group`,
  `DeferTable.Deferred`, `Cache.Table`, `ChunkedBuffer.Conn`, `PeerId`, `EnvCursor`, `Limits.Gate`,
  `Announcements.AnnouncementRate`, `PlanGroups`, `Prepared.Connection`, `Utf8Fields`, `Email`). Every
  such method is proved equal to a function of the old state, and the theorems are about that function.

`Arith`, `Positional`, `TokenBuckets`, `Regex` and `Options` are what the others share.

Where the code and its own words differ the model follows the code:

- A cache group without workers joins the nearest one *below* it that has some, and one above only when
  there is none below (`plan_groups`); the comment above the function says the nearest neighbour.
  `PlanGroups.NearestIff` says exactly when it is, `PlanGroups.PassesANearerGroup` has a plan where not.
- A trailer line that is too long is refused only when it arrives in pieces (`decode_chunked`), so what
  a body decodes to can depend on where reads end. `Chunked.SplitIndependentIff` says exactly when,
  `Chunked.ShortTrailersIff` in terms of the body that was sent, and `Chunked.ServerRefusesTrailer` has
  one that is decoded or refused.
- The writer of `.env` files does not see `export NAME=`, which the loader reads; if such a line is the
  first to assign a name that is written, it wins. `EnvRoundTrip.ReadBackIff` says exactly when;
  `EnvCases.ExportedA` has the smallest file.
- The writer goes by lines and a quoted value may have several. As long as the writer replaces none of
  the lines of such a value, nothing is lost (`EnvRoundTrip.WriteThenLoad`). Otherwise an entry whose old
  value is of several lines can make the whole file unreadable (`EnvCases.OwnValueBreaks`, on a file the
  writer wrote itself), a line inside another value can be taken for the entry (`EnvCases.TouchedValue`),
  and below a quote that is never closed an entry becomes part of the value (`EnvCases.OpenQuoteSwallows`).
  A write keeps all values on one line exactly if those it writes are (`EnvRepeated.WriteKeepsLinesIff`),
  and then any number of writes is safe (`EnvRepeated.ManyWrites`).
- A request is decoded in the buffer it arrives in, 64 KiB. A body within the limit of 32 KiB still cannot
  arrive if its encoding does not fit (`Chunked.CanFinishIff`, `Chunked.ServerBufferTooSmall`).
- `sc_env_file_write` answers that the text is malformed when an assignment would make the file too
  large, and that it is too long when a copied line would.
- Past 65536 buckets `limits.ts` forgets all of them, not those that have refilled. That is the same
  exactly if all have (`Limits.ClearKeepsIff`), which after a call that was counted is never the case
  (`Limits.ClearRaises`, at a state that clears in `Limits.ClearingState`).
- `field_rules.h` gives the address rule as an expression with the flags `iu`. Under those flags
  JavaScript also folds U+017F and U+212A onto letters. The rule accepts the expression's language with
  ASCII classes (`Email.EmailIff`), which is that of the flags without these two characters
  (`Email.EmailUnderFlags`, `Email.FoldedOnly`).
- Three bytes for each UTF-16 unit are enough for every text except where an overlong form of four bytes
  is decoded (`Utf8Fields.EnoughIff`, `Utf8Fields.OverlongIsLonger`).

## Model

| member | source | states |
|---|---|---|
| `GroupQueue.SweepIsFilter` | fast-servers/service-core/src/db_exec.c:349-363 | on a queue in time order, stopping at the first unit within the limit removes exactly the units past it and keeps exactly the others |
| `GroupQueue.OfferIff` | fast-servers/service-core/src/db_exec.c:638-662 | a submission is queued, last, if and only if there is room, the group is not stopping and the caller could park; which of the two refusals it gets otherwise |
| `GroupQueue.Group.Submit` | fast-servers/service-core/src/db_exec.c:638-662 | the intrusive list with its tail and count holds the old queue and the new unit at its end, or is unchanged when full, stopping or not parked; a signal is sent only if a worker is idle |
| `GroupQueue.Group.Take` | fast-servers/service-core/src/db_exec.c:281-297 | takes the first unit off the list; count and tail stay right |
| `GroupQueue.Group.Sweep` | fast-servers/service-core/src/db_exec.c:349-363 | takes the expired prefix off the list in order |
| `Executor.InvStep` | fast-servers/service-core/src/db_exec.c:269-377 | every step of a submitter, a worker, the sweeper or the closing thread keeps the invariant: order, bound, wake-ups, conservation, closing |
| `Executor.ExactlyOnce` | fast-servers/service-core/src/db_exec.c:247-377 | in every state of every run an accepted unit is in exactly one of: a queue, a worker, the sweeper's list, the log of `finished`; a refused one is in none |
| `Executor.ClosedMeansAllFinished` | fast-servers/service-core/src/db_exec.c:451-479 | when closing has returned, `finished` has run once for every accepted unit and for no other |
| `Executor.ClosingCanGoOn` | fast-servers/service-core/src/db_exec.c:451-479 | in every run, while a close is under way what it waits for is enabled: a step of its own, of the sweeper, or of the worker it joins; no worker sleeps in a stopping group |
| `Executor.ClosingComesToAnEnd` | fast-servers/service-core/src/db_exec.c:269-305 | while workers are joined no step adds to the work left and every step of a worker takes from it, so closing ends after finitely many |
| `Executor.NoLostWakeup` | fast-servers/service-core/src/db_exec.c:281-297 | while a worker of a group sleeps unsignalled, every unit queued there has an awake worker on its way, although submitting signals only when the idle count is not zero |
| `Executor.OrderAndSweep` | fast-servers/service-core/src/db_exec.c:318-377 | in every run: first in first out, within capacity, and one sweep of a group removes exactly the units past the limit; that a pass comes to every group is `SweepPass.PassSweepsEveryGroup` |
| `Executor.RanWithinLimit` | fast-servers/service-core/src/db_exec.c:247-267 | in every run, work ran exactly if, when that was decided, no more than the limit had passed on the clock since the unit was accepted |
| `Executor.AcceptedIff` | fast-servers/service-core/src/db_exec.c:615-664 | so in the executor: accepted in its group and no other, or refused, by that condition |
| `Executor.WorkerGoesOn` | fast-servers/service-core/src/db_exec.c:269-305 | every step of a worker, at any time, leaves less to do, unless it found its queue empty and goes to sleep |
| `SweepPass.PassSweepsEveryGroup` | fast-servers/service-core/src/db_exec.c:338-375 | in every run, between leaving the wait and being back at it the sweeper has swept every group |
| `SweepPass.PassLeavesNothingExpired` | fast-servers/service-core/src/db_exec.c:338-363 | so a unit that was queued and past the limit when a pass began is in no queue when it ends, whatever its workers do |
| `SweepPass.PassAnswersExpired` | fast-servers/service-core/src/db_exec.c:338-375 | and by then it has been handed back, unless a worker took it meanwhile and still has it |
| `SweepPass.PassGoesOn` | fast-servers/service-core/src/db_exec.c:338-375 | every step of the sweeper brings it nearer to its wait, and what it holds leaves its hands only into the log, in order |
| `SweepPass.SweepsWhileOpen` | fast-servers/service-core/src/db_exec.c:324-338 | in every run, while the executor is open the sweeper has not returned: the timer starts a pass, or one goes on |
| `SweepPass.CloseGoesOn` | fast-servers/service-core/src/db_exec.c:451-479 | every step of the closing thread brings it nearer to its return, and no other step takes it back |
| `RunUnit.Run` | fast-servers/service-core/src/db_exec.c:144-210 | the loop makes the calls of its specification, terminates within both budgets, and leaves a transaction open only with the critical stop; whose answers these are is `RunUnitScript.EveryAnswerGiven` |
| `RunUnit.WorkBound` | fast-servers/service-core/src/db_exec.c:144-210 | against every script of driver answers the work runs at most AGAIN_MAX + RERUN_MAX - 1 times |
| `RunUnit.WorkBoundIsTight` | fast-servers/service-core/src/db_exec.c:144-210 | a script reaches that bound, for every pair of budgets and for units that read or write |
| `RunUnit.NothingLeftOpen` | fast-servers/service-core/src/db_exec.c:111-210 | on return a transaction is open if and only if the critical stop was raised |
| `RunUnit.EveryCallLegal` | fast-servers/service-core/src/db_exec.c:111-210 | transactions never nest, work that writes runs in one, the attempt shown is one more than the AGAINs before it, every run but the last is rolled back, a COMMIT is the last call and follows work that asked for it and lost nothing; a refused ROLLBACK is followed by a new connection on PostgreSQL and, where it is stuck, by the critical stop, which follows nothing else |
| `RunUnit.StatusExplained` | fast-servers/service-core/src/db_exec.c:144-210 | what each status tells about the calls that were made: success only if the deciding run ended as it asked, the code of a refused or stuck call if there was one, the executor's error only with a budget spent |
| `RunUnitScript.EveryAnswerGiven` | fast-servers/service-core/src/db_exec.c:144-210 | against every script, the k-th BEGIN, run of the work and ROLLBACK in the trace have the answers of turn k, and the COMMIT that of the turn it ends |
| `RunUnitScript.LastTurnDecides` | fast-servers/service-core/src/db_exec.c:165-210 | the status is decided by the last turn: a COMMIT asked for is success if and only if the driver did it, else its code; likewise a refused BEGIN and a stuck ROLLBACK; every turn before wanted another |
| `DeferTable.TicketRoundTrip` | fast-servers/service-core/src/http_defer.c:17-37 | loop, slot and generation come back out of a ticket, and no ticket of a real occupant is zero |
| `DeferTable.StateRoundTrip` | fast-servers/service-core/src/http_defer.c:39-54 | generation and phase come back out of a state word |
| `DeferTable.Deferred.ArmSlot` | fast-servers/service-core/src/http_defer.c:73-98 | arms the first free slot with the next generation, or gives no ticket when none is free; the list still lists exactly the free slots |
| `DeferTable.Deferred.ClaimSlot` | fast-servers/service-core/src/http_defer.c:100-114 | claims exactly if the word is the ticket's generation, armed; then it is resuming |
| `DeferTable.Deferred.ReleaseSlot` | fast-servers/service-core/src/http_defer.c:116-135 | hands out what the slot held, empties it and puts it first on the list |
| `DeferTable.Deferred.ForgetRequest` | fast-servers/service-core/src/http_defer.c:137-149 | clears the request of that generation's occupant and of no other |
| `DeferTable.Deferred.NextResuming` | fast-servers/service-core/src/http_defer.c:151-160 | the first resuming slot from a place on, or none |
| `DeferTable.ArmKeepsList` | fast-servers/service-core/src/http_defer.c:73-98 | arming keeps the list exact, and the ticket claims the slot just armed |
| `DeferTable.ReleaseKeepsList` | fast-servers/service-core/src/http_defer.c:116-135 | releasing keeps the list exact, acyclic and without repetition |
| `TicketRuns.InvStep` | fast-servers/service-core/src/http_defer.c:73-149 | kept by every step, claims also falling between a load of a state word and its store |
| `TicketRuns.FreeListExact` | fast-servers/service-core/src/http_defer.c:56-135 | in every run with concurrent claimers the free list is acyclic and lists exactly the free slots |
| `TicketRuns.ArmedTicket` | fast-servers/service-core/src/http_defer.c:73-98 | the ticket handed out is that of the slot's n-th arming and claims at once |
| `TicketRuns.ReleasedSlot` | fast-servers/service-core/src/http_defer.c:116-135 | after a release the slot is free, empty and first on the list, and no ticket claims it |
| `TicketRuns.ClaimsIffCurrent` | fast-servers/service-core/src/http_defer.c:100-114 | a ticket claims if and only if its slot is armed and was re-armed a multiple of 2^30 - 1 times since |
| `TicketRuns.ClaimedAtMostOnce` | fast-servers/service-core/src/http_defer.c:100-114 | two claims by one ticket are at least 2^30 - 1 re-arms apart |
| `TicketRuns.ForgetsIffCurrent` | fast-servers/service-core/src/http_defer.c:137-149 | a ticket clears the request of its slot, and nothing else, if and only if the slot is taken and was re-armed a multiple of 2^30 - 1 times since |
| `TicketAtomic.RunsAreUndivided` | fast-servers/service-core/src/http_defer.c:73-149 | in every run, with claims between the accesses of an operation, the table is what the undivided operations make of the first one in one order: an arming, with what it was asked for, at its store, a release at its load |
| `TicketAtomic.ClaimsAreUndivided` | fast-servers/service-core/src/http_defer.c:100-114 | a claim at any moment succeeds exactly if it does between the undivided operations |
| `ResumeProtocol.InvStep` | fast-servers/service-core/src/http_fallback.c:789-881 | every step of the loop, the workers, the wake-up and leaving clients keeps the protocol's invariant |
| `ResumeProtocol.EveryFinishedClaims` | fast-servers/service-core/src/db_http.c:6-23 | the slot is armed before the unit is queued, so the one `finished` always claims it |
| `ResumeProtocol.NoResumeLost` | fast-servers/service-core/src/http_fallback.c:826-881 | no slot stays resuming once no wake-up is pending, no claimer is short of its send and no walk is running, although wake-ups coalesce |
| `ResumeProtocol.DoneOnce` | fast-servers/service-core/src/db_http.c:25-61 | `done` runs at most once for a unit, and exactly once when the unit has left its slot |
| `ResumeProtocol.DoneWithTheRequest` | fast-servers/service-core/src/http_fallback.c:789-824 | `done` is given the request it was parked for, or nothing exactly when the client had left |
| `ResumeProtocol.ArenaOwnedOnce` | fast-servers/service-core/src/http_arena.c:51-93 | every arena is in exactly one of the pool, the current request and one slot; a unit's arena stays in its slot while the unit is with the executor |
| `ResumeProtocol.AtRestAllDone` | fast-servers/service-core/src/http_fallback.c:789-881 | when the loop is idle with no unit, claimer or wake-up under way, every slot is free, every parked unit was done exactly once and every arena is in the pool |
| `ResumeProtocol.ParkTakesASlot` | fast-servers/service-core/src/http_defer.c:73-98 | parking succeeds exactly while a slot is free, and then request, unit and arena are in the slot, which the ticket claims |
| `ResumeRest.EveryStepLeavesLess` | fast-servers/service-core/src/http_fallback.c:789-881 | in every run every step of a handler that ends, a worker, the wake-up or the walk leaves less to do, so without new requests only finitely many follow |
| `ResumeRest.OrAtRest` | fast-servers/service-core/src/http_fallback.c:789-881 | and one of them is possible in every state of every run that is not at rest |
| `ResumeRest.GoneIsForgotten` | fast-servers/service-core/src/http_defer.c:137-149 | once a client has left no slot holds its request |
| `Cache.VictimIsBest` | fast-servers/service-core/src/cache.c:199-264 | an insertion takes the key's own slot if the window has one, else the first slot of the best rank; what the ranks are worth is `Cache.VictimIsPolite` |
| `Cache.VictimIsPolite` | fast-servers/service-core/src/cache.c:230-256 | without a slot of its key, an insertion displaces an entry only if no slot of the window is free, an unexpired one only if none there is free or expired, one in use only if all there are unexpired and in use, and then the first |
| `Cache.WindowIsARow` | fast-servers/service-core/src/cache.c:199-235 | for a capacity that is a power of two the window is a row of different slots from where the hash points to |
| `Cache.Table.Get` | fast-servers/service-core/src/cache.c:165-197 | walks the probe window and counts one reference exactly on a hit |
| `Cache.Table.Put` | fast-servers/service-core/src/cache.c:199-264 | puts the entry at the slot `Victim` gives, with two references, and gives back what it displaced |
| `CacheRuns.InvStep` | fast-servers/service-core/src/cache.c:165-283 | every step of lookups, insertions and releases keeps one slot per key, in its window, and the reference counts |
| `CacheRuns.LookupIsLastPut` | fast-servers/service-core/src/cache.c:165-197 | a lookup answers the last insertion of its key exactly while that is in the table and unexpired, and otherwise nothing |
| `CacheRuns.AnswersLastPut` | fast-servers/service-core/src/cache.c:165-264 | so in every run, for every hash function, capacity and probe length; a key has one slot at most |
| `CacheRuns.PutIsFound` | fast-servers/service-core/src/cache.c:199-264 | insertion always succeeds and is found until it expires |
| `CacheRuns.FoundWhileYoung` | fast-servers/service-core/src/cache.c:103-108 | in every run a key is found if and only if its last insertion is in the table and, with a timeout, younger than that |
| `CacheRuns.PutFoundUntil` | fast-servers/service-core/src/cache.c:199-264 | what is put, with its value, is found until the timeout has passed |
| `CacheRuns.EntryStays` | fast-servers/service-core/src/cache.c:199-227 | an entry keeps key, time and value in every later state |
| `CacheRuns.BusyMeansHeld` | fast-servers/service-core/src/cache.c:243-246 | what insertion takes for an entry in use is one that somebody besides the table refers to |
| `CacheRuns.CountIsReferences` | fast-servers/service-core/src/cache.c:165-283 | an entry's count is its table pointer, the holders and displaced references; it is zero exactly when the entry is freed or with the one thread about to free it |
| `CacheRuns.NeverTouchesFreed` | fast-servers/service-core/src/cache.c:165-283 | no step of any run touches a freed entry |
| `CacheRuns.ReleasingGoesOn` | fast-servers/service-core/src/cache.c:270-283 | every release and every free leaves one less to come |
| `CacheRuns.NothingLeaks` | fast-servers/service-core/src/cache.c:199-283 | in every run, when none is left, exactly the entries that are not in the table have been freed |
| `Chunked.SplitDoesNotMatter` | fast-servers/service-core/src/http_fallback.c:465-562 | verdict, body and consumed length are those of decoding everything at once, however the bytes are split into reads, while trailer lines are short |
| `Chunked.LongTrailerSplits` | fast-servers/service-core/src/http_fallback.c:539-556 | for a longer trailer line there is a place to end a read at which the body is refused |
| `Chunked.SplitIndependentIff` | fast-servers/service-core/src/http_fallback.c:465-562 | decoding is independent of the split if and only if every complete trailer line has at most MAX_TRAILER bytes before its newline |
| `Chunked.ShortTrailersIff` | fast-servers/service-core/src/http_fallback.c:539-556 | for a legal body that condition is that every trailer field line, with its carriage return, is within MAX_TRAILER |
| `Chunked.LongTrailerRefused` | fast-servers/service-core/src/http_fallback.c:539-556 | every body with a longer trailer line is decoded at once and refused when the line's newline arrives later |
| `Chunked.ServerRefusesTrailer` | fast-servers/service-core/src/http_fallback.c:539-556 | such a body at the server's own limits, and the reads that refuse it |
| `Chunked.CanFinishIff` | fast-servers/service-core/src/http_fallback.c:240-246 | in a buffer of a given size a legal body can come to its end if and only if head and encoding fit |
| `Chunked.ServerBufferTooSmall` | fast-servers/service-core/src/http_fallback.c:31-42 | 32 KiB in chunks of one byte are a legal body that never does in 64 KiB |
| `Chunked.DecodesEveryChunking` | fast-servers/service-core/src/http_fallback.c:465-562 | every chunking within the limits, with any extensions and trailers, decodes to its body and consumes exactly its encoding |
| `ChunkedSizes.HexDigitIs` | fast-servers/service-core/src/http_fallback.c:484-493 | the sixteen digits in either case are worth their place, and no other character is a digit |
| `ChunkedSizes.HexReadsBack` | fast-servers/service-core/src/http_fallback.c:484-498 | a size printed by division and remainder is read back |
| `ChunkedSizes.DecodesPrinted` | fast-servers/service-core/src/http_fallback.c:465-562 | any data cut into pieces anywhere, with the sizes printed, decodes to the data, if it is within the limit and a size line may have the ten characters of 32 bits |
| `ChunkedSizes.OverTheLimit` | fast-servers/service-core/src/http_fallback.c:495-510 | a chunk that takes the body over the limit is too large, and nothing of it is copied |
| `ChunkedSizes.OnlyCrlf` | fast-servers/service-core/src/http_fallback.c:530-538 | two bytes other than CRLF behind a chunk are bad |
| `ChunkedSizes.ChunkTooLong` | fast-servers/service-core/src/http_fallback.c:512-538 | so a chunk longer than its size says is bad |
| `ChunkedSizes.BadSizeLine` | fast-servers/service-core/src/http_fallback.c:470-501 | a size line without a digit is bad, and one that has not ended within the limit |
| `ChunkedBuffer.Conn.Decode` | fast-servers/service-core/src/http_fallback.c:465-562 | decoding in place is that function; head and unread bytes stay as they arrived and the cursors in order |
| `ChunkedBuffer.Conn.ReceiveAndDecode` | fast-servers/service-core/src/http_fallback.c:684-747 | reads put behind each other in the buffer, decoding after each, give what feeding the reads one by one gives |
| `ChunkedBuffer.Conn.CopyData` | fast-servers/service-core/src/http_fallback.c:514-527 | the overlapping copy moves what has arrived of a chunk to the end of the body |
| `ChunkedBuffer.Conn.Consume` | fast-servers/service-core/src/http_fallback.c:429-441 | drops the bytes read; what stands first is the rest of the input as it arrived |
| `ChunkedBuffer.Conn.ServeOne` | fast-servers/service-core/src/http_fallback.c:684-728 | a chunked request that has arrived yields the body that was sent and leaves the next pipelined request first |
| `Positional.ConvertValue` | fast-servers/dht-node/src/peer_id.c:23-35 | multiplying and carrying keeps the number and gives digits without a leading zero |
| `Positional.Unique` | fast-servers/dht-node/src/peer_id.c:23-35 | a number has one such spelling |
| `Positional.ThereAndBack` | fast-servers/dht-node/src/peer_id.c:23-74 | converting to another base and back is the identity |
| `PeerId.CarryThrough` | fast-servers/dht-node/src/peer_id.c:26-30 | the carry loop over the digits in place, without 32-bit overflow |
| `PeerId.Format` | fast-servers/dht-node/src/peer_id.c:10-41 | writes the text and its terminator and nothing behind it; neither buffer is overrun |
| `PeerId.Parse` | fast-servers/dht-node/src/peer_id.c:43-88 | writes the key exactly for an accepted text and otherwise leaves it alone; no buffer is overrun |
| `PeerId.FormatLength` | fast-servers/dht-node/src/peer_id.c:10-41 | every key is written with 52 characters |
| `PeerId.FormatBegins` | fast-servers/dht-node/src/peer_id.c:10-41 | every peer id begins with 12D3KooW |
| `PeerId.AlphabetIs` | fast-servers/dht-node/src/peer_id.c:5 | the characters are the ASCII digits and letters in order without 0, O, I and l |
| `PeerId.ParseOfFormat` | fast-servers/dht-node/src/peer_id.c:10-88 | reading what was written gives the key, for every 32-byte key |
| `PeerId.FormatOfParse` | fast-servers/dht-node/src/peer_id.c:10-88 | writing what was read gives the text, for every accepted text |
| `PeerId.AcceptedIff` | fast-servers/dht-node/src/peer_id.c:43-88 | a text is accepted if and only if it is the spelling of a key |
| `EnvCursor.ValueFrom` | fast-servers/service-core/src/env_file.c:116-160 | reads each of the three forms into its buffer, or says that it is too long |
| `EnvCursor.Environment.LoadFile` | fast-servers/service-core/src/env_file.c:162-246 | the cursor loop gives the status and the environment of the specification; what was set before a refusal stays |
| `EnvCursor.ChooseForm` | fast-servers/service-core/src/env_file.c:249-271 | the form a value is written in, or none |
| `EnvCursor.EntryOn` | fast-servers/service-core/src/env_file.c:300-325 | the first unwritten entry whose name the line assigns |
| `EnvCursor.WriteFile` | fast-servers/service-core/src/env_file.c:327-432 | the new text, or the status it fails with |
| `EnvRoundTrip.QuotedReadsBackIff` | fast-servers/service-core/src/env_file.c:116-160 | between quotes a value is read back exactly if it has neither that quote nor, for the double one, an escape |
| `EnvForms.DoubleQuotedIs` | fast-servers/service-core/src/env_file.c:126-150 | between double quotes `\n` and `\r` are a newline and a carriage return, and a backslash before another character is itself |
| `EnvForms.SingleQuotedIs` | fast-servers/service-core/src/env_file.c:126-150 | between single quotes a backslash is itself |
| `EnvForms.BareIs` | fast-servers/service-core/src/env_file.c:150-160 | a bare value ends at a comment or the end of its line, without the blanks before that |
| `EnvForms.CommentIs` | fast-servers/service-core/src/env_file.c:183-193 | comments and lines of blanks say nothing |
| `EnvForms.NoAssignmentIs` | fast-servers/service-core/src/env_file.c:194-242 | a name with nothing assigned, and a line that starts with no name, are malformed |
| `EnvForms.LongValueIs` | fast-servers/service-core/src/env_file.c:116-160 | a value of more than 1023 characters is refused, not cut |
| `EnvForms.PlainIs` | fast-servers/service-core/src/env_file.c:249-262 | the characters that need no quotes |
| `EnvForms.FormIsFound` | fast-servers/service-core/src/env_file.c:249-297 | a form is found if and only if the value is plain or one of the two quotes reads it back, and then that one does |
| `EnvRoundTrip.ValueReadsBack` | fast-servers/service-core/src/env_file.c:249-297 | the form chosen for a value is undone by reading it |
| `EnvRoundTrip.TurnsExtend` | fast-servers/service-core/src/env_file.c:183-242 | lines that are one assignment with its value closed read the same whatever follows them |
| `EnvRoundTrip.BlockIsCopied` | fast-servers/service-core/src/env_file.c:361-387 | a value over several lines of which the writer replaces none is copied whole |
| `EnvRoundTrip.SameName` | fast-servers/service-core/src/env_file.c:300-325 | the writer sees the assignment of every line the loader accepts, unless `export` stands before it |
| `EnvRoundTrip.RewriteKeeps` | fast-servers/service-core/src/env_file.c:361-387 | after every rewritten line the new text answers for the written entries and, for other names, as the old text did |
| `EnvRoundTrip.WriteThenLoad` | fast-servers/service-core/src/env_file.c:116-432 | after a write, loading gives every entry its value byte for byte and every other name its earlier one; the environment wins; an entry behind a first `export` line keeps the file's value. The existing file may have values over several lines, if they are closed and the writer replaces none of their lines |
| `EnvRoundTrip.ReadBackIff` | fast-servers/service-core/src/env_file.c:194-198 | all entries are read back if and only if no other value of one of their names stands first behind `export` |
| `EnvEdits.EditsInPlace` | fast-servers/service-core/src/env_file.c:327-411 | the whole of a write: the lines in their order, each as it stands or replaced by the first unplaced entry of its name; each entry once; the others below a heading in their order |
| `EnvEdits.LinesSpell` | fast-servers/service-core/src/env_file.c:358-387 | the lines that are edited spell the existing text |
| `EnvEdits.CommentStays` | fast-servers/service-core/src/env_file.c:300-325 | a comment or an empty line is never replaced |
| `EnvForms.WriteSucceeds` | fast-servers/service-core/src/env_file.c:327-432 | a write succeeds whenever every value has a form and file, entries and heading fit |
| `EnvCases.ExportWins` | fast-servers/service-core/src/env_file.c:300-325 | for every name and plain values: written below a file that exports it, an entry is not what is loaded |
| `EnvCases.ExportedA` | fast-servers/service-core/src/env_file.c:194-198 | A=2 written into a file that exports A=1 leaves A=1 |
| `EnvCases.TouchedValue` | fast-servers/service-core/src/env_file.c:365-373 | for every pair of names and plain values: a line inside another value that looks like the entry is replaced, the value altered and the entry not set |
| `EnvCases.TouchedA` | fast-servers/service-core/src/env_file.c:365-373 | so for A with a line B=1 in its value, and B=2 written |
| `EnvCases.OwnValueBreaks` | fast-servers/service-core/src/env_file.c:365-387 | for every name and value of two lines, as the writer writes it: writing a new value replaces the first line only, and the file is then refused as malformed |
| `EnvCases.OpenQuoteSwallows` | fast-servers/service-core/src/env_file.c:126-150 | an entry written below a value whose quote is never closed becomes part of that value |
| `EnvCases.TouchedYetReadBack` | fast-servers/service-core/src/env_file.c:365-387 | files in which a line of such a value is replaced and everything is still read back |
| `EnvRepeated.WriteKeepsLinesIff` | fast-servers/service-core/src/env_file.c:327-432 | every value of the new file ends on its own line if and only if no value that was written has a newline |
| `EnvRepeated.ManyWrites` | fast-servers/service-core/src/env_file.c:327-432 | after any number of writes of one-line values the file is loadable and fit for the next write of any entries |
| `TokenBuckets.RefillNeutral` | packages/dht-node/src/limits.ts:124-134 | bringing a bucket up to date does not change what it shows at any later time; what that is, is `LimitNumbers.ShowsIs` |
| `LimitNumbers.ShowsIs` | packages/dht-node/src/limits.ts:124-134 | a bucket shows what it held and the rate times the time since, up to its burst; one that is not there shows its burst |
| `LimitNumbers.RatesInAMinute` | packages/dht-node/src/limits.ts:33-54 | what each class and scope allows in a minute and at once |
| `LimitNumbers.MatchingIs` | packages/dht-node/src/limits.ts:91-113 | which buckets a call counts against, and in which order, class by class |
| `LimitNumbers.FullAgain` | packages/dht-node/src/limits.ts:124-134 | left alone for as long as filling takes, a bucket is full |
| `LimitNumbers.RestedIsAdmitted` | packages/dht-node/src/limits.ts:91-134 | after half a minute without calls, whatever went before, every caller that is not blocked is admitted |
| `LimitNumbers.EmptyPeerWaits` | packages/dht-node/src/limits.ts:91-134 | an unknown community's peer with an empty bucket is refused before ten seconds have passed and admitted from then on |
| `Limits.AdmitIff` | packages/dht-node/src/limits.ts:91-122 | a call is admitted if and only if its class is not blocked and every matching bucket shows a token; a refusal names the first scope that lacks one and changes no level from then on; an admission takes one token from each match and none from others |
| `Limits.RateBound` | packages/dht-node/src/limits.ts:91-134 | over every run with classes changing meanwhile, calls admitted against a bucket are at most its level, rate times the time that passed, and a burst for every clear |
| `Limits.BurstAndRate` | packages/dht-node/src/limits.ts:91-134 | without a clear, at most burst + rate x elapsed between any two instants |
| `Limits.ClearKeepsIff` | packages/dht-node/src/limits.ts:56-57 | forgetting all buckets changes no level from then on if and only if every one shows its burst |
| `Limits.ClearRaises` | packages/dht-node/src/limits.ts:115-120 | when a call that counts against a limit clears, it always forgets a bucket that is not full, and that one shows its burst again |
| `Limits.ClearingState` | packages/dht-node/src/limits.ts:115-120 | with buckets for 65536 peers one more peer calls: the call is admitted and clears, and the token it took is back |
| `Limits.Gate.AdmitCall` | packages/dht-node/src/limits.ts:91-122 | the loops over the matching buckets give that state and answer |
| `Limits.Gate.RefillBucket` | packages/dht-node/src/limits.ts:124-134 | makes or refills a bucket and leaves the others |
| `Limits.Gate.Classify` | packages/dht-node/src/limits.ts:77-84 | the community has that class from then on, every other one and every bucket is as before; the unknown class takes no entry |
| `Announcements.AllowIff` | packages/dht-node/src/limits.ts:166-182 | let through exactly if the source shows a token; only that source pays |
| `Announcements.ShowsIs` | packages/dht-node/src/limits.ts:166-176 | a source shows what it held and one for every ten seconds since, up to three |
| `Announcements.RestedIsHeard` | packages/dht-node/src/limits.ts:163-183 | a source that was silent for ten seconds is let through, whatever went before |
| `Announcements.SpentIsNotHeard` | packages/dht-node/src/limits.ts:163-183 | one that has spent its reserve is let through if and only if ten seconds have passed |
| `Announcements.RateBound` | packages/dht-node/src/limits.ts:163-183 | one per ten seconds and three in reserve, over every run, plus three for every clear |
| `Announcements.AnnouncementRate.AllowSource` | packages/dht-node/src/limits.ts:166-182 | the method gives that table and answer |
| `Placement.PlaceItem` | fast-servers/service-core/src/topology.c:121-142 | the group whose CPUs hold the middle of the item's share |
| `Placement.PlacementMonotone` | fast-servers/service-core/src/topology.c:121-142 | later items go to the same group or a later one |
| `Placement.InGroupIff` | fast-servers/service-core/src/topology.c:121-142 | an item is in a group exactly if its position falls among the group's CPUs: (2i + 1) of 2n parts of all CPUs, compared by products |
| `Placement.FairShare` | fast-servers/service-core/src/topology.c:121-142 | every group receives the floor or the ceiling of its share of the items by CPUs |
| `PlanGroups.JoinGroups` | fast-servers/service-core/src/db_exec.c:413-431 | although numbers are overwritten while they are scanned, every cache group gets the nearest worker-bearing one at or below it, else the first above |
| `PlanGroups.MakePlan` | fast-servers/service-core/src/db_exec.c:387-447 | groups, capacities, CPU sets and the groups of the loops are those of the plan |
| `PlanGroups.PlanServes` | fast-servers/service-core/src/db_exec.c:387-447 | every executor group has a worker and the workers sum to the pool; a cache group's group has the workers of the one that serves it; a group's CPUs are exactly those of the cache groups handing it work; every loop has a group |
| `PlanGroups.NearestIff` | fast-servers/service-core/src/db_exec.c:381-425 | the serving group is a nearest one if and only if there is none below, none above, or the one below is no farther |
| `PlanGroups.PassesANearerGroup` | fast-servers/service-core/src/db_exec.c:413-425 | two workers on eight equal cache groups: the sixth joins the third, past the seventh |
| `PlanGroups.PerCacheSums` | fast-servers/service-core/src/db_exec.c:401-402 | the workers per cache group sum to the pool |
| `StatementSlots.InvStep` | fast-servers/service-core/src/sql.c:26-44 | load, increment and compare-and-swap of any threads, in any order, keep drawn numbers apart |
| `StatementSlots.OneSlotEach` | fast-servers/service-core/src/sql.c:26-44 | in every run all calls for a statement that did not fail return one slot, no two statements share one, and every slot is in the table |
| `StatementSlots.FailsOnlyWhenFull` | fast-servers/service-core/src/sql.c:26-44 | in every run no call has failed while fewer numbers were drawn than there are slots |
| `StatementSlots.DrawsOne` | fast-servers/service-core/src/sql.c:26-44 | a number is drawn only by a call that found its statement without a slot, one at a time |
| `StatementSlots.EveryCallAnswers` | fast-servers/service-core/src/sql.c:26-44 | a call answers within four steps of its own, once, for its statement, whatever the other threads do |
| `Prepared.RunTracked` | fast-servers/service-core/src/sql_postgres.c:91-104 | running a statement keeps the names the session holds among those marked, and meets no duplicate |
| `Prepared.NeverDuplicate` | fast-servers/service-core/src/sql_postgres.c:172-203 | nor in any run of statements, lost names and reconnects |
| `Prepared.RunEnds` | fast-servers/service-core/src/sql_postgres.c:188-203 | within two attempts a statement is run once, refused, or flagged for a rerun -- the last exactly when its name was unknown and was not prepared again -- and then its name is not marked |
| `Prepared.OneAttemptInside` | fast-servers/service-core/src/sql_postgres.c:193-202 | inside a transaction an unknown name is flagged for a rerun after one attempt |
| `Prepared.SecondAttemptOutside` | fast-servers/service-core/src/sql_postgres.c:188-203 | outside one there is a second attempt, and what that comes to is what is answered |
| `Prepared.LostNameRecovered` | fast-servers/service-core/src/sql_postgres.c:188-203 | outside a transaction a lost name is prepared again and the statement run |
| `Prepared.Connection.RunStatement` | fast-servers/service-core/src/sql_postgres.c:188-203 | the loop over the marks in place is that function |
| `Prepared.Connection.Reset` | fast-servers/service-core/src/db_postgres.c:249-267 | a new session starts with no names marked |
| `Civil.DaysAreCounted` | fast-servers/service-core/src/sql.c:215-228 | for every valid date of every year, negative ones too, the computation with truncating division and wrapping unsigned arithmetic is the count of days, year by year and month by month |
| `Civil.OneDayMore` | fast-servers/service-core/src/sql.c:215-228 | 1970-01-01 is day 0 and the next valid date is one more |
| `Civil.DaysAre` | fast-servers/service-core/src/sql.c:215-228 | the days of dates around leap days and before the year 0 |
| `Civil.DaysInOrder` | fast-servers/service-core/src/sql.c:215-228 | days are ordered as dates are, so no two dates share one |
| `Civil.EveryDayHasADate` | fast-servers/service-core/src/sql.c:215-228 | every integer is the day of a valid date |
| `Utf8Fields.DecodeEncoded` | fast-servers/backend/src/field_rules.c:6-39 | decoding undoes UTF-8 encoding wherever the code point stands |
| `Utf8Fields.DecodeIs` | fast-servers/backend/src/field_rules.c:6-39 | what is decoded from any bytes, form by form in terms of the bytes; everything else is its one first byte |
| `Utf8Fields.EncodingsAre` | fast-servers/backend/src/field_rules.c:6-58 | the encodings and UTF-16 forms of one code point of each length |
| `Utf8Fields.DecodeAt` | fast-servers/backend/src/field_rules.c:6-39 | the loop over continuation bytes, a malformed or cut sequence being its one first byte |
| `Utf8Fields.LengthIsUtf16` | fast-servers/backend/src/field_rules.c:41-58 | the length is that of the UTF-16 form, and bytes are at most three times it |
| `Utf8Fields.EnoughIff` | fast-servers/backend/src/field_rules.c:6-58 | what is decoded at a place takes at most three bytes for each unit if and only if it is not F0, 80 to 8F and two continuation bytes |
| `Utf8Fields.EnoughBytes` | fast-servers/backend/src/field_rules.c:41-58 | any bytes, malformed ones too, are at most three times their length in units if no such form is decoded |
| `Utf8Fields.EncodedNoneOverlong` | fast-servers/backend/src/field_rules.c:6-39 | in well-formed text none is |
| `Utf8Fields.OverlongIsLonger` | fast-servers/backend/src/field_rules.c:22-38 | four bytes of an overlong NUL count one unit, and exceed three |
| `Utf8Fields.Utf16Length` | fast-servers/backend/src/field_rules.c:41-58 | the loop counts those units, for any bytes |
| `Utf8Fields.TrimIsStrip` | fast-servers/backend/src/field_rules.c:84-121 | trimming the bytes of well-formed text leaves the encoding of its code points without the spaces at both ends |
| `Utf8Fields.SpaceIs` | fast-servers/backend/src/field_rules.c:60-82 | the code points that are trimmed |
| `Utf8Fields.Trim` | fast-servers/backend/src/field_rules.c:84-121 | the two scans, the second backwards over bytes, give that range |
| `Email.ScanIsLabels` | fast-servers/backend/src/field_rules.c:134-176 | the label scans accept exactly `[..]+(?:[..][..]+)*` |
| `Email.NoEmptyLabel` | fast-servers/backend/src/field_rules.c:134-176 | no label is empty: two separators together, one first or one last are refused |
| `Email.ClassesAre` | fast-servers/backend/src/field_rules.c:123-132 | the classes character by character |
| `Email.SimpleAddressIff` | fast-servers/backend/src/field_rules.c:178-217 | for one word, one label and a top level, exactly what each may be |
| `Email.EmailIff` | fast-servers/backend/src/field_rules.h:36-46 | the rule accepts exactly the strings the documented expression matches, with ASCII classes |
| `Email.EmailUnderFlags` | fast-servers/backend/src/field_rules.h:40-42 | with the flags' case folding: the rule accepts exactly what the expression then matches and has neither of the two characters that fold to a letter |
| `Email.FoldedOnly` | fast-servers/backend/src/field_rules.h:40-42 | an address that only the flags accept |
| `Email.EmailOnBytes` | fast-servers/backend/src/field_rules.c:178-217 | deciding on the UTF-8 bytes of a string is deciding on its characters |
| `Email.AcceptsEmail` | fast-servers/backend/src/field_rules.c:178-217 | the scans for the first @, the last dot, the letters and the labels decide that rule |

## Left out

- Threads of the executor: a unit run inline by a submitter on SQLite's read path, `make_usable` (a dead connection is reported through the driver's answers), statistics, and closing after a start that failed half way.
- Parked requests: `http_arena.c`, `db_http.c` and the resume half of `http_fallback.c` are steps of the `ResumeProtocol` state machine, on values; the thread-local variables themselves are not objects there. That the executor calls `finished` once for every unit it took is assumed there -- a unit leaves `flying` once -- and proved in `Executor.ExactlyOnce`; the two machines are not composed into one. A handler parks its request at most once, and `done` does not park it again: the source does not check either, and would lose the first ticket. Requests parked when the server is torn down are outside the runs considered, and so is the h2o backend.
- The session cache: the hash function is arbitrary and capacity and probe length are parameters, so rounding to a power of two and the seed are not modelled; nor is destruction, which assumes that no reader is left.
- `ChunkedBuffer.Conn.CopyData`: copies byte by byte from the front what the source moves with one `memmove`.
- The request buffer of a connection is as long as the model's caller makes it, and reads are given that fit; that a connection whose buffer is full is torn down, head parsing and replies are not modelled.
- `EnvCursor.QuotedFrom` and `EnvCursor.BareFrom` are the two halves of one loop that tests at every character whether a quote was opened.
- `EnvRoundTrip.WriteThenLoad`, `EnvRoundTrip.ReadBackIff`, `EnvRoundTrip.RewriteKeeps`: promise nothing when the writer replaces a line of a value over several lines -- the entry's own or another's -- or a quote is never closed. `EnvCases` shows how each loses values; the condition is not necessary, since a replaced line can happen to do no harm (`EnvCases.TouchedYetReadBack`). Values that are written may have newlines.
- The output of the `.env` writer is a string with the source's length checks; file I/O, file modes and the texts of errors are left out.
- `Limits`: reals in place of floats; `prefixOf` is a parameter, the prefix a caller has. No bound on the number of buckets is stated, since refused calls can add some without reaching the clear.
- `Placement`: the counts fit the source's integers and are unbounded here; reading the topology and pinning are left out.
- `PlanGroups.MakePlan`: asks for at least one cache group and one worker, which its caller provides, and for fewer cache groups than the sentinel 65535; allocation failures are left out.
- `StatementSlots`: the counter is unbounded, so the wrap-around of 2^31 failed draws is not modelled.
- `Prepared`: parameters, rows and error texts of a statement.
- `Civil`: years are unbounded; the overflow of 64-bit arithmetic is not modelled. Parsing a timestamp around the date is left out.
- `Utf8Fields` and `Email`: a null pointer for the text.
- Cryptography, JSON, sockets, TLS, timers, logging, configuration, setup, static files and the foreign libraries.
