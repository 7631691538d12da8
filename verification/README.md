# Verified model of cc.me

cc.me stores captured HTTP requests in encrypted inboxes, lends numbered slots
of distributed semaphores, checks proof-of-work tokens and serves a few tools
around them. This project models the parts whose correctness is hard to see
from the code and proves what each of them is for.

The modules, by component:

- **Inbox transactions** (`StringOrder`, `Recipients`, `MachineInts`,
  `Transactions`, `TransactionProof`, `TransactionResults`, `Deadlocks`,
  `DeadlockProof`, `DeadlockResults`): fan-out enqueues, acknowledgements, releases
  and claims as transactions that interleave statement by statement and row by row.
  The redundant counters agree with the stored messages, an enqueue reaches all of
  its recipients or changes nothing, nobody ever waits in a circle over the counter
  rows, and over messages exactly if the orders in which statements visit them come to
  cross.
- **Inbox rows** (`InboxRows`, `InboxTable`, `MessageIds`, `Claims`, `Cursors`,
  `Paging`, `Responses`, `InboxStore`): what one claim or page holds, ids, the
  cursor, the size of a response, and the operations as methods on the tables.
- **Inbox runs** (`Delivery`, `DeliveryProof`, `DeliveryResults`, `Forwarder`):
  enqueues, row-by-row claims, forwarders, late, repeated and lost requests,
  crashes and the clock, interleaved. Claims of a message are spaced, a claim
  returns what it leases, and no message is lost.
- **Waiting** (`Broadcast`, `LongPolls`, `MissedWakeups`): long polls over a lossy
  broadcast channel, and exactly when a claiming one can miss a message.
- **Semaphore** (`Leases`, `Library`, `LibraryRuns`, `LibraryProof`): the
  operations by themselves, and over runs with waiting borrowers.
- **Proof of work** (`Bits`, `Sha256`, `Sha256Meaning`, `TrailingZeros`, `Kernel`,
  `KernelProof`, `Dispatch`, `Base64Url`, `Solver`, `Tokens`, `BrowserMiner`):
  from SHA-256 as defined by FIPS 180-4 to the GPU kernel, the browser's miner
  and the printed token.
- **Curve25519 field** (`Limbs`, `Field25519`, `Pack25519`, `Fermat`, `Primality`,
  `PrimeCertificate`, `Inverse25519`): arithmetic modulo 2^255 - 19 in Float64 limbs,
  and that this number is prime, so that the inverse is one.
- **Protocol pieces** (`DotStuffing`, `Cdp`): SMTP message framing, and the
  actor that shares a connection to Chrome.

Operations that work step by step are methods with loops over arrays or fields;
concurrent ones are state machines whose steps are single statements, so that a
run is any interleaving. PostgreSQL is modelled at READ COMMITTED: which
statement waits for whom, what a snapshot sees, the test of the newest version
of a row once it is locked, and `now()` as the start of the transaction are
written at the head of each machine. Calls into the database, the network, the
clock and random draws are parameters.

Places where the code does less, or more, than one could expect:

- A claiming long poll can sleep on a message that is there for the taking, with no
  notification on its way (src/main.rs:3064 with src/main.rs:3179-3195).
  `MissedWakeups.MissedIffLocked` gives the condition: at the moment when the poll
  tries to lock a message that was ready when it looked, it can come to miss it if and
  only if another transaction has that row locked. `LongPolls.MissedWasLeftBehind` says
  what must have followed in every run in which a message is missed: that transaction
  rolled back, or it was a claim with more candidates than its response had room for,
  which leased others, or a claim so old that its leases had ended before the poll
  looked. The second needs no failure: `MissedWakeups.LargeBacklogIsMissed` is the run,
  for every backlog over the budget, and of messages of the greatest size twelve are one
  (`MissedWakeups.TwelveAreTooMany`). Peeks lock nothing and never miss a message that was
  ready when they looked, nor do borrowers of the semaphore miss a position. A lease that
  ends while a poll sleeps wakes nobody.
- Acknowledgements and releases lock several messages in one statement without giving
  their order (src/main.rs:3106-3110, src/main.rs:3144-3147). Any number of them,
  together with any enqueues of new messages and any claims, can deadlock if and only if
  some of the acknowledgements can commit such that the orders of the other statements
  cross over what is then stored: there are prefixes of these orders that have no stored
  message in common, and a circle of statements each of which has, as its next message,
  one in the prefix of the one after it (`DeadlockResults.DeadlockIffCrossing`; for two
  statements `DeadlockResults.TwoDeadlockIffCrossing`). Two that visit the same two
  messages in opposite orders do (`DeadlockResults.OppositeOrdersDeadlock`); and a third
  that commits can make the difference, by removing a message that kept the other two
  apart (`DeadlockResults.ThirdUncovers`). Where all follow one common order, ascending
  ids or positions in the table, there is no deadlock (`TransactionResults.NoCircularWait`,
  `TransactionResults.SomeoneMoves`).
- Nothing separates the start time of the process and the counter in the id of a message
  (src/main.rs:4449-4459). Ids from one process, or from processes whose start times have
  equally many base-36 digits, as all from 1975 to 2120, are different
  (`MessageIds.IdsAreDistinct`); otherwise they can coincide, exactly when
  `MessageIds.SameIdIff` says.
- `GREATEST(count - n, 0)` (src/main.rs:3123) never clamps
  (`TransactionResults.ClampNeverActs`).

## Model

| member | source | states |
|---|---|---|
| Recipients.DecodePublicKeys | src/main.rs:4322-4341 | succeeds for 1 to 16 parts that all decode, and only then; the keys are those of the parts, each once, and of two keys the one that occurs first comes first |
| StringOrder.SortAscends | src/main.rs:2792-2797 | the sorted distinct keys are the same keys, strictly ascending |
| StringOrder.BelowIff | src/main.rs:2792-2797 | at the first place where two strings differ, the lower one has ended or has the lower character |
| TransactionProof.RunKeepsInvariant | src/main.rs:2786-2861 | in every interleaving of any number of enqueues, acknowledgements, releases and claims from the empty database, aborts at any point included, the invariant holds: row locks and fresh rows are exclusive, pending counters are the committed ones plus the transaction's own work, and counters agree |
| TransactionResults.CountersAgree | src/main.rs:2786-2861 | at every committed state each inbox's counter is its number of stored messages and at most the configured limit |
| TransactionResults.ClampNeverActs | src/main.rs:3099-3136 | whenever an acknowledgement updates its counter, the row is there and `count - n` is not negative |
| TransactionResults.AllOrNothing | src/main.rs:2825-2860 | the commit of an enqueue gives each of its recipients exactly one message that it did not have, with its counter; an acknowledgement's removes exactly the rows it deleted; no other step of a run changes which messages are stored, or a counter |
| TransactionResults.WaitsForLater | src/main.rs:2792-2825 | along every wait for a counter row the pass and key strictly increase |
| TransactionResults.WaitsForLaterRow | src/main.rs:3099-3158 | so do they along every wait for a message, where the waiting statements visit their messages in one common order, whatever it is |
| TransactionResults.NoCircularWait | src/main.rs:2792-2825 | no chain of waits over the counter rows, of any length and in any reachable state, returns to where it began; nor does one over counter rows and messages together where messages are visited in one common order |
| TransactionResults.SomeoneMoves | src/main.rs:2786-2861 | in every reachable state with open transactions, one of them waits for no counter row, and where messages are visited in one common order for nothing at all |
| Deadlocks.CycleIsOverMessages | src/main.rs:3099-3158 | where the invariant of the runs holds, every wait in a circle of waits is for a message: no enqueue and no counter takes part in a deadlock |
| Deadlocks.EveryCycleCrosses | src/main.rs:3099-3158 | in every circle of waits of every run, whatever else is open, each transaction is an acknowledgement or a release whose next message is among those that the following one in the circle has visited |
| DeadlockResults.DeadlockIffCrossing | src/main.rs:3099-3158 | any number of acknowledgements and releases over any inboxes and in any orders, begun in any reachable state that is at rest, with their commits and aborts and with any enqueues of new messages and any claims beside them, can come to a circular wait if and only if some of them can commit such that the orders of the others cross: at some prefixes without a message in common that is then stored, a circle of statements each has its next message in the prefix of the following one |
| DeadlockResults.TwoDeadlockIffCrossing | src/main.rs:3099-3158 | two such statements over one inbox can deadlock if and only if at some positions each is at a stored message that the other has behind it, with no stored message behind both |
| DeadlockResults.ThirdUncovers | src/main.rs:3134 | three acknowledgements, of x, of x, a and b, and of x, b and a: no orders cross, and yet they can deadlock, since the first commits |
| DeadlockResults.DeadlockIsReached | src/main.rs:3099-3158 | every such deadlock is the end of a run from the empty database |
| DeadlockResults.CrossingIsReached | src/main.rs:3106-3148 | where the orders cross from the start, a run ends in that circle, with exactly those prefixes visited |
| DeadlockResults.OppositeOrdersDeadlock | src/main.rs:3106-3110 | a run in which two acknowledgements that visit the same two messages in opposite orders wait for each other |
| InboxRows.CostsAgree | src/main.rs:3066-3071 | the cost that the claim's SQL computes is the cost of the Rust loop, and 64 plus the id and the base64url text that is sent |
| InboxRows.TotalCostPermutes | src/main.rs:3197-3216 | the cost of rows does not depend on the order in which they come back |
| InboxRows.SizedFits | src/main.rs:4099-4109 | any message of a size that can be stored (64 KiB sealed, an id of up to 80) fits the budget by itself |
| MessageIds.ToBase36 | src/main.rs:4461-4477 | the loop and its reversal give the base-36 numeral |
| MessageIds.IdIsValid | src/main.rs:4449-4459 | every id begins with `m_`, has 4 to 28 characters and passes the test for ids in cursors and batches |
| MessageIds.SameIdIff | src/main.rs:4449-4459 | two ids, of the same process or not, are equal if and only if they have one length and their digits read as one number agree |
| MessageIds.IdsAreDistinct | src/main.rs:4449-4459 | where the start times have equally many digits, two ids are equal only for the same start and the same counter, modulo 2^64 |
| MessageIds.SomeIdsCoincide | src/main.rs:4449-4459 | otherwise two processes can give out the same id |
| Claims.EnvelopesFromRows | src/main.rs:3197-3216 | returns the longest prefix of the rows that fits the budget: each item has the id of its row, and its text decodes to the sealed bytes of the row |
| Claims.ChosenIsPrefix | src/main.rs:3066-3076 | the rows the running sum selects are the longest prefix of the candidates that fits |
| Claims.LeasedIffReturned | src/main.rs:3055-3096 | for any order of the returned rows, the response holds exactly the leased rows; they are a prefix of the candidates, and not nothing if a storable candidate exists |
| Cursors.CursorRoundTrip | src/main.rs:4581-4620 | decoding an encoded cursor gives it back, for every valid id and every time in [0, 2^63) |
| Cursors.AcceptedCursor | src/main.rs:4585-4620 | a text is accepted as a cursor exactly if it is the base64url of a time below 2^63 in decimal, with leading zeros or a plus sign at will and a minus sign only before zero, then a colon and a valid id |
| Cursors.CursorLength | src/main.rs:4581-4583 | an encoded cursor has at most 134 characters |
| Paging.PageFromRows | src/main.rs:3218-3242 | the longest prefix that fits, each item with the id of its row and a text that decodes to its sealed bytes, and the cursor of the last row, or the cursor that was given if it is empty |
| Paging.PageStops | src/main.rs:3035 | a page has at most as many rows as the limit, and stops short of it and of the last row only where one more would exceed the budget |
| Paging.PagesAscend | src/main.rs:3010-3047 | over any chain of peeks, each with the cursor of the one before, on tables that change arbitrarily in between, the rows returned ascend strictly by time and id |
| Paging.NoIdTwice | src/main.rs:3010-3047 | no id is returned twice over such a chain, as long as an id stands for one message |
| Paging.NothingMissed | src/main.rs:3010-3047 | once a page is empty, every message that was ready at all peeks of the chain has been returned |
| Responses.PeekResponseBound | src/main.rs:3218-3242 | the JSON of a page is at most 1048576 bytes for any number of items within the budget and any cursor of up to 134 characters |
| Responses.EveryPageIsBounded | src/main.rs:4099-4109 | so is every page with the cursor it carries: of its last row, or the one that was sent |
| Responses.ClaimResponseBound | src/main.rs:3197-3216 | the JSON of a claim's response is at most 1048576 bytes |
| Responses.LargestPageBound | src/main.rs:3218-3242 | a page that is not empty, of messages that can be stored under the ids the server gives them, stays 534 bytes below the limit, whatever their number |
| Responses.EmptyPageBound | src/main.rs:3218-3242 | an empty one has at most 168 bytes |
| Responses.LargestPageIsReached | src/main.rs:79-82 | and the 534 are exact: a page of twelve such messages in order, with times and ids of the greatest width, has that length |
| InboxStore.Store.InsertInboxMessages | src/main.rs:2786-2861 | run by itself: succeeds exactly if every inbox has room; then each recipient without the id gets the message, and nothing else changes; otherwise nothing changes |
| InboxStore.Store.ClaimOnce | src/main.rs:3049-3097 | takes the messages that have no lease, or one that has ended, and that nobody has locked, in order of time and id: at most the limit, and fewer than there are only where one more exceeds the budget. Exactly these are leased for 600 seconds and returned, each with a text that decodes to its stored bytes; all else stays |
| InboxStore.Store.PeekMessages | src/main.rs:3010-3047 | returns, in order of time and id, the messages without a running lease after the cursor: at most the limit, fewer only where one more exceeds the budget, each with a text that decodes to its stored bytes; and the cursor of the last |
| InboxStore.Store.AckMessages | src/main.rs:3099-3136 | removes exactly the named messages; the count acknowledged is how many fewer there are, and the missing ids are those that were not stored, in the order of the request |
| InboxStore.Store.ReleaseMessages | src/main.rs:3138-3158 | clears exactly the leases of the named messages, with the number found and the missing ids in the order of the request |
| InboxStore.BatchResult | src/main.rs:3275-3286 | the number of distinct ids found, and the requested ids that were not, in order |
| DeliveryProof.RunKeepsInvariant | src/main.rs:3049-3158 | in every run, each stored lease is what the history of claims and releases says, a claim holds only rows that are still stored, ready for it and locked by it alone, and every forwarder has forwarded the prefix it will acknowledge |
| DeliveryResults.ClaimsAreApart | src/main.rs:3049-3097 | two claims of one message with no release of it in between have start times at least 600 seconds apart, whatever their snapshots saw |
| DeliveryResults.LeasedIsReturned | src/main.rs:3055-3096 | every claim of a run returns exactly what it leases: of the rows it could lock, in order of time and id, as many as the budget has room for, and not none if it could lock a storable one; other leases stay |
| DeliveryResults.SnapshotFinds | src/main.rs:3057-3063 | in every run, a claim finds a stored message exactly if every unreleased claim of it began at least 600 seconds before: a message whose forwarder crashed is found again |
| DeliveryResults.ClaimTakesAll | src/main.rs:3057-3096 | a claim that commits below its limit holds every row that it found, but those that were locked, leased or gone when it tried them |
| DeliveryResults.ReturnedWasEnqueued | src/main.rs:3197-3216 | every item of every claim has the id of a message that was enqueued, and a text that decodes to the sealed bytes of that enqueue |
| DeliveryResults.AckedIsNotReturned | src/main.rs:3099-3136 | in every run, a message that was acknowledged is returned by no later commit of a claim, also of one that had found it before |
| DeliveryResults.ReleasedIsFound | src/main.rs:3138-3158 | in every run, a message that was released and not claimed since is found by the next claim at once |
| DeliveryResults.NothingLost | client/rust/src/main.rs:146-184 | under any interleaving with failed forwards, lost, late or repeated requests, crashes and clock steps, every message that was enqueued is still stored as it was or has been forwarded by a forwarder that claimed it, provided nobody else acknowledges an unforwarded message |
| Forwarder.ProcessBatch | client/rust/src/main.rs:146-184 | acknowledges exactly the forwarded prefix and releases exactly the rest; succeeds exactly if everything was forwarded and the acknowledgement answered |
| Forwarder.ForwardBatchGo | main.go:184-210 | the same, with the loop that copies the ids to release |
| Forwarder.ForwardBatchJs | client/js/forward.js:184-204 | the same two requests, in either order |
| Forwarder.SentSplitsBatch | client/rust/src/main.rs:146-184 | these are the requests of the delivery runs, at most one of each kind; exactly the forwarded ids are in the acknowledgement and exactly the others in the release |
| Forwarder.CallsCommute | client/js/forward.js:195-198 | the order in which the server carries out the two requests does not matter |
| Broadcast.WaitForNotification | src/main.rs:3244-3261 | returns at the first event that decides: true for a match or a lag, false for a closed channel or the deadline; what it passed over was for others |
| Broadcast.PushReaches | src/main.rs:2128-2129 | a notification pushed to a subscriber is the last that it has to read, and it lags exactly if it did before or had 4096 unread |
| LongPolls.RunKeepsInvariant | src/main.rs:3160-3195 | in every run, a poll that sleeps without a notification pending, unread or lagged has no message to return that was ready when it looked, unleased or with a lease that had ended, but those it found locked |
| LongPolls.NoLostWakeup | src/main.rs:3160-3195 | when a poll sleeps with nothing on its way to it and no writer between commit and send, a stored message after its cursor, with no lease or one that had ended at its last look, is there for it only if the poll claims and skipped that message, and the transaction behind which it did still has the row locked or has ended and left it so |
| LongPolls.MissedWasLeftBehind | src/main.rs:3055-3091 | in every run, a message that is missed (the poll asleep, nothing on its way, the message ready as of its look and locked by nobody) was skipped because a transaction had it locked, and that transaction held it until it rolled back, or committed as a claim whose candidates cost more than the budget and left it out, or as one that had started a recovery time before the poll looked |
| MissedWakeups.MissedIffLocked | src/main.rs:3056-3091 | in every reachable state in which a claiming poll with nothing on its way is about to try a message that was ready when it looked, some continuation misses it if and only if another transaction has it locked at that moment |
| MissedWakeups.SkippedRowIsMissed | src/main.rs:3179-3195 | a run in which a message is missed after a rollback |
| MissedWakeups.LargeBacklogIsMissed | src/main.rs:3066-3091 | for every backlog over the budget, a run without any failure in which a second claim sleeps on the last message |
| MissedWakeups.TwelveAreTooMany | src/main.rs:79-82 | any messages of the greatest size that can be stored are such a backlog if and only if there are at least twelve |
| MissedWakeups.StoredBacklogIsMissed | src/main.rs:3066-3091 | so such a run exists with twelve messages under ids of one process, whenever it started |
| Leases.Pigeonhole | src/main.rs:1912-1940 | the leases in use on positions below the count are at most the count, and equal to it exactly if every position is taken |
| Leases.LeastFreeIs | src/main.rs:2049-2062 | the aggregate is the least position that is not taken, and NULL exactly if all are |
| Library.Library.Put | src/main.rs:1877-1902 | accepts exactly the counts in range; leases stay |
| Library.Library.ResourceResponse | src/main.rs:1912-1940 | `inUse` is the number of live leases below the count, it and `available` add up to the count, and `available` is positive exactly if some position below the count has no live lease |
| Library.Library.Delete | src/main.rs:1942-1956 | removes the resource and exactly its leases |
| Library.Library.TryBorrow | src/main.rs:2027-2100 | acquires exactly if some position below the count has no live lease, and then the least one, until `now + ttl`; the leases that it removes are exactly the expired ones of that resource, and all others stay; otherwise nothing changes and the least expiry of a live lease is reported |
| Library.Library.ReturnLease | src/main.rs:2102-2126 | removes the lease exactly if it is one of that resource and has not expired, and nothing else |
| Library.Library.LiveAtMostLargest | src/main.rs:2027-2100 | live leases never exceed the largest count ever put |
| LibraryProof.RunKeepsInvariant | src/main.rs:2027-2123 | in every interleaving of borrows, puts, deletes, returns and notifications, the tables, the exclusive row lock and the reasons to sleep stay right |
| LibraryProof.LeasesAgree | src/main.rs:1912-1940 | in every reachable state: distinct positions, in use at most the count, live leases at most the largest count put |
| LibraryProof.PickIffAvailable | src/main.rs:2046-2062 | a borrower finds a position exactly if some position below the count has no live lease, and it is the least such one |
| LibraryProof.BorrowTakesFreePosition | src/main.rs:2064-2089 | a borrow that commits takes a position below the count that no other stored lease of the resource holds, and removes exactly the leases of the resource that had expired when it began, whatever happened since it looked |
| LibraryProof.NoLostWakeup | src/main.rs:1973-2012 | when a borrower sleeps, its next expiry is not due, its receiver holds nothing that would wake it and some position has no live lease, a writer of its resource is between its commit and its send |
| Sha256.PadTail | pow/pow.c:70-92 | the one or two last blocks of the buffer are those of the padded message of section 5.1.1 of FIPS 180-4 |
| Sha256.Sha256Block | pow/pow.c:45-68 | is the compression of section 6.2.2 of FIPS 180-4 |
| Sha256.Sha256 | pow/pow.c:70-92 | is SHA-256 for every message shorter than 2^61 bytes |
| Sha256Meaning.OctetIsDigit | pow/pow.c:83-90 | the bytes written for the length and the digest are the base-256 digits, the shift by 8 j being the digit of 256^j |
| Sha256Meaning.SigmaBits | pow/pow.c:52-61 | bit by bit, the four sigma functions are the sums modulo 2 of equations (4.4) to (4.7) of FIPS 180-4 |
| Sha256Meaning.RotateBits | pow/pow.c:43 | `ROTR` by n moves bit i + n, modulo 32, to bit i |
| Sha256Meaning.ChoiceAndMajorityBits | pow/pow.c:59-62 | of each three bits, one function is the choice by the first and the other the majority |
| Sha256Meaning.ConstantsAreCubeRoots | pow/pow.c:32-41 | the constants are the first 32 bits of the fractional parts of cube roots |
| Sha256Meaning.RowsArePrimes | pow/pow.c:32-41 | these are roots of 64 different prime numbers, in ascending order from 2 to 311 |
| Sha256Meaning.StartIsSquareRoots | pow/pow.c:70-72 | and the initial hash value the first 32 fraction bits of the square roots of the first eight |
| TrailingZeros.LevelIsDivisibility | pow/pow.c:147-162 | a digest ends in n zero bits exactly if 2^n divides it as a big-endian number |
| TrailingZeros.CountTrailingZeros | pow/pow.c:147-162 | counts them byte by byte and bit by bit |
| TrailingZeros.CountTrailingZerosRev | src/main.rs:4816-4827 | counts them from the last byte |
| TrailingZeros.CountTrailingZerosJs | docs/pow.js:96-108 | counts them with `31 - clz32(b & -b)` |
| Kernel.CheckToken | pow/pow.c:164-171 | the level of a token, and for every n, whether 2^n divides the digest |
| Kernel.MineThread | pow/pow.c:191-228 | a thread accepts exactly if its masked words are zero, with its counter's halves |
| KernelProof.MinerBlockIsPadded | pow/pow.c:194-203 | the kernel's block is the padded message SHA-256(doc) with the big-endian counter |
| KernelProof.MaskTest | pow/pow.c:220-222 | the mask test on the last 64 bits is the level test on the digest |
| KernelProof.KernelRefinesChecker | pow/pow.swift:43-84 | for every document, base, thread and level from 1 to 64, the kernel accepts exactly if the token of counter base + tid modulo 2^64 has the level |
| Dispatch.RunKeepsInvariant | pow/pow.c:222-227 | in every interleaving of the threads' memory operations at most one thread stores, and it accepts |
| Dispatch.LaunchReports | pow/pow.c:334-357 | when all threads are done, `found` is set exactly if some token of the batch has the level, and the counter read back is one winner's, its halves never mixed |
| Dispatch.MinerDispatch | pow/pow.c:334-357 | reports exactly that |
| Solver.PrefixWords | pow/pow.c:396-403 | the words of SHA-256(doc) |
| Solver.Search | pow/pow.c:445-458 | after any number of turns: either every counter tried misses, or the result has the level, all batches before missed, and the attempts are counted modulo 2^64 |
| Base64Url.DecodeInvertsEncode | pow/pow.c:98-143 | a text is accepted as some bytes exactly if it is their encoding: a bijection |
| Base64Url.EncodedLetter | pow/pow.c:95-116 | letter i of an encoding is that of the alphabet of section 5 of RFC 4648 for the six bits from 6 i on |
| Base64Url.EncodedLength | src/main.rs:4107-4109 | the length of the text, four for three bytes rounded up |
| Base64Url.EncodeBytes | pow/pow.c:98-116 | writes the encoding of sections 5 and 3.5 of RFC 4648 |
| Base64Url.DecodeText | pow/pow.c:119-143 | decodes it and rejects everything else, with an accumulator that wraps at 32 bits |
| Tokens.TokenSplits | pow/pow.c:472-482 | a text with a first dot is the token of a document and a suffix exactly when the two sides of that dot encode them |
| Tokens.TokenIsUnique | pow/pow.c:472-482 | no text is the token of two different documents or suffixes |
| Tokens.VerifyToken | pow/pow.c:472-486 | accepts exactly the tokens with a suffix of up to 32 bytes, with their document and level |
| Tokens.Solve | pow/pow.c:432-470 | what is printed is a token of the document that reaches the level; the internal error cannot happen |
| BrowserMiner.PassesIsLevel | docs/pow.js:28-29 | the signed masks test exactly the level, from 1 to 64, also where `(1 << 31) - 1` wraps |
| BrowserMiner.HashCounter | docs/pow.js:38-59 | the loop body computes the last two words of the digest and leaves the fixed words of `W` |
| BrowserMiner.MineChunk | docs/pow.js:37-67 | reports the first counter of the chunk that reaches the level, or moves `hi:lo` past the chunk modulo 2^64 |
| BrowserMiner.Mine | docs/pow.js:22-73 | for any chunk sizes, reports the first counter from the start that reaches the level |
| Limbs.CarriedCongruent | docs/tweetnacl.js:1 | a carry pass changes the value by a multiple of 2^255 - 19 |
| Field25519.Carry | docs/tweetnacl.js:1 | `L` is the carry pass, exact in Float64 |
| Field25519.Add | docs/tweetnacl.js:1 | `O` adds the values |
| Field25519.Subtract | docs/tweetnacl.js:1 | `C` subtracts the values |
| Field25519.Multiply | docs/tweetnacl.js:1 | `F`: for limbs of magnitude up to 2^21, possibly in the same arrays, the result is congruent to the product modulo 2^255 - 19, every intermediate is exact in Float64, and the limbs are in [-38, 65573] |
| Pack25519.Exchange | docs/tweetnacl.js:1 | `T` exchanges the arrays if the bit is set and leaves them otherwise |
| Pack25519.Canonicalise | docs/tweetnacl.js:1 | two conditional subtractions leave the digits of the remainder modulo 2^255 - 19 |
| Pack25519.Pack | docs/tweetnacl.js:1 | `z`: the little-endian bytes of the remainder |
| Pack25519.PackedFormsAgree | docs/tweetnacl.js:1 | two field elements pack to the same bytes exactly if they are congruent |
| Pack25519.Unpack | docs/tweetnacl.js:1 | `N` reads the bytes without the top bit |
| Pack25519.Repack | docs/tweetnacl.js:1 | unpacking and packing gives the same bytes exactly if their number is below 2^255 - 19 |
| Inverse25519.Invert | docs/tweetnacl.js:1 | `Z` computes the power with exponent 2^255 - 21 modulo 2^255 - 19, which is the inverse of every element but zero, and zero for zero |
| Inverse25519.ModulusIsPrime | docs/tweetnacl.js:1 | 2^255 - 19 is prime |
| Inverse25519.InvertsAllIffPrime | docs/tweetnacl.js:1 | that power inverts every element but zero if and only if 2^255 - 19 is prime |
| Inverse25519.ChainReachesPMinus2 | docs/tweetnacl.js:1 | the squarings and multiplications of the loop make exactly that exponent |
| DotStuffing.SplitUnsplit | src/bin/cc-me-mail.rs:383-396 | the parts of a message with line feeds between them are the message |
| DotStuffing.DotStuffingRoundTrip | src/bin/cc-me-mail.rs:383-396 | for every message and whatever follows, a receiver by section 4.5.2 of RFC 5321 stops exactly at the terminator and has the message's lines, each without one trailing carriage return |
| DotStuffing.LinesArrive | src/bin/cc-me-mail.rs:383-396 | lines joined with line feeds, each with a carriage return before it or not (a line that itself ends in one has another), are sent with carriage return and line feed between them, with one period more on those that begin with one, and arrive as they are |
| Cdp.Sweep | src/main.rs:5092-5100 | fires every matching waiter once and keeps exactly the others |
| Cdp.Actor.OnRequest | src/main.rs:5052-5070 | takes one request as a turn of the runs does, so that what follows holds of it |
| Cdp.Actor.OnMessage | src/main.rs:5071-5105 | takes one message as a turn of the runs does, so that what follows holds of it |
| Cdp.RunKeepsInvariant | src/main.rs:5046-5107 | in every run ids are used once, a call is pending under its own id or answered but not both, and the taken waiters are those registered or fired |
| Cdp.AtMostOneReply | src/main.rs:5046-5107 | over every run each call has at most one reply, and a reply from Chrome is for the one call that was sent with its id |
| Cdp.SentAsTaken | src/main.rs:5052-5066 | what is sent are the calls in the order in which they were taken, each with the next id |
| Cdp.TakenIsSentOrRefused | src/main.rs:5052-5066 | every call that was taken was sent as it was and is pending under its id or answered, or was answered that the connection is closed, and the actor has stopped |
| Cdp.RepliesAreAnswers | src/main.rs:5046-5107 | over every run, what a caller gets is the result of the first answer with the id of its call after it was sent, or that the connection is closed, if it could not be sent |
| Cdp.AnswerIsPassedOn | src/main.rs:5076-5087 | an answer to a call that was sent and not yet answered is passed on to its caller as it is; any other is ignored |
| Cdp.FiredByEvent | src/main.rs:5088-5100 | a waiter fires only at an event of its session and name, when it is registered |
| Cdp.EventFiresAll | src/main.rs:5088-5100 | at such an event all waiters of that session and name fire, and no others leave |
| Cdp.WaiterBeforeCall | src/main.rs:5355-5362 | a waiter queued before a call is registered or has fired when the call is sent |

## Left out

- The inserts of an enqueue wait for no message: its id is new, so nobody else inserts,
  deletes or locks a row with it. The order in which a statement visits its messages is a
  parameter, since the code leaves it to the database.
- An `i64` counter is an unbounded integer in the transactions; it is proved to stay
  within the configured limit.
- Ids are compared by code points, as the cursor and the query do under the C
  collation; the real collation is the database's.
- Sealed messages are opaque bytes: sealing, signatures, request authentication and the
  decoding of a public key are library calls. `decode_public_keys` gets each part as the
  key it decodes to, or none.
- The runs take it as given that an id is given out once; `MessageIds` says when it is.
- Schema migration, the recount at start and notifications between processes
  (`pg_notify`); writers notify their own process.
- Wall-clock time: microseconds and one clock; the seconds to which the next expiry of a
  lease is rounded are not modelled. That a writer which has committed also sends is
  assumed of its future, not proved.
- Library.Library.TryBorrow: times and the time to live are whole microseconds, not doubles;
  the checks and clamps of `ttl`, `wait` and the limit of an inbox request come before the model.
- Delivery: a release or acknowledgement takes effect on all its rows at its commit; while
  it is under way its rows may be skipped by claims at any time.
- Field25519.Multiply: the unrolled products of the source are nested loops over an array
  of 31 accumulators, in the same order of additions; each intermediate is proved exact.
- docs/tweetnacl.js otherwise: Salsa20, Poly1305, SHA-512, the group law and signing.
- Solver.Search: the endless loop is any number of turns, and the random start a parameter.
- The solve loop of pow.swift adds to `attempts` with a trapping operator; the model counts
  as pow.c does, modulo 2^64.
- The base64url codecs of pow.swift and pow.js go through library calls; pow.c's own codec is
  modelled.
- Dispatch: GPU host calls are reduced to a launch, its threads' memory operations and the
  two buffers read back.
- Cdp: JSON, the parameters of a call, the websocket, time limits of callers and the end of the process; `next_id` is
  unbounded.
- HTTP routing, documentation pages, favicons, fonts, screenshots, webhooks, secrets, OAuth,
  e-mail aliases and statistics: no invariants across functions, or foreign code.
- The Python and Ruby clients: the same batch logic as the three that are modelled.
