# Factory / procurement order protocol, modelled in Dafny

Two C programs exchange fixed-layout datagrams. The **buyer** (`procurement.c`) sends an order request. It learns from the confirmation how many factories will report. It then reads PRODUCTION, COMPLETION and PROTOCOL_ERR messages until every factory has completed, and prints per-factory counts and a grand total. The **plant** (`factory.c`) receives the request and seeds a shared pool of parts still to make with the order size. It confirms the order with its factory count `N`. It then runs one sub-factory, which repeatedly claims `min(remaining, capacity)` parts inside a semaphore and reports each claim, and finally reports completion.

The model has four modules:

- `Messages` (`message.dfy`): the message record and counting functions over message sequences.
- `Factory` (`factory.dfy`): `Minimum`, the atomic `Claim`, the sub-factory loop `SubFactory` as a method with loop invariants, its recursive reference `ClaimMessages`/`Emitted`, order acceptance `AcceptOrder`, and one pass of `main`'s order loop `Serve`.
- `Procurement` (`procurement.dfy`): the request, the collection state `Tally`, the dispatch `Step`, the loop `Collect` as a fold over an inbox, the summary `Total`, and the whole buyer `Procure`.
- `Session` (`session.dfy`): the plant's replies fed to the buyer.

Sends are messages appended to an output sequence. Receives read the next message of an input sequence. A buyer whose inbox runs dry while factories are still active is `Hung`: that is the program blocked in `recvfrom` forever.

Two points where the code's behaviour is worth stating plainly:

- The plant's comments anticipate several workers: factory.c:2 calls it a multi-threaded server, factory.c:49-50 says the shared pool is for future threads and must be protected by a mutex, and factory.c:92 describes `N` as the number of threads serving the client. The code confirms `N` but runs a single sub-factory (see Findings).
- procurement.c:132-136 decrements `activeFactories` on every COMPLETION, with no check for a duplicate from the same factory. `Step` does the same.

Neither program checks the purpose of the handshake message it receives. The plant never inspects the request's `purpose`, so `AcceptOrder` accepts any message. The buyer takes its first reply as the confirmation whatever its purpose, and `Procure` does the same.

## Model

| member | source | states |
|---|---|---|
| `Factory.Minimum` | factory.c:34-37 | the result is at most each argument and equals one of them |
| `Factory.Claim` | factory.c:228-229 | the claim equals `minimum(remaining, capacity)` and claim plus new pool equals the old pool; with a positive pool and capacity the claim lies in 1..capacity and the pool shrinks but never goes negative; a claim smaller than the capacity empties the pool |
| `Factory.SubFactory` | factory.c:208-261 | the loop terminates for positive capacity; it sends exactly the reference message sequence; partsImade + remainder = order size, and for a non-negative order the pool ends at 0 with partsImade = order size; for an order ≤ 0 it sends only one COMPLETION; myIterations counts the PRODUCTION messages, each carries the factory's ID, capacity and duration with a claim in 1..capacity, and their parts add up to partsImade; the COMPLETION comes last; 0 ≤ myIterations ≤ partsImade, so neither counter can overflow a 32-bit int when the order size fits one |
| `Factory.ClaimMessagesShape` | factory.c:237-242 | every PRODUCTION message has facID, capacity and duration of the sub-factory, a claim in 1..capacity, and all other fields zero |
| `Factory.ClaimMessagesChunks` | factory.c:222-229 | no claim when the pool is ≤ 0; every claim but the last is a full capacity; the last one is what remained; the number of claims is the order size divided by the capacity, rounded up |
| `Factory.ClaimMessagesTotal` | factory.c:228-230 | the claims sum to the order size (0 for an order ≤ 0), all counted under the sub-factory's own ID |
| `Factory.EmittedProtocol` | factory.c:215-256 | a sub-factory sends exactly one COMPLETION, after all its PRODUCTION messages, all with its own ID, and never a PROTOCOL_ERR |
| `Factory.AcceptOrder` | factory.c:179-185 | the pool is seeded with the request's order size; the confirmation has purpose ORDR_CONFIRM and numFac = N, and restoring those two fields gives back the received request, so every other field is echoed unchanged |
| `Factory.Serve` | factory.c:179-192 | one pass of the order loop sends the confirmation (numFac = N, the order size echoed) first, then one sub-factory's messages: exactly one COMPLETION, last, from factory 1, and only factory 1 named in PRODUCTION messages |
| `Factory.ServeAll` | factory.c:182-192 | the corrected pass: N sub-factories run in turn on one pool; N COMPLETION messages, the last message one of them, only IDs 1..N named, and the PRODUCTION parts sum to the order size |
| `Factory.RunFromProtocol` | factory.c:215-256 | sub-factories k..n run in sequence send n-k+1 COMPLETION messages, end with one, send no PROTOCOL_ERR and name only IDs k..n |
| `Factory.RunFromTotal` | factory.c:222-230 | run in sequence on one pool, the PRODUCTION parts under IDs 1..n add up to the pool (0 when it is not positive); the first sub-factory's messages alone carry that whole amount and the later sub-factories, finding the pool drained, report 0 parts |
| `Procurement.RequestMsg` | procurement.c:75-78 | the request has purpose REQUEST_MSG and the order size, and every other field is zero |
| `Procurement.Confirmed` | procurement.c:101-103 | the collection starts with activeFactories = the confirmation's numFac and both per-factory arrays zero |
| `Procurement.Step` | procurement.c:119-148 | PRODUCTION raises iters[facID] by 1 and partsMade[facID] by the message's parts, leaving every other slot and the active count unchanged; COMPLETION lowers the active count by exactly 1 and nothing else, with no duplicate check; PROTOCOL_ERR, and only it, aborts; any other purpose changes nothing |
| `Procurement.Collect` | procurement.c:109-149 | the loop reads only from the front of the inbox; a normal exit leaves the active count at 0 (when it started positive); an abort happens right after a PROTOCOL_ERR; running out of input happens only with factories still active |
| `Procurement.Procure` | procurement.c:87-161 | with no reply the buyer waits forever; a report carries the order size and the confirmed factory count; a confirmation of 0 or fewer factories gives an immediate report with total 0 |
| `Procurement.TotalUpdate` | procurement.c:157-158 | raising one slot by p raises the grand total by p exactly when the slot is in 1..numFactories |
| `Procurement.CollectExit` | procurement.c:109-136 | without PROTOCOL_ERR the loop ends exactly when the messages hold numFactories COMPLETION messages, stopping on the one that completes the count; otherwise it waits with that many fewer factories active |
| `Procurement.CollectAbortsOnError` | procurement.c:137-147 | a PROTOCOL_ERR read while factories are active ends the session at once, whatever the active count, and nothing after it is read |
| `Procurement.CollectTotal` | procurement.c:122-158 | the grand total grows by exactly the parts of the PRODUCTION messages read whose facID is 1..numFactories |
| `Procurement.CollectTracks` | procurement.c:122-131 | each slot f, 0 included, ends holding the number and the parts of the PRODUCTION messages from factory f that were read |
| `Procurement.CollectReadsAll` | procurement.c:109-136 | when no PROTOCOL_ERR comes and the last message is the COMPLETION that brings the count to the active number, the loop finishes having read every message |
| `Procurement.ReadAllFromZero` | procurement.c:101-158 | starting from zeroed arrays and reading the whole inbox, each slot holds exactly its factory's PRODUCTION count and parts, and the grand total is the parts reported by factories 1..numFactories |
| `Procurement.ProcureCleanRun` | procurement.c:101-161 | for 1..20 confirmed factories, no PROTOCOL_ERR, and a last message that is the COMPLETION completing the count, the buyer reads everything and reports per factory exactly what that factory's messages said, and as grand total the parts reported by factories 1..numFactories |
| `Procurement.ProcureAborts` | procurement.c:137-147 | a PROTOCOL_ERR that arrives before the completions reach numFactories aborts the session with no summary |
| `Procurement.ProcureHangs` | procurement.c:109-116 | with fewer COMPLETION messages than confirmed factories and no PROTOCOL_ERR, the buyer never leaves its loop |
| `Session.RequestRoundTrip` | factory.c:179-184 | the plant reads the buyer's order size back out of the request, and the buyer reads back N from the confirmation |
| `Session.EmittedReadable` | factory.c:238-256 | a sub-factory's messages satisfy the buyer's array bounds, and the parts they report under its ID are the order size |
| `Session.SingleFactorySession` | factory.c:179-192 | with N = 1 the buyer ends after the one COMPLETION, with grand total and factory 1's total both equal to the order size (0 for an order ≤ 0) |
| `Session.MultiFactoryHangs` | factory.c:184-192 | as written, with 2 ≤ N ≤ 20 the buyer never reaches its summary |
| `Session.ServeAllSession` | factory.c:184-192 | with all N sub-factories run, for every N in 1..20 the buyer finishes and its grand total equals the order size |

## Left out

- Sockets: `socket`, `bind`, `sendto`, `recvfrom`, `inet_pton`, `inet_ntop` and `close` are I/O. A send is an element appended to the output sequence. A receive reads the next element of the inbox. The fatal `err_sys` paths on transport errors are not modelled.
- Byte layout: `htonl`/`ntohl` and the byte layout of `msgBuf` are left out. message.h is not part of this model, so a message is a record of named integers. Its purpose is a tag, with `Unknown(code)` standing for any code other than the five named ones.
- The named semaphore (`Sem_open`, `Sem_wait`, `Sem_post`) is not modelled. The critical section is the single function `Claim`. The code runs one sub-factory, so no interleaving of several workers is modelled.
- `Usleep` only affects timing.
- The signal handler `goodbye` terminates asynchronously. Its PROTOCOL_ERR is modelled only as a message the buyer may receive.
- Argument parsing, login and time banners, `printf`/`printMsg`/`factLog` output are left out. The summary's contents are the fields of `Report`.
- `main`'s endless order loop is modelled as one pass (`Serve`). Each pass re-seeds the pool, so passes are independent.
- The transport may drop or reorder datagrams. The `Session` lemmas consider the plant's messages delivered in order.
- Order sizes: the buyer stores `atoi`'s result in an `unsigned` and sends its 32 bits. The plant reads those bits back into an `int`, so the bits round-trip. The model therefore carries the `atoi` value as a plain integer.
- Step: does not model 32-bit wrap-around of `iters`, `partsMade` or `totalItems`. Only adversarial inputs could overflow them, and the plant's own messages cannot.
- Step: a PRODUCTION `facID` outside 0..20 indexes the arrays unchecked in the code. This is a precondition rather than modelled behaviour.
- Procure: requires `numFac` ≤ 20, because the summary loop would read past the arrays. This holds even for runs that never reach the summary.
- Procure: requires every PRODUCTION in the inbox to have an in-range `facID`, including messages after the point where the loop stops reading.
- Collect: the arrays are sequences of length 21. Out-of-bounds writes are excluded by the precondition, not modelled.

## Findings

| source | as written | input that shows it | evidently intended | confidence | as-written member | corrected member |
|---|---|---|---|---|---|---|
| factory.c:184-192 | the confirmation announces `numFac = N` but only `subFactory(1, 50, 350)` runs, so only one COMPLETION is ever sent | plant started with N = 2, any order size: the buyer counts one COMPLETION, `activeFactories` stays at 1, and it blocks in `recvfrom` forever | run all N sub-factories on the shared pool, each ending with its own COMPLETION, so the buyer finishes with grand total = order size | high; not executed | `Session.MultiFactoryHangs` | `Session.ServeAllSession` |

The corrected pass `Factory.ServeAll` runs sub-factories 1..N one after another on the one pool. That is one admissible schedule of the concurrent workers the code's comments anticipate.
