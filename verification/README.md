# Resilient Messenger: the delivery pipeline, verified

Four components of the messenger carry a message from a phone to the other members of a group:

- the **offline core** (`crates/messenger-core`) stores it, encrypted, with an outbox row, before anything is sent;
- the **frame codec** (`crates/messenger-protocol`) gives every frame and every envelope one canonical form;
- the **transport manager** (`crates/messenger-transport`) offers queued frames to the endpoints of a signed directory until one answers;
- the **delivery service** (`services/core-api`) authenticates the device, keeps the group's member table and stores each event once, for members to fetch page by page.

The project models these components and proves what they are for, over all inputs, all runs and all networks. Run `dafny verify dfyconfig.toml` for the whole of it.

## How it is laid out

Where the source changes state, so does the model: `TransportManager`, `EndpointSender`, `Backend`, `MessengerCore`, `Encoder` and `Reader` are classes whose methods take the steps of the original ones, loops, early returns and rollbacks included; one `Reader` stands for the three position-moving readers of the source. Each method is proved to compute a function of the state before it, and the theorems are about those functions and their runs.

| part | functions and theorems | classes and loops |
|---|---|---|
| frames and envelopes | `Protocol` | `ProtocolCodec`, `Readers` |
| relay directory | `Directory` | `DirectoryCodec`, `Readers` |
| transport manager | `Transport`, `TransportRuns`, `TransportHistory`, `FlushOrder`, `HonestLog` | `TransportManager` |
| delivery service | `Delivery`, `DeliveryLaws`, `MembershipLog`, `Standing`, `Paging`, `EventLife`, `Sessions`, `TokenOrigins`, `TokenUse`, `Usernames`, `RateLimit` | `Backend` |
| request and response bodies | `ServerFrames`, `WireFormats`, `WirePaging` | `ServerFrames.ReadUpload`, `ServerFrames.WritePage`, `WireFormats.ReadSync` |
| manager and service together | `ExactlyOnce` | |
| octets on the wire and under signatures | `Layouts`, `Utf8` | |
| offline core | `LocalCore`, `LocalLaws`, `LocalContents`, `LocalOutbox` | `MessengerCore` |
| shared | `Results`, `Bytes`, `Sequences`, `Sorting`, `Api` | |

## What is assumed

- A transaction of the service is one atomic step, and transactions are serial. So the order of cursors is the order of commits, which the SQL alone does not enforce.
- Clock readings are parameters, in seconds at the service, in microseconds for its limiter and in milliseconds at the core. Where a theorem needs a clock that does not go back it says so (`Monotone`).
- Random values are parameters. Where a theorem needs a fresh one it says so (`FamilyFresh`: a family id drawn for a new session is not in use).
- Token hashing is symbolic: `AccessHash(token)` and `RefreshHash(token)` are injective and disjoint. Encryption at rest is symbolic: a sealed body opens under the key it was sealed under and no other.
- Signature checks are an uninterpreted predicate; a certificate check is its outcome. The network is any function of everything sent so far.
- A call on the offline core is atomic, except that a retry may stop between its two statements (`complete` is false).
- A request that the rate limiter refuses, or that ends in an error status, is a failed send.
- Widths are kept where the code casts, saturates or refuses: frame and body sizes, `u8` to `u64` in frames and directories, `i16` event kinds, `i64` cursors taken from a request, the saturating failure count and retry time, the 32-bit counter of the limiter. Other counters, row cursors and times are unbounded.

## What the proofs found

- **An early receipt can strand an outbox row.** A delivery or read receipt raises the status without looking at the outbox, after which the upload can no longer be marked accepted: it is polled and refused until a retry resets the status (`LocalLaws.EarlyReceiptSticks`, `LocalLaws.AcceptSucceedsIff`). That retry takes a delivered or read message back to waiting (`LocalLaws.DeliveredRegressesIff`), and a receipt that arrives while a message waits for a retry is answered with success and lost (`LocalLaws.ReceiptIgnoredIff`). `docs/LOCAL_STORAGE.md` says that transitions are monotonic. They are from acceptance on (`LocalLaws.AcceptedOnlyClimbs`).
- **The reported retry time can be wrong after a new directory, both ways.** An endpoint that left the directory keeps its health entry, so the time may lie in the past, when nothing can be sent (`TransportRuns.StaleHealthWakesEarly`). An endpoint that joined has no entry, so the time may lie ahead although a flush sends at once (`TransportRuns.NewEndpointWakesLate`). `Transport.ReportedTimeExactIff` says in which states the time is right, `Transport.FailedFlushReport` what holds after every failed flush, and `Transport.ExactWakeUp` covers the case of a directory that lists every endpoint with an entry.
- **A page may not fit its frame, and a follower then gets stuck.** A page of at most 50 events need not encode. The service then answers with an empty body, which the relay refuses. `WirePaging.FetchFailsIff` says exactly when, and no further upload helps (`WirePaging.UploadsDoNotHelp`). Two events of 32725 octets each are enough (`WirePaging.PairGetsStuck`). Every event fits alone (`ServerFrames.AcceptedEventFits`), so asking for one event at a time always works (`WirePaging.OneByOneCompletes`).
- **The limiter admits up to 2M - 1 calls in a window's length**, and no fewer, so the maximum M is the sliding limit only when it is one (`RateLimit.SlidingWindow`, `RateLimit.BoundAttained`, `RateLimit.LimitHoldsIff`).
- **A directory of the same version replaces the one in use** (`TransportHistory.UpdateAcceptedIff`); `docs/RELAY_DIRECTORY.md` asks for a newer one.
- Other places where the documents and the code differ, and the model follows the code: the manager's outbox is in memory, where `docs/TRANSPORTS.md` speaks of a persistent one; its jitter is a function of the endpoint id, and the offline core's retry has none; a membership operation and its commit are two requests tied by a correlation id, where `docs/DELIVERY_SERVICE.md` speaks of one transaction; expired events are left out of a page silently, where it speaks of an explicit result; an upload that reuses an idempotency key for something else is a conflict, where `docs/PROTOCOL_BUDGETS.md` speaks of a replay; `enqueue` reports every encoding error as a frame that is too large.

## Model

| member | source | states |
|---|---|---|
| Protocol.HeadExact | crates/messenger-protocol/src/lib.rs:265-309 | a head of major type and argument stands in the input exactly when it is read there: shortest arguments only |
| Protocol.FrameRoundTrip | crates/messenger-protocol/src/lib.rs:158-208 | decode after encode is the identity on version 1 frames; any other version is refused as unsupported |
| Protocol.FrameBijection | crates/messenger-protocol/src/lib.rs:180-208 | encode after decode reproduces every accepted byte string |
| Protocol.FrameEncodingUnique | crates/messenger-protocol/src/lib.rs:180-208 | two accepted byte strings of one frame are equal (RFC 8949, section 4.2.1) |
| Protocol.EnvelopeRoundTrip | crates/messenger-protocol/src/lib.rs:210-245 | decode after encode is the identity on envelopes |
| Protocol.EnvelopeBijection | crates/messenger-protocol/src/lib.rs:224-245 | encode after decode reproduces every accepted envelope |
| Protocol.PrefixIsTruncated | crates/messenger-protocol/src/lib.rs:287-350 | every proper prefix of an accepted frame is refused as truncated, for no other reason |
| Protocol.ExtensionIsTrailing | crates/messenger-protocol/src/lib.rs:180-208 | every proper extension is refused for trailing bytes, or for size past 65536 |
| Layouts.OctetOfNumber | crates/messenger-protocol/src/lib.rs:265-282 | octet i of a number of width w is its quotient by 256 to the power w - 1 - i, modulo 256 |
| Layouts.TypeCodes | crates/messenger-protocol/src/lib.rs:23-86 | frame types are 1 to 17 and application types 1 to 11, in their order |
| Layouts.HeadOctets | crates/messenger-protocol/src/lib.rs:265-282 | a head is three bits of major type and the shortest argument, octet by octet |
| Layouts.HeadFaults | crates/messenger-protocol/src/lib.rs:287-309 | how a head is refused: truncated, of an indefinite or wider form, or longer than it need be |
| Layouts.FrameOctets | crates/messenger-protocol/src/lib.rs:158-179 | a version 1 frame starts with 86 01 01, its type, 50 and its message id; it encodes within 30 days of lifetime and 65536 octets, and what is reported otherwise |
| Layouts.OpeningFaults | crates/messenger-protocol/src/lib.rs:180-196 | what is reported when the array head, the tag, the version or the type of a frame does not fit |
| Layouts.StringFaults | crates/messenger-protocol/src/lib.rs:328-334 | what is reported for a string of another type, and for one that is cut short |
| Layouts.IdFaults | crates/messenger-protocol/src/lib.rs:335-343 | an id is a string of 16 octets, and what is reported otherwise |
| Layouts.MessageIdFaults | crates/messenger-protocol/src/lib.rs:180-208 | a frame whose id does not fit is refused for that |
| Layouts.LifetimeFaults | crates/messenger-protocol/src/lib.rs:180-208 | what is reported when the lifetime is no number, or is above 30 days |
| Layouts.BodyFaults | crates/messenger-protocol/src/lib.rs:180-208 | what is reported when the body does not fit or does not end the frame |
| Layouts.EnvelopeOctets | crates/messenger-protocol/src/lib.rs:211-223 | an envelope starts with 85 02, its type and two ids; it encodes with at most 4096 octets of content, and is too large otherwise |
| Layouts.EnvelopeOpeningFaults | crates/messenger-protocol/src/lib.rs:224-245 | what is reported when the array head, the tag or the type of an envelope does not fit |
| Layouts.EnvelopeFieldFaults | crates/messenger-protocol/src/lib.rs:224-245 | what is reported when an id or the content does not fit, or is followed by more |
| ProtocolCodec.Encode | crates/messenger-protocol/src/lib.rs:158-179 | the pushing encoder writes the frame's one form, or refuses as the code does |
| ProtocolCodec.EncodeApplication | crates/messenger-protocol/src/lib.rs:211-223 | the same for envelopes |
| ProtocolCodec.Decode | crates/messenger-protocol/src/lib.rs:180-208 | the position-moving decoder accepts and refuses as the parser function does, error by error |
| ProtocolCodec.DecodeApplication | crates/messenger-protocol/src/lib.rs:224-245 | the same for envelopes |
| Directory.DirectoryRoundTrip | crates/messenger-transport/src/lib.rs:104-149 | a directory comes back with its endpoints in canonical order and is otherwise unchanged; it is refused exactly when a URL lacks its scheme |
| Directory.DirectoryReencode | crates/messenger-transport/src/lib.rs:104-149 | accepted octets are reproduced exactly when their endpoints are already in order |
| Directory.SortTwice | crates/messenger-transport/src/lib.rs:60-79 | canonical order is idempotent |
| Directory.SigningIgnoresOrder | crates/messenger-transport/src/lib.rs:60-79 | what is signed does not depend on the order of endpoints with distinct keys |
| Directory.SigningInjective | crates/messenger-transport/src/lib.rs:60-79 | equal signing octets mean equal directories, up to endpoint order and signature |
| Directory.VerifyAfterRoundTrip | crates/messenger-transport/src/lib.rs:80-149 | a directory that went over the wire verifies as the one that was sent, its signature over the same octets included |
| Directory.VerifyMeans | crates/messenger-transport/src/lib.rs:80-103 | a directory verifies exactly when it is not older, was issued at most 300 seconds ahead and before its end, has not ended, and the key accepts its signature over the canonical octets; and what is reported otherwise |
| Layouts.DirectoryOctets | crates/messenger-transport/src/lib.rs:60-79 | the signed octets of a directory: domain, version, times and count at fixed places, then the endpoints |
| Layouts.EndpointOctets | crates/messenger-transport/src/lib.rs:60-79 | the octets of an endpoint: id, priority, and two texts behind their lengths |
| Layouts.UrlOctets | crates/messenger-transport/src/lib.rs:110-149 | the addresses that are accepted begin with wss:// or ws:// and with https:// or http:// |
| Utf8.ValidIff | crates/messenger-transport/src/lib.rs:428-436 | text is read exactly when it is the encoding of Unicode scalar values |
| Layouts.CanonicalOrder | crates/messenger-transport/src/lib.rs:60-66 | the signed endpoints are the given ones, by priority and then by id |
| Sorting.SortLaw | crates/messenger-transport/src/lib.rs:60-79 | the stable sort is the one sequence that is ordered and keeps equivalent elements in place |
| DirectoryCodec.SigningOctets | crates/messenger-transport/src/lib.rs:60-79 | the appending loop writes the canonical directory |
| DirectoryCodec.EncodeDirectory | crates/messenger-transport/src/lib.rs:104-109 | signing octets followed by the signature |
| DirectoryCodec.DecodeDirectory | crates/messenger-transport/src/lib.rs:110-149 | the reading loop accepts and refuses as the parser function does |
| Transport.FlushHistory | crates/messenger-transport/src/lib.rs:318-380 | frames leave in order from the front; success empties the outbox with one reply a frame; failure leaves every endpoint blocked; a blocked endpoint is left alone |
| FlushOrder.FlushLaw | crates/messenger-transport/src/lib.rs:318-380 | of a whole flush, from its log, the directory and the sticky endpoint alone: every attempt carries the first frame not answered yet, goes to the endpoint that is least by stickiness, priority and place among those that may be tried, or repeats over HTTPS what just failed over WebSocket, and records the top endpoint; a flush fails only when none may be tried |
| Transport.FailedFlushHead | crates/messenger-transport/src/lib.rs:371-377 | a failed flush means that nobody accepted the frame that now heads the outbox |
| Transport.FlushWork | crates/messenger-transport/src/lib.rs:318-380 | in one flush no endpoint id fails twice, and sends are at most twice the frames delivered plus the distinct ids |
| Transport.FlushSendsIff | crates/messenger-transport/src/lib.rs:329-334 | a flush sends something exactly when some listed endpoint is not blocked; else it changes nothing |
| Transport.FlushSucceeds | crates/messenger-transport/src/lib.rs:318-380 | when one listed endpoint may be tried and the network answers every send, the flush succeeds with a reply for every frame |
| Transport.WakesAtIff | crates/messenger-transport/src/lib.rs:318-380 | flushes send from a given time on and not before exactly when no listed endpoint may be tried earlier and one may be tried then |
| Transport.ReportedTimeExactIff | crates/messenger-transport/src/lib.rs:310-334 | the reported time is that time exactly when no listed endpoint may be tried at once and the time is a listed endpoint's |
| Transport.FailedFlushReport | crates/messenger-transport/src/lib.rs:310-380 | after any failed flush nothing is sent before the reported time, and at it exactly when it is a listed endpoint's |
| Transport.ExactWakeUp | crates/messenger-transport/src/lib.rs:310-380 | after a failed flush the reported time lies ahead (by 2 to 511 seconds if all failed now), a flush before it changes nothing and a flush from then on sends |
| Transport.AttemptsPartition | crates/messenger-transport/src/lib.rs:335-368 | attempts are deliveries plus failures over either channel |
| TransportRuns.StepInvariant | crates/messenger-transport/src/lib.rs:273-380 | every call keeps counters, sticky endpoint and distinct outbox ids true to history, and moves frames only in at the back and out at the front |
| TransportRuns.RunHistory | crates/messenger-transport/src/lib.rs:245-380 | over every run, frames answered then frames waiting are the frames taken |
| TransportRuns.LifeOfAManager | crates/messenger-transport/src/lib.rs:245-380 | from creation on: first in first out without loss, six counters equal to sums over what was sent, relay switches equal to the changes of deliverer |
| TransportRuns.NetworkChangeRetries | crates/messenger-transport/src/lib.rs:303-308 | after a network change a waiting frame is offered at once |
| TransportRuns.HeadOfLine | crates/messenger-transport/src/lib.rs:318-380 | over any run, while the frame at the head is never answered, no frame is |
| TransportRuns.EnqueuedIsTaken | crates/messenger-transport/src/lib.rs:282-295 | a frame that encodes and whose id does not wait is taken, at the next place in the order |
| TransportRuns.EnqueueIgnores | crates/messenger-transport/src/lib.rs:282-295 | a frame whose id waits already is answered with success and changes nothing |
| TransportRuns.StaleHealthWakesEarly | crates/messenger-transport/src/lib.rs:273-316 | a run after which the reported time is past and useless |
| TransportRuns.NewEndpointWakesLate | crates/messenger-transport/src/lib.rs:273-334 | a run after which the reported time lies ahead although a flush sends at once |
| TransportHistory.OrderLaw | crates/messenger-transport/src/lib.rs:320-327 | the order of endpoints is the one sequence with the sticky one first, then by priority, then as listed |
| TransportHistory.StickyFirst | crates/messenger-transport/src/lib.rs:320-327 | while it is listed, the endpoint that answered last heads the order |
| TransportHistory.FirstAccepting | crates/messenger-transport/src/lib.rs:329-370 | the frame is answered by the first endpoint in order that is not blocked and accepts it |
| TransportHistory.RunTold | crates/messenger-transport/src/lib.rs:335-368 | over every run HTTPS directly follows a failed WebSocket send of the same frame to the same endpoint, and only then; failure counts are the failures since the endpoint last answered, and without any there is no retry time |
| TransportHistory.BackoffLaw | crates/messenger-transport/src/lib.rs:361-367 | the wait doubles with each failure since the last answer, from 2 to 256 seconds, plus an id-dependent part below as much again |
| TransportHistory.UpdateAcceptedIff | crates/messenger-transport/src/lib.rs:273-281 | a directory is taken exactly when it is current, signed under the manager's key and not older; otherwise the one in use stays |
| TransportHistory.CreatedIff | crates/messenger-transport/src/lib.rs:256-272 | a manager is created exactly for a directory that is current and signed under its key, with nothing waiting |
| TransportHistory.ForgedIsRefused | crates/messenger-transport/src/lib.rs:93-101 | a directory whose signature the key rejects changes nothing, and is reported as such when nothing else is wrong with it |
| TransportHistory.DirectoryWasVerified | crates/messenger-transport/src/lib.rs:256-281 | whatever was done since creation, the directory in use is signed under the manager's key and was current at the call that installed it |
| TransportHistory.NoRollback | crates/messenger-transport/src/lib.rs:80-103 | over every run the directory in use is no older than any that was offered while current and signed |
| TransportManager.TransportManager.Create | crates/messenger-transport/src/lib.rs:256-272 | a manager exists only for a directory that verifies |
| TransportManager.TransportManager.Enqueue | crates/messenger-transport/src/lib.rs:282-295 | the scan queues a frame at the back unless it does not encode or its id waits already |
| TransportManager.TransportManager.UpdateDirectory | crates/messenger-transport/src/lib.rs:273-281 | only the directory changes, and only if the new one verifies |
| TransportManager.TransportManager.NotifyNetworkChange | crates/messenger-transport/src/lib.rs:304-308 | every retry time is cleared and every failure count kept |
| TransportManager.TransportManager.NextRetryAt | crates/messenger-transport/src/lib.rs:310-316 | the least positive retry time of any endpoint, or none |
| TransportManager.TransportManager.Flush | crates/messenger-transport/src/lib.rs:318-380 | the nested loops compute the flush function, state and replies |
| HonestLog.RunHonest | crates/messenger-transport/src/lib.rs:318-380 | over every run each recorded reply is the network's answer to that send |
| ServerFrames.ReadUpload | services/core-api/src/main.rs:248-265 | the reader accepts and refuses upload bodies as the parser function does |
| ServerFrames.WritePage | services/core-api/src/main.rs:353-361 | the loop writes a page event by event |
| ServerFrames.ResponseEncodesIff | services/core-api/src/main.rs:510-518 | a response encodes exactly when its body is at most 65511 octets |
| ServerFrames.AcceptedBodyFits | crates/messenger-protocol/src/lib.rs:180-208 | no accepted frame has a larger body |
| ServerFrames.PageEncodesIff | services/core-api/src/main.rs:353-361 | a page encodes exactly when 2 + the sum of (30 + ciphertext length) is at most 65511; else the answer is empty |
| ServerFrames.AcceptedEventFits | services/core-api/src/main.rs:248-278 | every event accepted from an upload frame fits a page alone, whatever its lifetime and correlation |
| ServerFrames.PairTooLarge | services/core-api/src/main.rs:341-361 | two equal events fit together exactly below 32725 octets |
| Layouts.UploadOctets | services/core-api/src/main.rs:248-265 | which upload bodies are read, and which field is read from which octets |
| Layouts.SyncOctets | services/core-api/src/main.rs:334-346 | the same for sync bodies |
| Layouts.EventOctets | services/core-api/src/main.rs:353-361 | the octets of an event on a page, by position |
| Layouts.PageOctets | services/core-api/src/main.rs:353-361 | where each event stands on a page |
| WireFormats.UploadExact | services/core-api/src/main.rs:248-265 | an upload body is read as a request exactly when it is that request's one form |
| WireFormats.UploadBijection | services/core-api/src/main.rs:248-265 | accepted upload bodies are reproduced from their requests |
| WireFormats.SyncExact | services/core-api/src/main.rs:334-346 | a sync body is read as a query exactly when it is that query's one form, its cursor as a signed number |
| WireFormats.ReadSync | services/core-api/src/main.rs:334-346 | the reader accepts and refuses sync bodies as the parser function does |
| WireFormats.PageRoundTrip | services/core-api/src/main.rs:353-361 | a written page can be read back event by event, whatever the ciphertexts hold |
| WirePaging.FetchFailsIff | services/core-api/src/main.rs:334-361 | a fetch over the wire fails exactly when the next rows, up to the clamped limit, exceed 65511 octets with their heads |
| WirePaging.FollowCompletesIff | services/core-api/src/main.rs:334-361 | over an unchanging log the loop comes to its end exactly when every page fits, and then it brought everything |
| WirePaging.OneByOneCompletes | services/core-api/src/main.rs:334-361 | with limit 1 it always does, in every state reached by uploads from frames |
| WirePaging.UploadsDoNotHelp | services/core-api/src/main.rs:510-518 | a fetch that fails keeps failing whatever is uploaded next |
| WirePaging.PairGetsStuck | services/core-api/src/main.rs:341-361 | two events of at least 32725 octets are uploaded, stored and returned as one page, and the page does not arrive |
| Delivery.PayloadInverse | services/core-api/src/lib.rs:862-878 | the signed octets determine the membership operation |
| Layouts.OperationOctets | services/core-api/src/lib.rs:862-878 | the hundred signed octets of a membership operation, by position |
| Layouts.ChallengeOctets | services/core-api/src/lib.rs:259-296 | the signed octets of a challenge: domain, id, value |
| Layouts.ProofOctets | services/core-api/src/lib.rs:298-339 | the signed octets of a refresh: domain and token |
| DeliveryLaws.UploadResult | services/core-api/src/lib.rs:715-751 | an upload stores one row, or finds the row of its key, or changes no row; keys and event ids stay unique and cursors increasing |
| DeliveryLaws.UploadAcceptedIff | services/core-api/src/lib.rs:715-751 | exactly which uploads are accepted, and which of them as duplicates, in terms of the rows that are there |
| DeliveryLaws.UploadRefusals | services/core-api/src/lib.rs:715-751 | why an upload is refused, and that this changes no row |
| EventLife.UploadAdds | services/core-api/src/lib.rs:737-751 | a new upload adds one row at the end, with all its fields, a week to live and the next cursor |
| EventLife.ShownForAWeek | services/core-api/src/lib.rs:715-776 | in every continuation the event of a new upload is shown, as it was uploaded, to a reader of its group from before its cursor exactly within 604800 seconds, unless a cleanup took it, and none may before |
| EventLife.DeletesAsManyAsAllowed | services/core-api/src/lib.rs:856-859 | a cleanup deletes as many expired rows as there are, up to the batch size clamped to 1 and 10000, and no other row |
| DeliveryLaws.CleanupResult | services/core-api/src/lib.rs:856-859 | retention deletes only expired rows and keeps the log ordered and unique |
| DeliveryLaws.MembershipSound | services/core-api/src/lib.rs:583-653 | an operation is recorded only as signed by its author and applied |
| DeliveryLaws.StepSound | services/core-api/src/lib.rs:195-859 | every call keeps the tables sound and undoes nothing recorded |
| DeliveryLaws.RunSound | services/core-api/src/lib.rs:195-859 | in every reachable state: log ordered, keys unique, every correlated event and every commit names an applied operation of its group |
| DeliveryLaws.RunRegistry | services/core-api/src/lib.rs:195-237 | over every run accounts keep their root, roots and device keys stay unique, every device has its certificate, and revocation is for good |
| Standing.RegisterSucceedsIff | services/core-api/src/lib.rs:195-237 | what it takes to register a device: a certificate that checks out, a new device, a key new in its account and the account's own root |
| Standing.DevicesAreCertified | services/core-api/src/lib.rs:195-237 | in every reachable state each device goes back to a certified registration with its account, key and certificate, and a revoked one was revoked |
| MembershipLog.MembersAreReplay | services/core-api/src/lib.rs:530-653 | the member table is the fold of creations, direct adds and the octets of signed operations |
| MembershipLog.TableIsSignedActs | services/core-api/src/lib.rs:608-652 | the operation table holds exactly the operations applied, each once |
| MembershipLog.RepeatChangesNothing | services/core-api/src/lib.rs:608-622 | in any later state of any run, repeating an accepted operation changes nothing |
| Standing.RunStands | services/core-api/src/lib.rs:530-653 | in every run a device is an active member with a role exactly when the last act that speaks of it says so |
| Standing.MembersAreServed | services/core-api/src/lib.rs:753-776 | a device is served a group's pages exactly while the last act on it let it in |
| Standing.OutsidersAreRefused | services/core-api/src/lib.rs:583-751 | a device that was removed or never let in may neither upload nor administer, and its tries change nothing |
| Standing.RemovedStaysOut | services/core-api/src/lib.rs:583-653 | once out, a device stays out in every continuation until an act lets it in again |
| Standing.OnlyAdministratorsAdminister | services/core-api/src/lib.rs:583-607 | an accepted operation comes from a device that its acts made an administrator, under that device's signature |
| Standing.ApplyAnswers | services/core-api/src/lib.rs:583-653 | how every membership operation is answered after every run, in terms of the standing of its author and target |
| Standing.OperationsTakeEffect | services/core-api/src/lib.rs:583-653 | an applied operation gives its target the standing it says |
| Standing.GroupCallsTakeEffect | services/core-api/src/lib.rs:530-581 | a creator stands as administrator, a direct add gives the role it names |
| Standing.GroupCallsSucceedIff | services/core-api/src/lib.rs:530-581 | who may create a group, and what a direct add needs |
| Standing.GroupsAreCreated | services/core-api/src/lib.rs:530-562 | the groups are those created, each under its creator |
| Paging.PageAdvances | services/core-api/src/lib.rs:753-776 | a page is the front of what remains, of 1, limit or 50 rows for limits below 1, from 1 to 50 and above, or all there are; and the rest remains |
| Paging.PageCovers | services/core-api/src/lib.rs:753-776 | a page holds exactly the visible rows up to its last cursor; an empty one means there are none |
| Paging.FollowAllComplete | services/core-api/src/lib.rs:753-776 | without uploads the loop ends, for every limit, after the fewest pages and with everything |
| Paging.CompletePaging | services/core-api/src/lib.rs:715-859 | between arbitrary uploads, expiry and cleanup: cursors seen increase strictly, and an empty page means every live event past the start was seen |
| Sessions.FamiliesStayChains | services/core-api/src/lib.rs:298-339 | in every reachable state each refresh family is one chain on one device with one unused token, its tip, revoked as a whole or not at all |
| Sessions.OneLiveToken | services/core-api/src/lib.rs:298-339 | two unused tokens of a family are the same |
| Sessions.RotationSucceedsIff | services/core-api/src/lib.rs:298-339 | a rotation succeeds exactly for the unexpired tip of an unrevoked family, signed for by the family's device |
| Sessions.ReuseEndsTheFamily | services/core-api/src/lib.rs:311-315 | after a detected reuse no rotation in that family ever succeeds, in any continuation |
| Sessions.RefreshOnce | services/core-api/src/lib.rs:298-339 | a refresh token is accepted once; presented again it betrays itself |
| Sessions.ChallengeOnce | services/core-api/src/lib.rs:259-296 | a challenge is accepted once |
| TokenUse.BeginAnswers | services/core-api/src/lib.rs:239-257 | for whom a challenge is begun |
| TokenUse.CompletionAnswers | services/core-api/src/lib.rs:239-296 | from its beginning on, over every continuation: how a challenge is answered, completed once, within 120 seconds and on the device's signature |
| TokenUse.CompletionStores | services/core-api/src/lib.rs:894-914 | what a completion stores for the tokens that it hands out |
| TokenUse.CompletionGivesAccess | services/core-api/src/lib.rs:146-158 | in every continuation of a completion its access token opens the device's account for 900 seconds unless the device is revoked or gone, and not after |
| TokenUse.RotationGivesAccess | services/core-api/src/lib.rs:146-158 | the same for a rotation |
| TokenUse.RotationStores | services/core-api/src/lib.rs:298-339 | what a rotation stores, in the family of the token that it replaces |
| TokenUse.RotationAnswers | services/core-api/src/lib.rs:298-339 | from its issue on, over every continuation: how a refresh token is answered, rotated once, within 30 days, on its device's signature and until reuse is found in its family |
| TokenUse.RefusalsChangeNothing | services/core-api/src/lib.rs:239-339 | a refused session call changes nothing, except that reuse revokes its family |
| TokenOrigins.RunFrom | services/core-api/src/lib.rs:239-339 | every row of the session tables goes back to the call that made it |
| TokenOrigins.AccessComesFromSignature | services/core-api/src/lib.rs:146-158 | an access token authenticates a device only if it was issued to it on its signature less than 900 seconds before, and it is not revoked |
| TokenOrigins.RefreshComesFromSignature | services/core-api/src/lib.rs:298-339 | a refresh token rotates only if it was issued to that device on its signature less than 30 days before |
| TokenOrigins.CompletionFollowsChallenge | services/core-api/src/lib.rs:239-296 | a challenge is completed only if it was begun for that device, active then, less than 120 seconds before |
| Usernames.RunReflects | services/core-api/src/lib.rs:341-423 | the tables are what the history of grants and releases says: one holder a name, one name an account, a cooldown for every released row |
| Usernames.NoEarlyRegrant | services/core-api/src/lib.rs:341-423 | no grant of a released name, by claim or change and to anyone, comes before 30 days have passed |
| Usernames.GrantedIff | services/core-api/src/lib.rs:341-409 | after any run, how every claim, change and release is answered, in terms of the last grant or release of each name |
| RateLimit.RunLimits | services/core-api/src/lib.rs:171-193 | over monotone runs the current window holds at most the maximum of accepted calls |
| RateLimit.SlidingWindow | services/core-api/src/lib.rs:171-193 | any interval of a window's length holds at most 2M - 1 accepted calls |
| RateLimit.BoundAttained | services/core-api/src/lib.rs:171-193 | a run with 2M - 1 of them, for every maximum and every window |
| RateLimit.LimitHoldsIff | services/core-api/src/lib.rs:171-193 | no interval ever holds more than the maximum exactly when the maximum is one |
| RateLimit.RunCounts | services/core-api/src/lib.rs:171-193 | over monotone runs the row of a scope tells when its window opened and how many calls, accepted or refused, came since |
| RateLimit.AcceptedIff | services/core-api/src/lib.rs:171-193 | a call is accepted exactly when no window is open or fewer calls than the maximum were made since it opened |
| RateLimit.RefusedAsInvalid | services/core-api/src/lib.rs:171-193 | a call with a scope that is empty or longer than 96 octets, no maximum or no window is refused and counts nothing |
| Backend.Backend.CheckRateLimit | services/core-api/src/lib.rs:171-193 | one counter row changes, by the fixed-window rule; refused calls count too |
| Backend.Backend.RegisterAccountDevice | services/core-api/src/lib.rs:195-237 | account, device and certificate appear together or not at all |
| Backend.Backend.AuthenticateAccess | services/core-api/src/lib.rs:146-158 | the device of a live token, if it is not revoked |
| Backend.Backend.BeginChallenge | services/core-api/src/lib.rs:239-257 | a challenge for an active device, under a fresh id and value |
| Backend.Backend.CompleteChallenge | services/core-api/src/lib.rs:259-296 | the challenge is spent and two tokens stored, or nothing changes; families stay chains |
| Backend.Backend.RotateRefresh | services/core-api/src/lib.rs:298-339 | the token is replaced, or its family revoked, or nothing changes; families stay chains |
| Backend.Backend.IssueTokens | services/core-api/src/lib.rs:894-914 | both rows are stored, in the family given or in a new one, or the insert fails |
| Backend.Backend.ClaimUsername | services/core-api/src/lib.rs:341-363 | the name is granted, or nothing changes; an account holds at most one name |
| Backend.Backend.ChangeUsername | services/core-api/src/lib.rs:365-409 | the old name is released as the new one is granted, or nothing changes |
| Backend.Backend.ReleaseUsername | services/core-api/src/lib.rs:411-423 | the name is released with its cooldown |
| Backend.Backend.CreateGroup | services/core-api/src/lib.rs:530-562 | group and administrator appear together or not at all |
| Backend.Backend.AddGroupMember | services/core-api/src/lib.rs:564-581 | one member row, within the table constraints |
| Backend.Backend.ApplyMembershipOperation | services/core-api/src/lib.rs:583-653 | recorded and applied together, known already, or nothing changes; the log stays sound |
| Backend.Backend.UploadEvent | services/core-api/src/lib.rs:715-751 | the event is stored, found or refused; the log stays sound |
| Backend.Backend.SyncGroup | services/core-api/src/lib.rs:753-776 | the scan returns the first visible rows up to the clamped limit, to active members only |
| Backend.Backend.CleanupExpiredEvents | services/core-api/src/lib.rs:856-859 | the chosen expired rows go and all others stay in order |
| ExactlyOnce.UploadStored | services/core-api/src/lib.rs:715-751 | an accepted upload is stored under the token's device at the answered cursor, with its group, kind and a week to live if it is new, and is marked a duplicate exactly when its key was there before |
| ExactlyOnce.ReplyTells | services/core-api/src/main.rs:266-281 | the reply to an accepted upload decodes to the client's message id, the cursor and the duplicate flag, for cursors of 64 bits |
| ExactlyOnce.OtherFramesStoreNothing | services/core-api/src/main.rs:204-265 | only a frame of the upload type with an upload body stores an event |
| ExactlyOnce.WorldKeeps | services/core-api/src/lib.rs:715-859 | between sends, whatever else happens, a row that retention spares stays, and tokens keep their device |
| ExactlyOnce.ExactlyOnceDelivery | crates/messenger-transport/src/lib.rs:318-380 | over every run and every network that drops requests or loses replies, every frame that left the outbox was accepted and stored, its reply told the client the cursor, and unless retention took it, its event is the one stored under its key, with its ciphertext |
| ExactlyOnce.EnqueuedUploadIsStored | crates/messenger-transport/src/lib.rs:282-380 | the same from the call on: an upload that is enqueued and has left the outbox is stored once |
| ExactlyOnce.ResendGetsOriginalCursor | services/core-api/src/lib.rs:731-736 | once an upload was accepted, even if its reply was lost, every accepted resend that retention did not forestall is answered by a frame that decodes to a duplicate with the original cursor |
| ExactlyOnce.ResendOutcome | services/core-api/src/lib.rs:715-736 | the same frame sent again gets the original cursor exactly when its token still names a device that is still a member, and is never in conflict with itself |
| LocalLaws.RowRefines | crates/messenger-core/src/lib.rs:153-454 | seen through one message id, the core is the small life cycle of one row |
| LocalLaws.LifecycleInvariant | crates/messenger-core/src/lib.rs:153-454 | in every run, crashes inside a retry included: outbox within messages; waiting messages have a row; accepted and cancelled ones have none; no other status occurs |
| LocalLaws.AcceptedIsFinal | crates/messenger-core/src/lib.rs:306-339 | after a successful acceptance the outbox row never returns until a wipe |
| LocalLaws.AcceptedOnlyClimbs | crates/messenger-core/src/lib.rs:306-454 | from acceptance on the status only climbs through accepted, delivered and read |
| LocalLaws.CancelledIsFinal | crates/messenger-core/src/lib.rs:360-382 | a cancelled message stays cancelled until a wipe |
| LocalLaws.AcceptSucceedsIff | crates/messenger-core/src/lib.rs:306-339 | a waiting message can be accepted exactly when no receipt overtook its upload |
| LocalLaws.EarlyReceiptSticks | crates/messenger-core/src/lib.rs:437-454 | after an early receipt every acceptance is refused and the row stays, in every run without a completed retry or a wipe |
| LocalLaws.ReceiptIgnoredIff | crates/messenger-core/src/lib.rs:437-454 | exactly when a receipt is answered with success and leaves no trace |
| LocalLaws.DeliveredRegressesIff | crates/messenger-core/src/lib.rs:341-358 | exactly when a delivered or read message goes back to waiting |
| LocalLaws.ListingNeverFails | crates/messenger-core/src/lib.rs:186-215 | in every run of atomic calls every row opens under the active key, through any rotations |
| LocalLaws.ListingComplete | crates/messenger-core/src/lib.rs:186-215 | a listing shows each message of the conversation exactly once, as stored, the oldest first |
| LocalLaws.StepChanges | crates/messenger-core/src/lib.rs:657-664 | a call that leaves the counter alone leaves every view alone |
| LocalLaws.ChangeDetector | crates/messenger-core/src/lib.rs:235-243 | the counter never goes back, across wipes too, and an unchanged counter means unchanged listings, inbox and members |
| LocalContents.MessagesAreWritten | crates/messenger-core/src/lib.rs:153-184 | over every run the key in use, its version and every message row are what the calls wrote: text, conversation, time, and the nonce of the last sealing |
| LocalContents.ListsWhatWasWritten | crates/messenger-core/src/lib.rs:186-215 | a listing shows exactly the messages that the calls wrote into the conversation, with their texts and times, through every status and rotation |
| LocalContents.TiesListedAsWritten | crates/messenger-core/src/lib.rs:186-215 | messages of one creation time are listed in the order of writing |
| LocalContents.CreatedIsShown | crates/messenger-core/src/lib.rs:153-215 | a new message is listed, ready to upload and due at once, and until a wipe stays listed with its text, conversation and time |
| LocalContents.ConversationsAreWritten | crates/messenger-core/src/lib.rs:153-252 | every conversation is there from its first call on, at the time of its last message |
| LocalContents.MembersAreWritten | crates/messenger-core/src/lib.rs:254-279 | a device's row in a conversation is what the last call on it said |
| LocalContents.InboxIsReceived | crates/messenger-core/src/lib.rs:384-413 | the inbox holds exactly the first event received under each id since the last wipe |
| LocalContents.BatchCounts | crates/messenger-core/src/lib.rs:398-413 | a batch beyond 50 is refused; another is answered with the growth of the inbox |
| LocalContents.CreateSucceedsIff | crates/messenger-core/src/lib.rs:153-184 | a message is created exactly when its id is new since the last wipe |
| LocalContents.RotationSucceedsIff | crates/messenger-core/src/lib.rs:579-616 | a rotation succeeds exactly for the version after the active one |
| LocalContents.MemberCallsSucceedIff | crates/messenger-core/src/lib.rs:254-279 | who can join and leave a conversation, after every run |
| LocalContents.MessageCallsSucceedIff | crates/messenger-core/src/lib.rs:306-454 | which messages can be accepted, retried, cancelled and receipted, and the error otherwise |
| LocalOutbox.RetrySchedule | crates/messenger-core/src/lib.rs:341-358 | a row retried k times records k attempts and waits the k-th delay from its last retry; one never retried waits from its creation |
| LocalOutbox.DelayLaw | crates/messenger-core/src/lib.rs:341-358 | the delays double from one second to 1024 |
| LocalOutbox.PollsWhatIsDue | crates/messenger-core/src/lib.rs:281-304 | a poll returns due rows, at most 50 and at most the limit, and all of them when it returns fewer |
| LocalOutbox.RunPrompt | crates/messenger-core/src/lib.rs:306-454 | while receipts come only for accepted messages, whatever waits can be accepted |
| LocalOutbox.PageAccepted | crates/messenger-core/src/lib.rs:281-339 | every acceptance of a polled page succeeds and removes just its rows |
| LocalOutbox.OutboxDrains | crates/messenger-core/src/lib.rs:281-339 | ceil(n / 50) rounds of poll and accept over n due rows succeed throughout and leave none due |
| MessengerCore.MessengerCore.CreateMessage | crates/messenger-core/src/lib.rs:153-184 | message, outbox row and conversation are written together or not at all |
| MessengerCore.MessengerCore.MarkUploadAccepted | crates/messenger-core/src/lib.rs:306-339 | accepted with its row gone, or refused with nothing changed |
| MessengerCore.MessengerCore.RetryMessage | crates/messenger-core/src/lib.rs:341-358 | the row is rescheduled, then the status set unless the process stops |
| MessengerCore.MessengerCore.CancelPendingMessage | crates/messenger-core/src/lib.rs:360-382 | cancelled with its row gone, or refused with nothing changed |
| MessengerCore.MessengerCore.ApplyReceipt | crates/messenger-core/src/lib.rs:431-454 | the status is raised to the receipt's, never lowered |
| MessengerCore.MessengerCore.IngestServerBatch | crates/messenger-core/src/lib.rs:398-413 | the loop stores the events not yet in the inbox and counts them |
| MessengerCore.MessengerCore.AddMember | crates/messenger-core/src/lib.rs:254-266 | one member row of a known conversation, active |
| MessengerCore.MessengerCore.RemoveMember | crates/messenger-core/src/lib.rs:268-279 | an active member is marked removed |
| MessengerCore.MessengerCore.CreateGroup | crates/messenger-core/src/lib.rs:245-252 | a conversation appears once |
| MessengerCore.MessengerCore.RotateMasterKey | crates/messenger-core/src/lib.rs:579-616 | every row is sealed under the new key with its text kept, or nothing changes |
| MessengerCore.MessengerCore.WipeLocalAccount | crates/messenger-core/src/lib.rs:618-622 | all tables are emptied and the counter still grows |
| MessengerCore.MessengerCore.ListMessages | crates/messenger-core/src/lib.rs:186-215 | the conversation's messages by creation time and row, or the failure to open one; none in a valid state |
| MessengerCore.MessengerCore.ObserveConversationChanges | crates/messenger-core/src/lib.rs:235-243 | the larger of the counter and what the observer has |
| MessengerCore.MessengerCore.GetPendingUploads | crates/messenger-core/src/lib.rs:281-304 | distinct due rows, the earliest first, as many as there are up to the limit and 50, as stored |

## Left out

- Sockets, HTTP, timeouts, long polling, notifications, routing, metrics and shutdown: a send has an outcome, drawn from a parameter.
- SQL isolation, row locks and schema migration: nothing is said about interleavings inside a transaction.
- Ed25519, SHA-256, HKDF, XChaCha20-Poly1305 and MLS: foreign primitives, kept as parameters or as symbolic values.
- The effects of frames other than event uploads inside `ExactlyOnce`: what they do at the service is part of the traffic between sends, and how they are answered is arbitrary.
- Key packages, welcomes, receipts, recovery blobs and device cursors of the service; crypto snapshots, contact requests, block lists, network mode, search and the cached directory of the offline core; compression of bodies: single-row or fixed-layout code that would add easier members.
- `sync_global`: a device that joins a group later skips that group's older cursors, so completeness does not hold for it.
- Canonical form of usernames: given as a parameter, `None` when there is none.
- UTF-8 validity of directory URLs is modelled; other Unicode handling is not.
- Key rotation beside a concurrent send, which encrypts before it takes the lock: calls on the core do not overlap here.
- FlushOrder.FlushLaw: for clock readings below 2^64 - 1, the last second that the clock can show; a wait saturates there and does not lie ahead.
- Backend.Backend.CleanupExpiredEvents: which expired rows a batch takes is the caller's choice of a set of cursors, because the SQL leaves the choice open.
- FFI wrappers, mobile apps, scripts and the load generator.
