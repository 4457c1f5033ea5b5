# Seam SDK: a verified model of its hard core

The Seam SDK signs, retries and verifies calls to the Seam runtime from Python, Go and other languages. This
project models the parts of it where a small slip would be costly, in Dafny, and proves what they promise:

- **Admission tickets.** `TicketCaches`, `TicketProtocol`, `TicketSafety`, `TicketRefresh` and `TicketCalls` model
  any number of callers (threads or coroutines) sharing one ticket cache per agent: looking a ticket up, admitting,
  sending, being refused, refreshing, retrying, being cancelled. Every step a caller takes between two lock or
  network operations is one event, and the results hold of every run. `Retry` is the opt-in retry loop around them.
- **Signed and hashed bytes.** `Bytes` and `Preimages` hold the framings and every preimage built from them;
  `PreimageReader` reads every one of them back, field by field, so that each is uniquely decodable and no two kinds
  of preimage share bytes.
- **Canonical JSON.** `Utf`, `JsonNumbers`, `JsonStrings`, `Jcs` and `JcsReader` hold the RFC 8785 writer, a reader,
  a loader into Python values, and the theorems that the bytes and the value determine each other and that every
  number and string is spelled the one canonical way.
- **Reading refusals.** `Protobuf` and `RpcErrors` hold the hand-written protobuf reader and what a typed error
  says about a refusal.
- **Verifying tokens and proofs.** `DuplicateKeys` is the Go walk that refuses repeated JSON keys, over the token
  reader it drives; `HttpHtu` and `Base64Url` are the DPoP URL grammar and key encoding in both implementations;
  `LazyStream` is the Go stream that opens on the message its proof signs.
- **Publishing an identity.** `IdentityFile` is the crash-safe, never-clobbering publication of an identity file
  by concurrent creators, with processes killed and the power cut at any step.
- **The registry drift check.** `DriftNewest` finds the newest release from one page of a registry listing;
  `DriftVerdict` is the check's verdicts, exit code and issue reporting, over sequences of runs in which any GitHub
  call may fail and people change the issues in between.

`Sorting` is shared. Code that changes things step by step is a class or a method with loops, proved against a
function; the theorems are about that function. Protocols are state machines whose runs are sequences of events.

Where the code and its own words part, the model follows the code:

- `hasDuplicateKey` is documented to refuse everything but a single JSON value. What follows the value is only
  refused when a further value could start there; a stray closing bracket or a malformed tail passes.
  `DuplicateKeys.PassesExactly` states exactly what passes, `StrayBracePasses` gives the input, and
  `ExactOnOneValue` shows the walk exact on input that is one value, which the caller's own decoding ensures.
- A cancelled ticket refresh is meant to leave no rejected ticket behind. While it still waits for the lock it has
  touched nothing, so the rejected ticket stays cached (`CancelledWaitKeepsRejectedTicket`); `CancelledRefresh` says
  exactly when.
- Replay safety rests on a clock that does not go back, and the client reads wall-clock time. `ReplaySafety` assumes
  a monotone clock, and `ReplaySafeIffClockForward` shows that nothing less will do: all runs whose clock is never
  set back by more than `d` are replay-safe if and only if `d` is not positive.
- The retry loop's budget bounds what it books, and the coroutine client accepts a negative delay from a server, which
  it books and does not sleep. It sleeps what it books if and only if no delay is negative (`SleepsWhatItBooks`), and
  keeps to its budget in every run if and only if no delay can be negative or there is at most one (`BudgetKeptIff`).
- The length prefix of a Go frame is a 32-bit truncation. A field is framed uniquely if and only if it is shorter than
  2^32 bytes (`Bytes.FrameUniqueIffShort`); the uniqueness results are for such fields.

## Model

| member | source | states |
|---|---|---|
| `Bytes.LeRoundTrip` | python/seam_sdk/crypto.py:613-614 | a little-endian length of its width reads back as the number |
| `Bytes.BeRoundTrip` | python/seam_sdk/crypto.py:124-125 | a big-endian length of its width reads back as the number |
| `Bytes.FrameSplit` | python/seam_sdk/crypto.py:1154-1155 | a length-prefixed field shorter than 2^32 bytes, followed by anything, determines the field and what follows |
| `Bytes.FrameUniqueIffShort` | go/crypto/crypto.go:475-478 | a frame followed by anything determines its field among the short ones if and only if the field is shorter than 2^32 bytes; every longer one shares its bytes with a short prefix of it |
| `PreimageReader.FramesRead` | python/seam_sdk/crypto.py:555-582 | so many frames followed by anything are read back as their fields and what follows |
| `PreimageReader.BigFramesRead` | go/crypto/crypto.go:188-191 | the same for the eight-byte big-endian frames |
| `PreimageReader.OptsRead` | python/seam_sdk/crypto.py:804-806 | optional fields are read back, an absent one never as an empty one |
| `PreimageReader.DomainOfTag` | python/seam_sdk/crypto.py:494-519 | each kind of preimage carries its own tag, given as a literal text |
| `PreimageReader.CallV3Read` | python/seam_sdk/crypto.py:1158-1201 | a v3 call is read back field by field, subjects as sent and features in their signed order |
| `PreimageReader.FeaturesInOrder` | go/crypto/crypto.go:490-509 | that order is the byte order of the keys and then of the values |
| `PreimageReader.RequestRead` | python/seam_sdk/crypto.py:575-582 | a request credential carries the ticket, the full RPC name, the resource id and the body digest, in this order |
| `PreimageReader.EnrollPopRead` | python/seam_sdk/crypto.py:1276-1295 | an enrolment proof payload is read back field by field |
| `PreimageReader.BindingRead` | python/seam_sdk/crypto.py:1415-1493 | a context binding followed by anything is read back, nested counts and optional fields included |
| `PreimageReader.EntryRead` | python/seam_sdk/crypto.py:128-169 | an explanation entry followed by anything is read back, an absent confidence or rationale included |
| `PreimageReader.RecordRead` | python/seam_sdk/crypto.py:851-958 | a record that is not refused is read back slot by slot |
| `PreimageReader.ChainHeadRead` | python/seam_sdk/crypto.py:967-991 | a chain-head attestation is read back, with and without a signed tenant |
| `PreimageReader.CommitmentRead` | go/crypto/crypto.go:275-295 | a commitment is read back, a missing predecessor told apart from an empty one |
| `PreimageReader.PreimageReadsBack` | python/seam_sdk/crypto.py:494-582 | from the bytes of every accepted preimage a reader of frames, counts and tag texts gives back its kind and every field in its place |
| `PreimageReader.PreimageDetermines` | python/seam_sdk/crypto.py:494-582 | two accepted preimages of any kinds have the same bytes exactly when they are one kind with one field tuple |
| `PreimageReader.BuiltIffFits` | python/seam_sdk/crypto.py:555-582 | apart from records, contexts and explanations a preimage is refused exactly when a field, a number or a count does not fit its width |
| `PreimageReader.RecordRefusedInOrder` | python/seam_sdk/crypto.py:901-931 | a record is refused exactly for the first reason of a list that holds, and hashed when none does |
| `PreimageReader.ExplanationRefusedIff` | python/seam_sdk/crypto.py:142-166 | an explanation is refused exactly when an entry has none of four kinds or a confidence outside 0 to 1 |
| `PreimageReader.ContextRefusedIff` | python/seam_sdk/crypto.py:1462-1481 | bindings that fit their prefixes are refused exactly for an unpaired or unknown receipt key status |
| `Preimages.FeaturesAsMultiset` | go/crypto/crypto.go:490-509 | sorting makes two feature lists alike exactly when they hold the same pairs as often |
| `Preimages.AppendFrames` | go/crypto/crypto.go:473-489 | the loop that appends frames produces the concatenation of all of them |
| `Preimages.CallSigV3Payload` | go/crypto/crypto.go:473-509 | Go's append-and-sort builder produces the bytes the Python builder joins, for every field tuple |
| `Preimages.EnrollPopPayload` | go/crypto/crypto.go:545-558 | Go's frame-by-frame enrolment payload is the one the Python builder joins |
| `Preimages.CommitmentPreimage` | go/crypto/crypto.go:275-295 | Go's two loops around the optional predecessor produce the bytes the Python builder joins |
| `Preimages.ExplanationPreimage` | go/crypto/crypto.go:202-238 | the entry loop produces the uniquely decodable bytes, and none at all when one entry is refused |
| `Preimages.ContextPreimage` | python/seam_sdk/crypto.py:1415-1493 | the two binding loops produce the uniquely decodable bytes, and none at all when one binding is refused |
| `TicketCaches.StoredTicketWindow` | python/seam_sdk/_authorize.py:83-95 | a stored ticket is served exactly until four fifths of its life are over, never at or after expiry, and an unusable one never |
| `TicketCaches.StaleStaysStale` | python/seam_sdk/_authorize.py:83-86 | a clock that moves forward never brings a stale ticket back |
| `TicketCaches.TicketCache.constructor` | python/seam_sdk/_authorize.py:79-81 | a new cache holds nothing |
| `TicketCaches.TicketCache.GetTicket` | python/seam_sdk/_authorize.py:83-86 | reading serves the cached ticket while it is fresh and changes nothing |
| `TicketCaches.TicketCache.StoreTicket` | python/seam_sdk/_authorize.py:88-95 | storing caches a usable ticket with its refresh time and drops an unusable one |
| `TicketCaches.TicketCache.Invalidate` | python/seam_sdk/_authorize.py:97-99 | invalidating empties the cache |
| `TicketCaches.TicketCache.AdoptOrDrop` | python/seam_sdk/client.py:533-538 | a refresh adopts a fresh ticket other than the one it failed on and otherwise empties the cache |
| `TicketCaches.TicketCache.ForgetIf` | python/seam_sdk/client.py:665-672 | a burned ticket is dropped only if it is the one cached and fresh |
| `TicketSafety.LockInvStep` | python/seam_sdk/client.py:507-547 | every step keeps one holder per agent lock and the holder known to the slot |
| `TicketSafety.GoneForGood` | python/seam_sdk/client.py:388-410 | with a forward clock, a ticket that left the cache and every caller's hands is never used again |
| `TicketSafety.SpentInvStep` | python/seam_sdk/client.py:555-672 | every step keeps the tickets a replay-guarded write has already used out of its reach |
| `TicketSafety.SpentOverRuns` | python/seam_sdk/client.py:555-672 | the same over every run |
| `TicketSafety.PayloadBindsTicket` | python/seam_sdk/crypto.py:575-582 | the signed bytes of one call determine the ticket they were signed under |
| `TicketSafety.ReplaySafety` | python/seam_sdk/retry.py:63-97 | in every interleaving, no two sends of one replay-guarded write, over all its retries, sign the same bytes |
| `TicketRefresh.WireBounds` | python/seam_sdk/client.py:634-663 | each attempt makes at most six wire calls, two of them sends; three and one where the call does not resend |
| `TicketRefresh.LockedCacheUntouched` | python/seam_sdk/client.py:507-547 | no step touches the cache of an agent whose lock another caller holds |
| `TicketRefresh.InvOverRuns` | python/seam_sdk/client.py:412-481 | the protocol's invariants hold in every reachable state |
| `TicketRefresh.FreshTicketSurvives` | python/seam_sdk/client.py:665-672 | a fresh ticket leaves the cache only by time, by a caller that failed on it, or by an explicit admission |
| `TicketRefresh.ResendsOnAnotherTicket` | python/seam_sdk/client.py:533-538 | in every run, whatever the clock does, no resend goes out under the ticket that was just refused |
| `TicketRefresh.RefreshCoalesces` | python/seam_sdk/client.py:507-547 | over every run on a clock that does not go back, the callers of an agent together admit at most once for a ticket they start without and once for each fresh ticket lost or unusable ticket admitted, however many were refused |
| `TicketRefresh.LostOnce` | python/seam_sdk/client.py:533-538 | over every such run a ticket is lost at most once, however many callers are refused on it |
| `TicketRefresh.OneAdmissionPerRejectedTicket` | python/seam_sdk/client.py:507-547 | from any reachable state a stampede on a rejected ticket admits at most once, and not at all if it was already replaced |
| `TicketRefresh.CancelReleases` | python/seam_sdk/aio.py:319-346 | cancelling at any await releases the lock and writes to no cache |
| `TicketRefresh.CancelledRefresh` | python/seam_sdk/aio.py:387-440 | a cancelled refresh leaves the rejected ticket cached exactly when it still waited for the lock; under the lock the cache is left empty |
| `TicketRefresh.CancelledAdmitLeavesCache` | python/seam_sdk/aio.py:217-225 | a plain admission cancelled anywhere leaves the cache as it was, whatever the others did meanwhile |
| `TicketRefresh.CancelledWaitKeepsRejectedTicket` | python/seam_sdk/aio.py:387-440 | a run in which a cancelled refresh leaves the rejected ticket cached and fresh |
| `TicketRefresh.BackwardClockReplays` | python/seam_sdk/client.py:665-672 | for every set-back, however small, a run in which a retried write is sent twice under one ticket |
| `TicketRefresh.ReplaySafeIffClockForward` | python/seam_sdk/client.py:665-672 | all runs whose clock is never set back by more than d are replay-safe if and only if d is not positive |
| `TicketCalls.EndsAsAnswered` | python/seam_sdk/client.py:637-663 | in every run a call that began and was not cancelled has returned, or raises an error, exactly when its answers say so: a failed admission, the only reply, or the second reply after a first UNAUTHENTICATED |
| `TicketCalls.RefusedOnceSendsTwice` | python/seam_sdk/client.py:475-481 | a call that resends and was refused UNAUTHENTICATED once ends, unless its refresh fails, after exactly two sends under different tickets, with the second reply |
| `TicketCalls.CountersCount` | python/seam_sdk/client.py:637-663 | the wire-call and send counters are the answers had and awaited, and one ticket is recorded for every send |
| `TicketCalls.RefusedTicketsGone` | python/seam_sdk/client.py:655-672 | on a clock that does not go back, a caller that goes on to a second ticket or raises an error that spoils its ticket leaves the refused ticket out of everyone's reach |
| `TicketCalls.LockCanBeFreed` | python/seam_sdk/client.py:534-547 | whoever holds an agent's lock can always be brought to release it |
| `TicketCalls.ResendReachable` | python/seam_sdk/client.py:533-540 | from every reachable state a refused call can be brought to its second send, by adopting a fresh ticket or by admitting one |
| `Retry.BackoffRange` | python/seam_sdk/retry.py:40-60 | a delay lies between the server's own and that plus the capped exponential |
| `Retry.CapDoubles` | python/seam_sdk/retry.py:40-60 | the cap starts at the base delay and doubles from attempt to attempt, up to the longest delay |
| `Retry.JitterIsFull` | python/seam_sdk/retry.py:40-60 | the jitter runs evenly from the server's own delay to the cap above it |
| `Retry.WithSessionRetry` | python/seam_sdk/retry.py:63-97 | the loop ends after at most the allowed attempts with the last attempt's outcome, stops exactly where it may not go on, and books no more waiting than the budget |
| `Retry.SleepsWhatItBooks` | python/seam_sdk/retry.py:100-131 | the coroutine loop never sleeps less than it books, and exactly that if and only if no delay is negative |
| `Retry.SleepsWithinBudget` | python/seam_sdk/retry.py:100-131 | with no negative delay, or with at most one delay, the time slept is within the budget |
| `Retry.NegativeDelayOverruns` | python/seam_sdk/retry.py:100-131 | for every budget and every negative delay, however small, a run of three attempts sleeps past the budget by that much |
| `Retry.BudgetKeptIff` | python/seam_sdk/retry.py:100-131 | against delays of at least -d every run sleeps within its budget if and only if d is zero or there is at most one delay |
| `Utf.Utf8RoundTrip` | python/seam_sdk/crypto.py:474-479 | decoding an encoded text gives the text |
| `Utf.Utf8DecodeExact` | python/seam_sdk/errors.py:411-432 | what decodes is the encoding of its text, so overlong forms and surrogates are refused |
| `Utf.Utf8Bytes` | python/seam_sdk/crypto.py:474-479 | a code point takes one to four bytes, a lead byte that says how many and continuation bytes, as section 3 of RFC 3629 has it |
| `Utf.ByteOrderIsUnitOrder` | python/seam_sdk/crypto.py:462-463 | comparing UTF-16BE bytes is comparing code units |
| `Utf.Utf16Injective` | python/seam_sdk/crypto.py:463 | different texts have different UTF-16 forms |
| `Utf.Utf16Units` | python/seam_sdk/crypto.py:463 | a code point is its own unit or a surrogate pair of ten bits each |
| `JsonNumbers.BodyIsLayout` | python/seam_sdk/crypto.py:371-387 | the four branches spell one well-formed number literal each |
| `JsonNumbers.NumberReadsBack` | python/seam_sdk/crypto.py:355-387 | the text is read back as the literal and the double it came from, and leaves what follows |
| `JsonNumbers.NumberIsExact` | python/seam_sdk/crypto.py:366-387 | the text denotes exactly the digits times ten to the exponent |
| `JsonNumbers.DecimalNotation` | python/seam_sdk/crypto.py:355-361 | exponent notation is used exactly below 10^-6 and from 10^21 on |
| `JsonNumbers.LayoutIsTheLiteral` | python/seam_sdk/crypto.py:371-387 | the literal written is the only one with that sign and value, no zero that could be left off, and an exponent exactly below 10^-6 and from 10^21 on |
| `JsonNumbers.PowerSigned` | python/seam_sdk/crypto.py:383-386 | an exponent is written after a small e and always with its sign |
| `JsonNumbers.NumberTextInjective` | python/seam_sdk/crypto.py:355-387 | two finite doubles share a text exactly when they are the same double |
| `JsonNumbers.IntegersPrintAsThemselves` | python/seam_sdk/crypto.py:390-432 | an integer past 2^53 is accepted exactly when the shortest spelling of its double is its own decimal form, of at most 21 digits, and then prints as itself |
| `JsonNumbers.SafeIntegersPrint` | python/seam_sdk/crypto.py:416-419 | every integer up to 2^53 either way prints as it is |
| `JsonNumbers.ExactDoubleRefused` | python/seam_sdk/crypto.py:397-405 | 2^60, whose double is exact but spelled 1152921504606847000, is refused |
| `JsonNumbers.IntegerLayout` | python/seam_sdk/crypto.py:401-405 | the double of an integer is laid out as its own decimal up to 21 digits and never past them |
| `Jcs.JcsString` | python/seam_sdk/crypto.py:339-352 | the escaping loop writes the form every string is read back from |
| `Jcs.Output.Append` | python/seam_sdk/crypto.py:435-471 | what was written is extended by exactly the new part |
| `Jcs.Write` | python/seam_sdk/crypto.py:435-471 | the recursive writer accepts exactly the writable values and appends exactly their text |
| `Jcs.WriteItems` | python/seam_sdk/crypto.py:448-454 | the list loop writes the items in order between commas, or refuses the list |
| `Jcs.WriteMembers` | python/seam_sdk/crypto.py:455-469 | the dictionary loop writes the members in key order between commas, or refuses the dictionary |
| `Jcs.CanonicalizeValue` | python/seam_sdk/crypto.py:474-479 | the whole canonicalizer, joined and encoded, or a refusal |
| `Jcs.KeysInCodeUnitOrder` | python/seam_sdk/crypto.py:462-463 | the members are written in the order of their keys' UTF-16 code units |
| `Jcs.KeyLeAntisymmetric` | python/seam_sdk/crypto.py:463 | two keys with equal sort keys are one key |
| `Jcs.SortKeyed` | python/seam_sdk/crypto.py:463-469 | sorting members looks at keys only |
| `JsonStrings.StringReadsBack` | python/seam_sdk/crypto.py:322-352 | every string is read back from its escaped form |
| `JsonStrings.EscapedIsCanonical` | python/seam_sdk/crypto.py:322-352 | the escaped form is the one shortest spelling with lower-case digits: nothing is escaped that need not be, and each by its shortest escape |
| `JcsReader.TextReadsAs` | python/seam_sdk/crypto.py:435-471 | the text of any writable value is read as its tree, members in canonical order, wherever a value may end |
| `JcsReader.TreeDenotes` | python/seam_sdk/crypto.py:435-471 | that tree spells the document the value stands for |
| `JcsReader.MembersParsedInOrder` | python/seam_sdk/crypto.py:462-469 | the members read from a dictionary's canonical bytes come in the order of their keys' UTF-16 code units |
| `JcsReader.ReadInvertsCanonicalize` | python/seam_sdk/crypto.py:474-479 | reading canonical bytes gives the document written |
| `JcsReader.MeaningDeterminesText` | python/seam_sdk/crypto.py:455-469 | a document has one text, whatever its member order and however its numbers were typed |
| `JcsReader.CanonicalForm` | python/seam_sdk/crypto.py:474-479 | two values have the same canonical bytes exactly when they are the same document |
| `JcsReader.LoadedNumberSame` | python/seam_sdk/crypto.py:409-414 | a double printed as a bare integer is loaded and accepted again as that integer, any other as a float, and it is the same double |
| `JcsReader.Recanonicalizes` | python/seam_sdk/crypto.py:409-414 | what the byte loader reads from canonical bytes stands for the same document and is canonicalized to the same bytes |
| `Protobuf.VarintRoundTrip` | python/seam_sdk/errors.py:344-355 | a varint is read back, up to the ten bytes the reader allows |
| `Protobuf.VarintExact` | python/seam_sdk/errors.py:344-355 | a varint is bytes with the high bit up to one without, ten at most, longer spellings of a number included, and nothing else is one |
| `Protobuf.ReadVarint` | python/seam_sdk/errors.py:344-355 | the shifting loop reads the number at an index, moves past it and stays in the buffer, or raises |
| `Protobuf.ReadField` | python/seam_sdk/errors.py:370-388 | one field is read at an index and the index moves on inside the buffer, or the reader raises |
| `Protobuf.PayloadExact` | python/seam_sdk/errors.py:370-387 | four wire types have a payload, each exactly when its bytes are all there, and no other has |
| `Protobuf.ReadFields` | python/seam_sdk/errors.py:358-388 | the loop yields exactly the fields of the message and tells a clean end from a malformed one, on every buffer |
| `Protobuf.FieldRoundTrip` | python/seam_sdk/errors.py:370-388 | every encodable field is read back, fixed-width values skipped |
| `Protobuf.FieldsRoundTrip` | python/seam_sdk/errors.py:358-388 | every message of encodable fields is read back in order and ends cleanly |
| `RpcErrors.ReadAny` | python/seam_sdk/errors.py:407-414 | the inner loop reads the last type and the last value, or raises |
| `RpcErrors.AnyIsLast` | python/seam_sdk/errors.py:407-414 | of repeated types and values the last ones count |
| `RpcErrors.ReadStatusDetails` | python/seam_sdk/errors.py:391-418 | the last matching metadata entry is read as its details, and anything malformed as none |
| `RpcErrors.DecodeErrorInfo` | python/seam_sdk/errors.py:421-438 | the loop reads the last reason and domain and every metadata entry, later ones winning, or raises |
| `RpcErrors.InfoIsLast` | python/seam_sdk/errors.py:421-438 | of repeated reasons and domains the last ones count |
| `RpcErrors.DecodeRetryDelay` | python/seam_sdk/errors.py:441-451 | the first delay decides, whatever follows it |
| `RpcErrors.ReadDuration` | python/seam_sdk/errors.py:445-450 | the inner loop reads signed 64-bit seconds and nanoseconds |
| `RpcErrors.DurationIsLast` | python/seam_sdk/errors.py:445-450 | of repeated seconds and nanoseconds the last ones count |
| `RpcErrors.AnyRoundTrip` | python/seam_sdk/errors.py:407-414 | an encoded detail is read back |
| `RpcErrors.StatusRoundTrip` | python/seam_sdk/errors.py:391-418 | every status a server encodes is read back as its details in order, whatever fields stand between them |
| `RpcErrors.ErrorInfoRoundTrip` | python/seam_sdk/errors.py:421-438 | an error info is read back with its reason, domain and metadata |
| `RpcErrors.DurationRoundTrip` | python/seam_sdk/errors.py:445-450 | a duration is read back, negative ones included |
| `RpcErrors.RetryInfoRoundTrip` | python/seam_sdk/errors.py:441-451 | a retry info is read back from its first delay, whatever fields stand around it |
| `RpcErrors.CarriedStatus` | python/seam_sdk/errors.py:399-404 | the last status-details entry, its key in any case, is the one read, and without any there is none |
| `RpcErrors.NoDetails` | python/seam_sdk/errors.py:391-418 | without a status, or with one sent as text, there are no details |
| `RpcErrors.SeamInfoAfter` | python/seam_sdk/errors.py:233-243 | the first error info that is not another domain's decides: a Seam one is the answer, an unreadable one hides any after it |
| `RpcErrors.InfoRaises` | python/seam_sdk/errors.py:421-438 | an error info is unreadable exactly when it, a metadata entry or a text of either is malformed |
| `RpcErrors.RetryAfterOf` | python/seam_sdk/errors.py:299-306 | the first retry info decides, whether it says a delay or not |
| `RpcErrors.RefusalClassified` | python/seam_sdk/errors.py:520-552 | a refusal as the server sends it, after any details of other domains, is retryable exactly for an unavailable session or a moving tenant, a wrong cell exactly when it says so, and has the MACP code sent exactly as a protocol refusal |
| `RpcErrors.RetryAfterReadBack` | python/seam_sdk/errors.py:291-306 | the caller is told the seconds and nanoseconds the server sent |
| `RpcErrors.MalformedStatusIsEmpty` | python/seam_sdk/errors.py:391-418 | the details are empty exactly when the status has none or it, a nested detail or a type URL is malformed; then there is no reason and no delay, and nothing is raised |
| `DuplicateKeys.Decoder.constructor` | go/crypto/crypto.go:301 | a decoder starts at the top of its input |
| `DuplicateKeys.Decoder.More` | go/crypto/crypto.go:311 | more is left unless the input or the bracket ends here |
| `DuplicateKeys.Decoder.Token` | go/crypto/crypto.go:304-307 | the separator-skipping loop reads the next token allowed here and moves past it, or fails |
| `DuplicateKeys.Decoder.WalkValue` | go/crypto/crypto.go:302-336 | the recursive walk with its loops over members and items refines the specification of the walk |
| `DuplicateKeys.WalkExact` | go/crypto/crypto.go:302-336 | on any value followed by anything the walk succeeds exactly when no object repeats a key, and has then consumed exactly that value |
| `DuplicateKeys.WalkSound` | go/crypto/crypto.go:302-336 | wherever the walk succeeds there stands a value that repeats no key |
| `DuplicateKeys.FreshMeans` | go/crypto/crypto.go:310-320 | the seen-set loop accepts exactly the member lists whose keys differ pairwise and whose values repeat no key |
| `DuplicateKeys.PassesExactly` | go/crypto/crypto.go:297-343 | the check passes exactly on a duplicate-free value after which no further value starts |
| `DuplicateKeys.ExactOnOneValue` | go/crypto/crypto.go:380-386 | on input that is one value the check fails exactly when some object repeats a key |
| `DuplicateKeys.StrayBracePasses` | go/crypto/crypto.go:341-342 | an object followed by a stray closing brace passes although it is not one value |
| `DuplicateKeys.CheckDuplicateKeys` | go/crypto/crypto.go:300-343 | the whole check computes what the theorems are about |
| `HttpHtu.CutsAgree` | go/mgmtdpop/mgmtdpop.go:347-355 | Python's least of several searches is Go's search for any of several characters |
| `HttpHtu.GoHostPort` | go/mgmtdpop/mgmtdpop.go:359-379 | the branch-by-branch host and port split agrees with Python's |
| `HttpHtu.GoAuthority` | go/mgmtdpop/mgmtdpop.go:383-400 | the port check and rendering agree with Python's |
| `HttpHtu.GoHtu` | go/mgmtdpop/mgmtdpop.go:338-405 | Go accepts the URLs Python accepts and gives the same htu, on every string |
| `HttpHtu.PythonSplitOk` | python/seam_sdk/dpop.py:321-361 | every accepted URL splits into a well-formed host, port and path |
| `HttpHtu.HtuSplits` | python/seam_sdk/dpop.py:321-365 | splitting an htu gives back the parts it was put together from |
| `HttpHtu.HtuOfUrl` | python/seam_sdk/dpop.py:303-365 | every URL of the grammar has the htu its parts say: https, the host in small letters, the port unless it is the default of its scheme, the path or a slash, and neither query nor fragment |
| `HttpHtu.AcceptedIsGrammatical` | python/seam_sdk/dpop.py:321-365 | whatever is accepted is a URL of the grammar |
| `HttpHtu.HtuDetermines` | python/seam_sdk/dpop.py:303-365 | two URLs share an htu exactly when host, path and written-out port agree; scheme, query, fragment and a default port do not matter |
| `HttpHtu.AppliedAgain` | python/seam_sdk/dpop.py:303-365 | the function is defined on its own output and changes nothing, exactly unless the URL was http with port 443 |
| `Base64Url.RoundTrip` | python/seam_sdk/dpop.py:79-80 | decoding an encoding gives back the bytes, at every length |
| `Base64Url.AlphabetOrder` | python/seam_sdk/dpop.py:79-80 | the letters are those of table 2 of RFC 4648, in its order |
| `Base64Url.SplitIsBigEndian` | python/seam_sdk/dpop.py:79-80 | three bytes and four letters are one number, highest bits first, and a short end is filled up with zero bits |
| `Base64Url.StrictDecodeExact` | python/seam_sdk/dpop.py:83-99 | the strict decoder accepts a text exactly when it is the encoding of a 32-byte string, and gives that string |
| `Base64Url.StrayBitsDecodeAlike` | go/mgmtdpop/mgmtdpop.go:137-140 | every key has a second text that decodes to it and is refused |
| `LazyStream.InvStep` | go/mgmtdpop/interceptor.go:227-255 | every step keeps one lock holder, one sender and one opening |
| `LazyStream.OpenedOnceForOneMessage` | go/mgmtdpop/interceptor.go:201-297 | in every interleaving the real stream is opened at most once, at most one message is sent, and it is the one the proof signed |
| `LazyStream.OnlySendOpens` | go/mgmtdpop/interceptor.go:243-252 | only a SendMsg opens the stream, with a proof over its own message |
| `LazyStream.FailureSticks` | go/mgmtdpop/interceptor.go:215-231 | once opening has failed, every later error-returning call returns that failure, nothing is opened again and nothing is sent |
| `LazyStream.KeepsFirstFailure` | go/mgmtdpop/interceptor.go:227-255 | in every run the error kept is that of the first event that failed, and the stream has started exactly when it was opened |
| `LazyStream.AnswersInPhases` | go/mgmtdpop/interceptor.go:215-297 | in every interleaving the calls answer that the stream has not started up to its opening or failure, and from then on the failure, or the real stream and no second SendMsg |
| `LazyStream.Stream.constructor` | go/mgmtdpop/interceptor.go:201-213 | a new stream agrees with the protocol's start |
| `LazyStream.Stream.Started` | go/mgmtdpop/interceptor.go:215-225 | the call answers what the protocol answers: the kept failure, then not started, then the real stream |
| `LazyStream.Stream.Send` | go/mgmtdpop/interceptor.go:227-255 | one call is a path of protocol steps from any state its fields agree with to one they agree with, with the same return and the same message sent |
| `IdentityFile.InvStep` | python/seam_sdk/identity.py:230-271 | every step keeps temporary names apart, each writer's file private, and the final path whole and owned |
| `IdentityFile.InvOverRuns` | python/seam_sdk/identity.py:230-271 | the same over every run with crashes and power cuts |
| `IdentityFile.FinalIsWhole` | python/seam_sdk/identity.py:230-271 | the final path is unchanged from before, absent, or one creator's complete body |
| `IdentityFile.TempsCleaned` | python/seam_sdk/identity.py:264-268 | unless a process is killed or the removal fails, every temporary file belongs to a creator still at work on it |
| `IdentityFile.PublishedNeverChanges` | python/seam_sdk/identity.py:251-268 | while the power stays on, what has appeared at the final path never changes and no one else publishes |
| `IdentityFile.OnePublisher` | python/seam_sdk/identity.py:251-263 | at any moment at most one creator that is not killed, failed or returned unsynced is past its link, where nothing was before, and its body is shown |
| `IdentityFile.PublishedOnce` | python/seam_sdk/identity.py:251-263 | between any two links that went through, by creators alive or not, a power cut took the first away; where the path existed there are none |
| `IdentityFile.PublisherIsShown` | python/seam_sdk/identity.py:251-268 | while the power stays on, the body of the creator whose link went through is shown, even if that creator is killed |
| `IdentityFile.ReturnedIsForever` | python/seam_sdk/identity.py:270-271 | once a creator has returned after the directory sync, its body stays even across power cuts and no other creator ever does the same |
| `IdentityFile.ReturnKeptIffSynced` | python/seam_sdk/identity.py:294-302 | from any directory, returned creators' bodies stay in every run if and only if directories are synced or the path was taken, so that none returns |
| `IdentityFile.WriteBody` | python/seam_sdk/identity.py:245-248 | whatever portions the system takes, file and remainder make up the body, and the loop stops short only when the portions do |
| `DriftNewest.JoinSplit` | scripts/check_registry_drift.py:815-817 | splitting a version at its dots loses nothing |
| `DriftNewest.PartsHaveNoDots` | scripts/check_registry_drift.py:815-817 | the parts of a version are what stands between its dots |
| `DriftNewest.SdkNames` | scripts/check_registry_drift.py:547-564 | the rows that count are those named seam-sdk, bare or under a scope |
| `DriftNewest.KeyInjective` | scripts/check_registry_drift.py:815-817 | versions without leading zeros are told apart by their numeric keys |
| `DriftNewest.TallyRows` | scripts/check_registry_drift.py:838-847 | the row loop records exactly which plain versions are served in which required format, and which values are set aside |
| `DriftNewest.NewestComplete` | scripts/check_registry_drift.py:820-851 | the answer is a largest version complete in both formats other than the excluded one, or there is none |
| `DriftNewest.InOrder` | scripts/check_registry_drift.py:893-904 | the pairwise loop accepts exactly the descending pages |
| `DriftNewest.FetchNewest` | scripts/check_registry_drift.py:854-932 | the guards answer exactly when the page has a package row, descends, and shows a candidate at or above both floors |
| `DriftNewest.CutVersionNeverChosen` | scripts/check_registry_drift.py:903-907 | the lowest version of a full page is never the answer |
| `DriftNewest.NewestOfAll` | scripts/check_registry_drift.py:854-932 | the version chosen from one page is the largest complete one of the entire listing, and without leading zeros the only one |
| `DriftVerdict.ExitCodeMeans` | scripts/check_registry_drift.py:1716-2281 | exit 1 only on an unsuppressed shortfall at or past the hard window, exit 0 only when everything was asked, answered and clear, else 2; with no GitHub or tag failure exit 1 exactly on a finding and exit 0 exactly when all is clear |
| `DriftVerdict.ReportingLeavesIssues` | scripts/check_registry_drift.py:1322-1430 | no run closes, renames or relabels an issue, and a reporting run that exits 1 leaves an open issue under the exact title of each finding |
| `DriftVerdict.ReportDriftDelivers` | scripts/check_registry_drift.py:1341-1430 | reporting finds a suppression exactly when there is one, and otherwise leaves an open issue or fails |
| `DriftVerdict.RunCalls` | scripts/check_registry_drift.py:2132-2281 | a run lists issues at most once, files only under a title no issue has, comments only on a closed and unlabelled issue, reopens only right after a comment that went through, and reads the heartbeat only after wanting the listing |
| `DriftVerdict.GraceIsSilent` | scripts/check_registry_drift.py:2112-2131 | a run that does not report, cannot date the release, or has every question in grace makes no call |
| `DriftVerdict.EveryCheckOnlySpeaks` | scripts/check_registry_drift.py:1322-1430 | over any history of runs, failures and people's changes, a check closes nothing, reopens only what it commented on in that run, and exits 1 with its findings on record |
| `DriftVerdict.RunConsiderate` | scripts/check_registry_drift.py:1322-1430 | whatever call fails, before or after its effect, a run files no second issue under a title and reopens none that is closed and labelled |
| `DriftVerdict.OneIssuePerTitle` | scripts/check_registry_drift.py:1341-1430 | no history of runs, failures and people's changes ends with a second issue under one title, unless people file it |
| `DriftVerdict.Exact` | scripts/check_registry_drift.py:1194-1204 | the issue found has exactly the title, and none is found only when none has it |
| `DriftVerdict.GitHub.Call` | scripts/check_registry_drift.py:1096-1133 | one call has its effect unless it failed before it, and says whether it succeeded |
| `DriftVerdict.GitHub.Listing` | scripts/check_registry_drift.py:2132-2144 | the listing is fetched on first use and its failure is remembered |
| `DriftVerdict.GitHub.Report` | scripts/check_registry_drift.py:1322-1430 | the reporting branches, comment before reopen: nothing is closed, a suppression is found exactly when there is one, and otherwise an issue is left open or the report fails |
| `DriftVerdict.ReportBoth` | scripts/check_registry_drift.py:2132-2281 | both questions reported on one listing, with the code and the newest verdict updated in turn |
| `DriftVerdict.CheckDrift` | scripts/check_registry_drift.py:1716-2281 | one run, over the issues before and after it: exit 1 means an unsuppressed finding left open under its registry's title, exit 0 that all is clear, else 2, and no issue is closed or reopened against a label |

## Left out

- gRPC channels, stubs, TLS and interceptor plumbing: thin wrappers over libraries; a wire call is an event with its outcome.
- SHA-256, Ed25519 and JWS: preimages stand for their digests and signatures.
- The conversion between binary doubles and decimals: a double is the digits and exponent its `repr` spells, an integer carries the double `float()` makes of it, and loading takes `float()` as a parameter that gives a double back from its shortest digits.
- The clients' verb methods, result decoding and unsigned calls: they assemble a request around the calls modelled.
- The lock that guards the table of per-agent locks: a caller's wait for its agent's lock includes it.
- Admission's own presentation and proof payload: an admission is an event that mints a ticket the server has not minted before.
- JSON object keys that are not strings, and Python subclasses of `int` and `str`: a key is a text and a number is a number.
- Escaped surrogate pairs and white space in the JSON reader: it reads the compact form the writer produces, one code unit per escape.
- Go's lexical scanner in the duplicate-key check: its input is a sequence of lexemes, a malformed one being a lexeme of its own.
- gRPC metadata keys and values that are not strings or bytes, and the mapping of every status code to its class: only the two codes with a retryable refusal are told apart.
- Rounding of `retry_after` to a binary double: the delay is an exact number of seconds.
- Loading and validating identity files, and file modes: only publication is modelled.
- The drift check's argument parsing, HTTP, git and canary queries, offline mode, message texts, upload clock and issue-list truncation: their results are the facts a run starts from.
- DriftVerdict.OneIssuePerTitle: runs follow one another and the listing is complete; two checks at once could each file.
- DriftVerdict.RunCalls: the staleness heartbeat's own reading of the schedule is one call without an effect, because it may not change the exit code.
- The policy, collective, outcome and seal decoders, the routing packages, the TypeScript and Java clients and the release scripts: small checks or repeats of logic covered here.
