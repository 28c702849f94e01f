# Model of the live-proctoring ingest platform

This project models the protocol and state-machine kernels of the platform, a Go RTMP gateway on
every media node and a TypeScript control plane, and proves what they keep over every input, run or
reachable state. `dafny verify dfyconfig.toml` checks all of it.

- **RTMP wire stack.** `Chunks` is the chunk reader and writer, as classes over their buffers and as
  functions; `Multiplexing` proves that any interleaving reads back, `Compression` the same for
  writers that compress their headers; `ReaderSafety` covers arbitrary bytes and timestamps;
  `Negotiation` and `Renegotiation` chunk sizes announced on the way. `Amf0` is the AMF0 codec, with
  `AmfRoundTrip`, `AmfCommands`, `AmfFrugality`, `AmfCapacity`, `AmfDepth` and `AmfQuotes` about it,
  and `Upstream` the publishing client on top of both; `Draining`, with `Starvation` and
  `StatusBytes`, is about its drain. Sections 5.3 and 5.4.1 of the RTMP 1.0 specification and
  section 2 of the AMF0 specification are the references.
- **Gateway.** `StreamNames` has the query parsing and name rewriting, and `EventKeys` what it makes
  of keys and tokens. `Gateway` is one connection's handler as turns between its waits, raced by its
  upstreams' drains, told by a log of its acts. `GatewayRuns` steps through runs; `GatewayOrder`,
  `GatewayCauses`, `GatewayAccounts`, `GatewayFrames`, `GatewayEndings`, `GatewayRejections`,
  `GatewaySessions` and `OwnNames` prove what every run keeps. `ObsHandler` is the same handler as
  it runs, on its locals, and `Relaying` joins it to `Upstream`. `LiveStreams` has the session
  manager and the relay table, and `NodeSessions` puts all connections, kicks, cooldowns and
  sessions together.
- **Control channel.** `Registry` and `ControlPlane` are the control plane's end, `NodeRpc` the
  node's. `Relay` is the file sender, `Transfers` the whole relay: pulls, one shared wire, senders.
- **Schedulers and pools.** `Semaphore`, `TwinPool`, `Allocator`.
- **Refinements and codecs.** `RecordingMerge`, with `RecordingDetails`, against the delivery
  history, `SlugAliases` against the history of who owned which key, `Stun` against a receiver that
  follows RFC 5389.

Where the source changes state in place, a class does so here and each method is proved equal to a
function of the old state; the properties are lemmas about those functions over whole runs.

Where the code falls short of what one might expect, the exact condition is proved, and a run or an
input that shows it: an empty payload is never delivered; a string of 65536 bytes or more does not
survive its encoder; a message that arrives on chunk stream 64 loses its framing when it is
forwarded, because the writer keeps six bits of the id; nested arrays make the AMF decoder reserve
room quadratic in the input, and nested objects take it a quarter of the input deep, which its
promise never to panic does not allow for (`node/rtmp/amf.go:14-17`); a status error is lost or
garbled when the server has announced another chunk size in mid-stream, because the drain does not
adopt it; a second publish on one connection leaves a granted session without its end, never
unregisters the first relay and can earn a second BadName; so does, for the session, an upstream
whose chunk-size announcement is under four bytes, because the panic passes the code that ends it;
an account name spelled with a long s or a Kelvin sign passes the check for one's own name and
streams under another; a session granted under a live name is never tracked, its end is reported as
that of the live one, and the live one can no longer be kicked; a watch is answered with a dead twin
until its teardown; a failed chunk send ends as a fulfilled promise with truncated data, and a file
over 2^31 bytes can be cut; an empty node id leaves a closed connection listed; a rename that is
refused after its alias writes loses redirects; a redelivered report with no duration sets the frame
rate to zero; a query without a path in front is cut at a question mark in a value; a semaphore
constructed with a limit of zero admits nobody, which the only constructor call cannot do because
its setting is at least one (`app/shared/config.ts:51`).

The code is followed where it differs from its comments or from the standard: chunks of format 3
carry no extended timestamp on either side (`node/rtmp/chunk.go:4-5`), while section 5.3.1.3 of RTMP
1.0 asks for it; the comment on `relayFile` promises cancellation, but it is looked at only when a
read ends the loop (`node/node/relay.go:112-115`); the gate is asked before the upstream is dialled
(`node/rtmp/server.go:542-556`), while the comment in `node/main.go:275-278` puts it after.

## Model

| member | source | states |
|---|---|---|
| `Chunks.Step` | node/rtmp/chunk.go:82-193 | one chunk consumes at least one byte of any input |
| `Chunks.Read` | node/rtmp/chunk.go:81-194 | reading ends on every input, with a message or with the input used up |
| `Chunks.ChunkReader.ReadN` | node/rtmp/chunk.go:51-57 | gives exactly the next n bytes, or nothing on a short read |
| `Chunks.ChunkReader.ReadChunk` | node/rtmp/chunk.go:82-193 | one turn of the read loop is one step of the chunk machine on states and input |
| `Chunks.ChunkReader.ReadMessage` | node/rtmp/chunk.go:81-194 | returns what the chunk machine delivers first, and leaves its states and the rest of the input |
| `Chunks.ChunkWriter.FirstHeader` | node/rtmp/chunk.go:210-228 | the full header, with the extended timestamp from 0xFFFFFF on |
| `Chunks.ChunkWriter.WriteMessage` | node/rtmp/chunk.go:207-241 | appends exactly the encoding of the message in 4096-byte chunks |
| `Chunks.FullHeaderForgets` | node/rtmp/chunk.go:104-179 | behind a full header it makes no difference to a chunk, its outcome and all streams after it, what the stream held before, half a message included |
| `Multiplexing.HeaderParses` | node/rtmp/chunk.go:104-124 | every written full header is parsed back field by field, extended timestamps included |
| `Multiplexing.StepOverPiece` | node/rtmp/chunk.go:80-194 | reading one written chunk from any state in which its stream is at that position |
| `Multiplexing.ReadsInterleaving` | node/rtmp/chunk.go:80-194 | from mid-stream positions, any interleaving of whole chunks is read back |
| `Multiplexing.InterleavedMessagesReadBack` | node/rtmp/chunk.go:80-241 | any interleaving of the chunks of messages on any number of streams, read from any prior reader state, gives every message exactly once, field for field, ordered by last chunk and in writer order on each stream |
| `Multiplexing.WrittenMessagesReadBack` | node/rtmp/chunk.go:209-241 | messages written one after the other are read back exactly, at any chunk size and timestamp |
| `Multiplexing.ReadBackExceptEmpty` | node/rtmp/chunk.go:181-192 | a written message comes back if and only if its payload is not empty |
| `Compression.CompressedMessagesReadBack` | node/rtmp/chunk.go:80-194 | a writer that leaves out of each header whatever section 5.3.1.2 of RTMP 1.0 lets it (fmt 1 the stream id, fmt 2 length and type too, fmt 3 all), chunk stream ids of one, two or three bytes, chunks of all streams interleaved at will, sizes announced on the way or not: the reader returns every message as meant, field for field, on each stream exactly those written |
| `Compression.OwnHeaderIsFull` | node/rtmp/chunk.go:210-228 | the full headers of that writer are the ones the gateway writes |
| `ReaderSafety.StepSound` | node/rtmp/chunk.go:82-193 | on arbitrary bytes: every iteration consumes input, and each stream keeps its buffer below its message length |
| `ReaderSafety.DeliveredSizes` | node/rtmp/chunk.go:181-192 | every payload a reader returns from arbitrary bytes has 1 to 2^24-1 bytes, at one chunk size or while it adopts announced ones |
| `ReaderSafety.StepTimed` | node/rtmp/chunk.go:104-167 | one chunk of any stream keeps the timestamp and delta of the stream in question equal to the reference of section 5.3.1.2 of the RTMP 1.0 specification |
| `ReaderSafety.TimestampsMatchSpecification` | node/rtmp/chunk.go:104-167 | on any input, adopting chunk sizes or not: on every stream whose own continuations are all fmt 3 each message bears the reference sum modulo 2^32, and a fmt-3-opened message adds the last delta again |
| `Negotiation.AnnouncementReads` | node/rtmp/upstream.go:38-42 | the four-byte announcement is read at any chunk size of at least four |
| `Negotiation.AnnouncementIsControl` | node/rtmp/upstream.go:38-42 | an announcement is message type 1 on chunk stream 2 and message stream 0, four bytes: section 5.4.1 of RTMP 1.0 |
| `Negotiation.NegotiatedStreamReadBack` | node/rtmp/upstream.go:148-161 | a reader that adopts the announced size reads any interleaving behind the announcement exactly |
| `Negotiation.AnnouncedMessagesReadBack` | node/rtmp/upstream.go:148-161 | with announcements anywhere and any number of times, a reader that adopts them returns exactly what a writer that follows them sent, up to a malformed announcement |
| `Renegotiation.InterleavedAnnouncementsReadBack` | node/rtmp/upstream.go:148-161 | the chunks of any number of streams in any interleaving, chunk sizes announced anywhere, also between the chunks of another message: a reader that adopts them returns every message in the order of last chunks, up to a malformed announcement, and these are on each stream exactly what was written |
| `Renegotiation.InterleavingIsScheduled` | node/rtmp/chunk.go:80-241 | an interleaving at one size is the special case without announcements |
| `Negotiation.NegotiatedMessagesReadBack` | node/rtmp/server.go:261-302 | reader at 128, writer at 4096: everything written after the announcement is read back exactly |
| `Amf0.ValueAt` | node/rtmp/amf.go:71-103 | on arbitrary bytes the index stays within the input and advances or the truncation flag is set, so the recursion ends |
| `Amf0.ObjectAt` | node/rtmp/amf.go:105-125 | the same for the members of an object, which call back into values |
| `Amf0.ItemsAt` | node/rtmp/amf.go:96-99 | the same for array items, whatever count was claimed |
| `Amf0.ValuesAt` | node/rtmp/amf.go:127-136 | decoding ends at the end of the input unless it was truncated |
| `Amf0.AmfReader.ReadStr` | node/rtmp/amf.go:60-69 | reads a string, or truncates, as the decoding function says |
| `Amf0.AmfReader.ReadValue` | node/rtmp/amf.go:71-103 | decodes one value of any kind; index and truncation flag end where the function says |
| `Amf0.AmfReader.ReadItems` | node/rtmp/amf.go:96-99 | decodes array elements until the count or a truncation |
| `Amf0.AmfReader.ReadKey` | node/rtmp/amf.go:108-121 | reads a member key, the end marker, or a truncation |
| `Amf0.AmfReader.ReadObject` | node/rtmp/amf.go:105-125 | decodes object members up to the end marker, the end of input or a truncation; a later member wins |
| `Amf0.AmfDecodeAll` | node/rtmp/amf.go:127-136 | is the decoding function on every input |
| `Amf0.EncodeObject` | node/rtmp/amf.go:163-173 | the append loop gives the encoding of the ordered members |
| `AmfRoundTrip.ReadsTree` | node/rtmp/amf.go:71-173 | one encoded tree anywhere in a buffer is decoded to its meaning, and the index ends behind it |
| `AmfRoundTrip.ReadsMembers` | node/rtmp/amf.go:105-173 | encoded object members are decoded into the map, with the last of each key |
| `AmfRoundTrip.DecodeUndoesEncode` | node/rtmp/amf.go:71-173 | decoding the encodings of any list of values of every kind of section 2 that the decoder knows, nested at will (numbers, booleans of any byte, strings, objects, null, undefined, unsupported, ECMA arrays under any claimed count, strict arrays), gives exactly those values, without truncation |
| `AmfRoundTrip.WholeValuesSurvive` | node/rtmp/amf.go:127-136 | whatever stands behind them, whole values are decoded and come first |
| `AmfRoundTrip.WholeMembersSurvive` | node/rtmp/amf.go:105-125 | an object that breaks off behind any number of members keeps them all |
| `AmfRoundTrip.OversizedArrayEndsIt` | node/rtmp/amf.go:89-95 | a strict array claiming more items than the input has bytes (modulo 2^32) is null, and ends the decoding; every value in front of it stays |
| `AmfRoundTrip.StringRoundTripsExactlyWhenShort` | node/rtmp/amf.go:147-153 | a string comes back if and only if it has fewer than 65536 bytes |
| `AmfFrugality.DecodedNodesBounded` | node/rtmp/amf.go:71-136 | the tree decoded from arbitrary bytes has at most one node more than there are bytes, whatever array counts claim |
| `AmfCapacity.ReservedIsQuadratic` | node/rtmp/amf.go:89-99 | the room the decoder reserves for array items, on arbitrary bytes and at any nesting, is in all at most a fifth of the square of the input length |
| `AmfCapacity.NestedArraysReachIt` | node/rtmp/amf.go:89-99 | for every number of nested array headers there is an input that reserves exactly that much |
| `AmfDepth.DepthBounded` | node/rtmp/amf.go:71-125 | on arbitrary bytes the decoder is at most one level deeper in itself than a quarter of the input length |
| `AmfDepth.NestedObjectsReachIt` | node/rtmp/amf.go:71-125 | for every number of nested objects there is an input that takes it exactly that deep |
| `AmfCommands.ConnectOkDecodes` | node/rtmp/amf.go:178-193 | the payload decodes to exactly the intended command |
| `AmfCommands.ErrorDecodes` | node/rtmp/amf.go:196-206 | the payload decodes to exactly the intended command |
| `AmfCommands.CreateStreamResultDecodes` | node/rtmp/amf.go:208-213 | the payload decodes to exactly the intended command |
| `AmfCommands.ResultEmptyDecodes` | node/rtmp/amf.go:215-219 | the payload decodes to exactly the intended command |
| `AmfCommands.OnStatusPublishStartDecodes` | node/rtmp/amf.go:221-231 | the payload decodes to exactly the intended command |
| `AmfCommands.OnStatusErrorDecodes` | node/rtmp/amf.go:235-245 | the payload decodes to exactly the intended command |
| `AmfCommands.ConnectDecodes` | node/rtmp/amf.go:249-259 | the payload decodes to exactly the intended command |
| `AmfCommands.CreateStreamDecodes` | node/rtmp/amf.go:261-265 | the payload decodes to exactly the intended command |
| `AmfCommands.PublishDecodes` | node/rtmp/amf.go:270-276 | the payload decodes to exactly the intended command |
| `Upstream.OnStatusVerdict` | node/rtmp/upstream.go:94-108 | code and description of the first object with a non-empty code |
| `Upstream.OnStatusErrorVerdict` | node/rtmp/upstream.go:94-108 | the verdict on an error status recovers code and description for every non-empty code, and nothing for an empty one |
| `Upstream.VerdictIsFirst` | node/rtmp/upstream.go:94-108 | among any values at all, the verdict is that of the first object that bears a code |
| `Upstream.ReadUntilCommand` | node/rtmp/upstream.go:148-161 | returns the first command while adopting chunk sizes, and leaves the messages behind it |
| `Upstream.Dial` | node/rtmp/upstream.go:36-70 | writes announcement, connect and createStream, and returns the stream id of the second answer |
| `Upstream.DialLearnsStreamId` | node/rtmp/upstream.go:38-69 | through both wire layers the dialling client learns the stream id the server wrote, with zero read as one, whatever chunk sizes are announced before, between and after the answers |
| `Upstream.DialWithoutIdUsesOne` | node/rtmp/upstream.go:60-68 | an answer without a fourth value, or one that is no number, makes it stream id 1 |
| `Upstream.Publish` | node/rtmp/upstream.go:77-89 | writes the publish command and judges the first command that comes back |
| `Upstream.PublishVerdictArrives` | node/rtmp/upstream.go:77-108 | through both wire layers, with chunk sizes announced anywhere, a publish is refused exactly when the code the server wrote is neither empty nor Publish.Start, with that code and description |
| `Upstream.WriteFrame` | node/rtmp/upstream.go:110-115 | appends the encoding of the message under the upstream stream id |
| `Upstream.ForwardedReadsBackExactly` | node/rtmp/upstream.go:110-115 | what the upstream reads of a forwarded message is that message with its own stream id, on the chunk stream that the low six bits name, if and only if these are two or more |
| `Upstream.WideFrameIsLost` | node/rtmp/chunk.go:209 | a message from chunk stream 64 loses its framing when forwarded, and one byte of audio is never read |
| `Upstream.ShortAnnouncementPanics` | node/rtmp/upstream.go:148-161 | a chunk-size announcement of one to three bytes in front of the awaited answer ends the wait in a panic, dialling or publishing |
| `Upstream.Drain` | node/rtmp/upstream.go:126-142 | ends at the first fatal status, or at the end of the connection |
| `Upstream.DrainReportsStatusError` | node/rtmp/upstream.go:126-142 | a fatal status the server writes mid-stream is reported with its code and description, whatever harmless messages precede it and whatever bytes follow, if each message sent while the announced chunk size is not the one the drain keeps fits one chunk at both |
| `Draining.DrainReportsExactly` | node/rtmp/upstream.go:126-142 | a server announces another chunk size and then a status: for each length of code and description all such statuses are reported as written if and only if the sizes agree, or the status fits one chunk at both, or the server's smaller chunk ends in the three bytes that close the object and the drain's takes all of it |
| `Draining.CutEndLosesStatus` | node/rtmp/upstream.go:126-142 | from every reader state and for every text: if the drain's chunk ends within the last three bytes of the status and the server's does not, the drain only sees the connection die |
| `Draining.GrownChunkSilencesStatus` | node/rtmp/upstream.go:126-142 | from 128 to 4096 bytes, every status of 129 bytes is lost in this way |
| `Starvation.NoRunIsRead` | node/rtmp/chunk.go:82-193 | from any state and on any bytes: once fewer of a byte are left than a run needs, counting what is buffered, no message that is read holds such a run |
| `AmfQuotes.DecodedTextStandsInInput` | node/rtmp/amf.go:60-136 | each text decoded from arbitrary bytes, at the top or as a field, stands in them |
| `StatusBytes.DamagedEndReadsTheSame` | node/rtmp/amf.go:105-125 | a status whose closing three bytes are no key decodes to what it was |
| `StreamNames.ParseApp` | node/rtmp/server.go:664-679 | the map in which the last piece with a key wins, cut at the first equals sign |
| `StreamNames.SplitUndoesJoin` | node/rtmp/server.go:673 | splitting undoes joining for separator-free pieces |
| `StreamNames.QueryRoundTrip` | node/rtmp/server.go:664-679 | behind a path, every value of a printed query comes back verbatim, whatever signs it holds |
| `StreamNames.BareQueryRoundTrip` | node/rtmp/server.go:667-679 | without a path, a printed query comes back if and only if it holds no question mark |
| `StreamNames.SafeStreamName` | node/rtmp/server.go:708-719 | rune by rune, kept when in the safe alphabet and an underscore otherwise |
| `StreamNames.SafeNameFixesExactlySafeNames` | node/rtmp/server.go:703-719 | the rewriting is idempotent, and leaves a name alone exactly when it is safe |
| `StreamNames.IpStreamName` | node/rtmp/server.go:681-701 | "ip-" and the cleaned host; the result is itself a safe name |
| `StreamNames.ParsePublish` | node/rtmp/server.go:456-464 | explicit name and token, or the bare key |
| `StreamNames.TokenComesBackExactlyWhole` | node/rtmp/server.go:563-569 | the token of a rewritten name is recovered if and only if it is free of "&" |
| `StreamNames.RewrittenNameReparses` | node/rtmp/server.go:456-569 | parsing a rewritten name again gives name and token exactly when the token is free of "&" and not empty (or the name is empty too) |
| `EventKeys.KeysAreSafeExactly` | app/server/services/events.ts:129-144 | the valid event keys are exactly the names that the rewriting leaves alone and that hold no capital, dot or at sign |
| `EventKeys.ValidTokensComeBack` | app/server/services/events.ts:259-265 | a token of the allowed charset comes back whole with any name |
| `GatewayOrder.EverythingInOrder` | node/rtmp/server.go:303-611 | in every run: the gate grants an attempt only under a name that policy and cooldown passed for it; the upstream is set only after that grant and under that name; a declared spec is forwarded only right after it was judged and allowed; nothing is forwarded after a rejection |
| `GatewayOrder.StreamsUnderAskedName` | node/rtmp/server.go:466-611 | in every run the name a handler streams under is the one it asked the policy about for that attempt, which passed, and the publisher's own: explicit, or the account, or the address |
| `GatewayCauses.EveryActIsWarranted` | node/rtmp/server.go:303-611 | in every run each act was warranted by an event: verified only once the control plane allowed that very user, who was not in cooldown; granted by the gate; an upstream by a publish that succeeded; a spec forwarded by its judgement; a cooldown by a rejected spec |
| `GatewayAccounts.VerifiedExactly` | node/rtmp/server.go:353-434 | in every run a publisher is verified if and only if its first connect answered the challenge as a user whom the control plane allowed and who was not in cooldown, and then as that user; a wrong password for a known user, a user in cooldown or a request for the next step ends the handler; later connects change nothing |
| `GatewayAccounts.StreamingWasAdmitted` | node/rtmp/server.go:478-556 | in every run a handler that streams was told for that name: key known, not banned, window open, neither name nor user in cooldown, verified and under its own name where an account is required, and the gate said yes |
| `GatewayAccounts.PolicyPassesExactly` | node/rtmp/server.go:478-541 | an attempt goes on to the gate if and only if all of this holds |
| `GatewayAccounts.StageOfQuery` | node/rtmp/server.go:358-427 | for every query as a client prints it: an answer if it has a response, else a request if it has an authmod, else a fresh connect, and the user is the one named in it |
| `GatewayFrames.PassesOnWhatIsDue` | node/rtmp/server.go:304-339 | in every run the data passed on is exactly what was due: all received since a publish succeeded, in order, each declared spec once allowed and a rejected one never |
| `GatewayEndings.EndsExactly` | node/rtmp/server.go:303-611 | in every run a handler has ended if and only if a connect was dismissed, policy, gate or spec refused, the upstream could not be had or written to, a chunk size could not be read, or the connection ended; a kick or the death of an upstream by itself ends nothing |
| `GatewayEndings.RejectionsArriveExactly` | node/rtmp/server.go:258-267 | in every run the publisher hears once of a refusal by gate or spec or of a death if and only if one came while the connection was open, and once of a refusal by the policy if and only if that did |
| `GatewayEndings.CooldownPerRejectedSpec` | node/rtmp/server.go:315-325 | in every run the cooldown is armed once for each rejected spec, and never otherwise |
| `OwnNames.SafeNamesFoldExactly` | node/rtmp/server.go:703-719 | two names that are equal up to folding stay so when rewritten if and only if each rune is safe in both or in neither |
| `OwnNames.RequiredAccountIsOwnNameExactly` | node/rtmp/server.go:466-611 | in every run in which the policy required an account: the publisher was verified as somebody, and the name the handler streams under is that of the account up to case if and only if there is one and no name was given or it is safe wherever the account is and nowhere else |
| `OwnNames.LongSGetsAnotherName` | node/rtmp/server.go:520 | a run in which the account sam@x.org, spelled with a long s, is admitted and streams as _am@x.org |
| `GatewayRejections.TwoBadNamesExactly` | node/rtmp/server.go:258-267 | in every run BadName is written at most twice, and twice if and only if the policy refused an attempt and a drain reported a death, which takes two attempts |
| `GatewayRejections.TwoBadNamesArriveExactly` | node/rtmp/server.go:258-267 | in every run at most two BadNames are written while the connection is open, and two if and only if, with it open, the policy refused an attempt and a drain reported a death |
| `GatewayRejections.SecondPublishCanEarnTwoBadNames` | node/rtmp/server.go:490-600 | a run in which a policy rejection and a drain both write BadName on the open connection |
| `GatewaySessions.GrantsEndOnceExactly` | node/rtmp/server.go:270-280 | at exit each granted publish has had exactly one unpublish if and only if at most one publish of the connection succeeded and no granted attempt ended in a panic of the upstream wait; none ever has two |
| `GatewaySessions.SecondPublishLeaksSession` | node/rtmp/server.go:439-611 | a run with two successful publishes, after which one granted session was never ended |
| `GatewaySessions.OnlyLastRelayReleased` | node/rtmp/server.go:270-280 | in every run the relay registered last is unregistered, once, when the handler ends, and no other one ever is |
| `GatewaySessions.PanicLeaksSession` | node/rtmp/server.go:270-608 | a run in which the wait of the only attempt panics, dialling or publishing, and the granted session is never ended |
| `Relaying.DialUpstream` | node/rtmp/server.go:570-577 | dialling turns the handler as the bytes of the upstream demand |
| `Relaying.PublishUpstream` | node/rtmp/server.go:578-608 | publishing turns the handler as the bytes of the upstream demand |
| `Relaying.ShortAnnouncementLeaksSession` | node/rtmp/upstream.go:148-161 | an upstream that sends a chunk-size announcement of one to three bytes where an answer is awaited leaves the session of the only attempt without its end |
| `ObsHandler.ObsConnection.Leave` | node/rtmp/server.go:270-280 | the deferred cleanup: unregister and unpublish, when something is published |
| `ObsHandler.ObsConnection.WriteBadName` | node/rtmp/server.go:258-267 | writes at most once over all callers |
| `ObsHandler.ObsConnection.ReadConnect` | node/rtmp/server.go:353-434 | the authmod dance: refuse in cooldown, accept the verified, tolerate the unknown, refuse the wrong password, challenge, or demand |
| `ObsHandler.ObsConnection.ReadPublish` | node/rtmp/server.go:439-477 | parses the publish name and forms the candidate name |
| `ObsHandler.ObsConnection.Check` | node/rtmp/server.go:487-541 | the checks after the policy answer pass exactly for admitted publishers without a cooldown; names are compared with full folding |
| `ObsHandler.ObsConnection.PolicyAnswer` | node/rtmp/server.go:478-541 | unreachable closes silently, a failed check writes BadName past the once, a pass goes to the gate |
| `ObsHandler.ObsConnection.GateAnswer` | node/rtmp/server.go:542-556 | a denial is rejected and closed, a grant goes on to dial |
| `ObsHandler.ObsConnection.DialAnswer` | node/rtmp/server.go:570-577 | a failed dial ends the granted session at once; a panic does not |
| `ObsHandler.ObsConnection.PublishAnswer` | node/rtmp/server.go:578-608 | a failed publish ends the session at once, a panic does not; a success sets the upstream and its drain |
| `ObsHandler.ObsConnection.PanicInWait` | node/rtmp/server.go:270-280 | a panic of the upstream wait leaves by the deferred cleanup, which ends only what was published before |
| `ObsHandler.ObsConnection.ReadData` | node/rtmp/server.go:304-339 | metadata is held for judgement when something is published; everything else is forwarded |
| `ObsHandler.ObsConnection.SpecAnswer` | node/rtmp/server.go:315-338 | an allowed spec is forwarded; a rejected one arms the cooldown |
| `ObsHandler.ObsConnection.RefuseSpec` | node/rtmp/server.go:320-325 | the rejection is written once, and the handler leaves |
| `ObsHandler.ObsConnection.UpstreamDied` | node/rtmp/server.go:592-600 | the callback of a drain shares the once |
| `LiveStreams.Manager.Start` | node/media/session.go:80-115 | starts a session unless one of that name is active |
| `LiveStreams.Manager.End` | node/media/session.go:197-218 | removes the session and reports its end, or does nothing |
| `LiveStreams.RelayTable.KillStream` | node/rtmp/server.go:212-228 | unregisters and closes the one live connection of that name, or says there is none |
| `LiveStreams.OneEndReportPerSession` | node/media/session.go:80-218 | with distinct live names every granted session is reported ended exactly once, when its connection ends it, whatever kicks come in between |
| `LiveStreams.KillClosesItsOwn` | node/rtmp/server.go:212-228 | a kick closes the connection live under that name and no other |
| `LiveStreams.LookupFindsTheGrant` | node/media/session.go:171-195 | while names are distinct, a name finds the session and event key its connection was granted, and nothing when nobody holds it |
| `LiveStreams.TrackedExactlyWhenNameFree` | node/media/session.go:90-94 | a granted session is tracked, and so ever reported, if and only if its name was not live already |
| `LiveStreams.UntrackedEndReportsTheLive` | node/media/session.go:197-218 | when an untracked session ends it is the live one of that name that is reported ended and forgotten, while its connection still holds it; if the untracked relay had come up, a kick of the name no longer closes anything |
| `LiveStreams.TwoGrantsUnderOneName` | node/media/session.go:90-94 | a run from the start that does both |
| `NodeSessions.EverySessionReportedOnceExactly` | node/main.go:279-318 | handlers, drains, kicks and the manager together: once all handlers have ended, a granted session was reported exactly once unless its handler ended in a panic of the upstream wait, and then never; what stays tracked is exactly those |
| `NodeSessions.RejectedStaysOut` | node/rtmp/server.go:315-325 | in any run at all, second publishes and shared names included: from a spec rejection until the cooldown expires no connection comes to stream under that name or for that user that did not already, or was past its policy check |
| `NodeSessions.KickReachesItsHandler` | node/main.go:354-360 | a kick closes the handler that is serving under the name |
| `Registry.EmptyIdExactly` | app/server/services/media-node-registry.ts:53-60 | which identifiers give an empty node id |
| `Registry.IdIsCleanHost` | app/server/services/media-node-registry.ts:53-60 | whatever scheme stands before it and port or path behind, the id is the host in lower case, with a hyphen for each odd character |
| `Registry.NobodyWithoutToken` | app/server/services/media-node-ws.ts:161-209 | in every run, whichever connection is listed, registered or remembered for a node, or bears its id, has said hello as that node with a good token |
| `Registry.BadTokenChangesNothing` | app/server/services/media-node-ws.ts:163-167 | a hello without a good token leaves the whole state as it is |
| `Registry.RegistryFollowsLastHello` | app/server/services/media-node-ws.ts:104-209 | over every interleaving of open, hello, supersede, close and late disconnect: a node is listed exactly while the connection that last said hello as it is open, on that connection, registered under it; a registered node that is not listed has exactly that disconnect pending |
| `Registry.LateDisconnectHarmless` | app/server/services/media-node-registry.ts:106-117 | a late disconnect never removes a newer registration |
| `Registry.CoherentAfterCloseExactlyWhenNamed` | app/server/services/media-node-ws.ts:127-139 | no closed connection stays listed, if and only if the node id is not empty |
| `Registry.PortOnlyIdentifierStaysListed` | app/server/services/media-node-registry.ts:53-60 | a run in which a node that calls itself ":80" stays listed after its connection closed |
| `ControlPlane.PendingIsUnsettled` | app/server/services/media-node-ws.ts:99-126 | in every run each promise settles at most once, the pending set of a connection is exactly its unsettled calls, and a closed connection has none |
| `ControlPlane.FirstDecisionWins` | app/server/services/media-node-ws.ts:239-463 | the first of a response with its number on its own connection, its timer and the close of that connection decides a call, and nothing else |
| `ControlPlane.Channel.OnOpen` | app/server/services/media-node-ws.ts:104-118 | a fresh connection without a node and without calls |
| `ControlPlane.Channel.Register` | app/server/services/media-node-registry.ts:64-104 | derives the id and replaces an older registration |
| `ControlPlane.Channel.OnHello` | app/server/services/media-node-ws.ts:160-209 | accepts the first hello with a good token, lists the connection, and supersedes an older one |
| `ControlPlane.Channel.DropPending` | app/server/services/media-node-ws.ts:99-102 | rejects every pending call of the connection once |
| `ControlPlane.Channel.OnClose` | app/server/services/media-node-ws.ts:120-140 | removes the connection, rejects its calls, and defers the disconnect only if it was the listed one |
| `ControlPlane.Channel.Disconnect` | app/server/services/media-node-registry.ts:107-117 | removes the registration only if it is still of that connection |
| `ControlPlane.Channel.RpcCall` | app/server/services/media-node-ws.ts:439-463 | allocates a number and makes the call pending on the listed connection |
| `ControlPlane.Channel.OnRpcResponse` | app/server/services/media-node-ws.ts:239-248 | settles the pending call of that number on that connection, or nothing |
| `ControlPlane.Channel.OnTimeout` | app/server/services/media-node-ws.ts:442-445 | settles the call whose timer fires |
| `NodeRpc.FewCallsLeaveNumbersFree` | node/node/wsclient.go:478-479 | a number is free when fewer than 2^32 calls were made since every live one |
| `NodeRpc.ResponsesReachTheirCalls` | node/node/wsclient.go:279-287 | across reconnects and any ordering a response reaches only the call whose request it answers, and waiting calls are found exactly while unanswered |
| `NodeRpc.ResultIsFinal` | node/node/wsclient.go:500-508 | a call returns once |
| `NodeRpc.ResultHasItsCause` | node/node/wsclient.go:478-508 | in every run a call returns an answer only to its own request, a failed send only if its send failed, a timeout only on its timer, a shutdown only on shutdown |
| `NodeRpc.AnsweredOnceOnItsConnection` | node/node/wsclient.go:279-287 | a request is answered at most once and only on the connection it was sent on |
| `NodeRpc.NothingLeaks` | node/node/wsclient.go:494-496 | when all calls are done the pending table is empty |
| `NodeRpc.AnswerArrivesExactlyWhenNumbersDiffer` | node/node/wsclient.go:478-508 | with another call started meanwhile, an answer reaches its call if and only if their numbers differ modulo 2^32 |
| `NodeRpc.Client.TakeNumber` | node/node/wsclient.go:479 | the counter wraps at 2^32 |
| `NodeRpc.Client.StoreChannel` | node/node/wsclient.go:494-495 | the channel is stored under the number |
| `NodeRpc.Client.DispatchResponse` | node/node/wsclient.go:279-287 | takes the entry out and fills its channel; the receiver is the call that asked |
| `NodeRpc.Client.Release` | node/node/wsclient.go:496 | the deferred delete |
| `Relay.RelayFile` | node/node/relay.go:88-123 | the loop is the transfer function of the reads and sends |
| `Relay.SentIsBoundedPrefix` | node/node/relay.go:100-122 | whatever fails, the chunks sent are a prefix of the file in order, 1 byte to 2^18 each and at most 2^31 + 2^18 - 1 in all |
| `Relay.SentFromStart` | node/node/relay.go:88-123 | the same from the start of a transfer |
| `Relay.SuccessReachesEndOrCap` | node/node/relay.go:102-122 | a loss-free success sent everything up to the end of the file or the cap |
| `Relay.FailsExactly` | node/node/relay.go:100-122 | a transfer returns an error if and only if a read breaks below the cap with everything sent so far, and was not cancelled; a failed send, a cancellation and the cap pass for success |
| `Relay.WholeExactlyUpToCap` | node/node/relay.go:102-122 | every loss-free success is the whole file, over all ways the reads may split, if and only if the file has at most 2^31 bytes |
| `Transfers.RecordingHub.FinishPull` | app/server/services/recordings.ts:283-300 | settles once, with what was received or a failure |
| `Transfers.RecordingHub.DispatchChunk` | app/server/services/recordings.ts:213-215 | a chunk is appended to the pull it names, while that is pending |
| `Transfers.RecordingHub.DispatchEnd` | app/server/services/recordings.ts:216-222 | the end settles the pull it names, while that is pending |
| `Transfers.NextKeeps` | node/node/wsclient.go:618-704 | every step of any number of concurrent transfers keeps, for each: received + in flight + lost = read, and the bytes are the file's own while none is lost |
| `Transfers.SettledAtMostOnce` | app/server/services/recordings.ts:262-310 | in every run a promise is settled at most once, and registered exactly until then |
| `Transfers.SavedIsFileExactlyWithoutLoss` | app/server/services/recordings.ts:283-310 | in every run something is saved only for a file that could be opened, and it is that file if and only if the sender read all of it and nothing was lost |
| `Transfers.GoodRunDelivers` | app/server/services/recordings.ts:262-310 | with nothing failing, every ended transfer has settled exactly once with exactly its file, wherever the RPC responses fall among the chunks |
| `Transfers.GoodRunSettles` | app/server/services/recordings.ts:262-310 | from every state of such a run a started pull of a file up to the cap can be settled with exactly that file, in at most two steps a byte, one a frame in flight, and four |
| `Transfers.FailedSendLooksLikeSuccess` | node/node/relay.go:107-109 | a run in which a failed send ends as a fulfilled promise with truncated data |
| `Semaphore.AsyncSemaphore.Pump` | app/server/utils/semaphore.ts:40-46 | grants the longest prefix of waiters that fits the free slots |
| `Semaphore.AsyncSemaphore.SetMax` | app/server/utils/semaphore.ts:16-19 | clamps to a whole number of at least one, then pumps |
| `Semaphore.NewMaxIsWhole` | app/server/utils/semaphore.ts:16-19 | a new limit is the largest whole number that the request reaches, but at least one |
| `Semaphore.AsyncSemaphore.Enter` | app/server/utils/semaphore.ts:22-31 | takes a slot if one is free, otherwise queues last |
| `Semaphore.AsyncSemaphore.Leave` | app/server/utils/semaphore.ts:34-37 | frees the slot and pumps |
| `Semaphore.ReachableInv` | app/server/utils/semaphore.ts:16-46 | over every interleaving: active counts exactly the tasks that hold a slot, and a queue implies no free slot |
| `Semaphore.AdmissionIsFifo` | app/server/utils/semaphore.ts:22-46 | admission order is arrival order, without barging |
| `Semaphore.NoLostWakeup` | app/server/utils/semaphore.ts:34-46 | with a positive limit, once nobody holds a slot nobody waits |
| `Semaphore.NonPositiveLimitBlocks` | app/server/utils/semaphore.ts:10 | a limit of zero or less, which the constructor accepts, admits nobody |
| `Semaphore.NoGrowthOverLimit` | app/server/utils/semaphore.ts:16-46 | after a shrink active never rises until it is below the new limit |
| `TwinPool.PoolSafety` | app/server/services/cleanstream.ts:86-231 | at every reachable state: at most the cap; an un-killed transcoder is the current one of its stream, so at most one each; every other was killed and its wipe issued |
| `TwinPool.StaleTeardownHarmless` | app/server/services/cleanstream.ts:86-95 | the late teardown of a replaced twin leaves its replacement registered |
| `TwinPool.TimerTearsDown` | app/server/services/cleanstream.ts:207-215 | in every reachable state the delayed teardown of a twin leaves it killed, wiped and unregistered, and every other registration as it was |
| `TwinPool.OneSpawnUntilItSettles` | app/server/services/cleanstream.ts:131-147 | in every run, until a spawn settles, each watch of its stream shares that spawn or reuses a registered twin, whatever happens meanwhile; so all sharers are answered with its twin; once it has settled nobody shares it |
| `TwinPool.DeadTwinAnswersExactly` | app/server/services/cleanstream.ts:119-143 | in every reachable state a watch is answered with a twin whose transcoder is gone if and only if that twin waits for its delayed teardown, or none is registered and the watch shares a spawn |
| `TwinPool.DeadTwinIsReused` | app/server/services/cleanstream.ts:207-215 | a run in which a watch is answered with a dead twin |
| `TwinPool.Pool.TeardownEntry` | app/server/services/cleanstream.ts:86-106 | unregisters only the current entry; kills and wipes in any case |
| `TwinPool.Pool.Watch` | app/server/services/cleanstream.ts:119-143 | reuse, share, fall back at the cap, or start |
| `TwinPool.Pool.Reap` | app/server/services/cleanstream.ts:223-231 | tears down exactly the idle twins, in whatever order the map is walked |
| `TwinPool.ReapsExactlyIdle` | app/server/services/cleanstream.ts:223-231 | in every run a pass of the reaper keeps a registered twin if and only if its stream was asked for within the last two minutes; the others are unregistered, killed and wiped |
| `Allocator.CompareTransitive` | app/server/services/node-assignment.ts:111-116 | both comparators are transitive, the undefined difference of two unmeasured latencies included |
| `Allocator.CompareAntisymmetric` | app/server/services/node-assignment.ts:111-116 | swapping the arguments negates both comparators, so with transitivity they are total preorders |
| `Allocator.AllocateIsMinimal` | app/server/services/node-assignment.ts:94-118 | every pick is the first lexicographically minimal candidate, over quota only when no node has room |
| `Allocator.AllocateIsBest` | app/server/services/node-assignment.ts:94-118 | on the fields: while some node has room the pick has room and is a measured one of lowest latency if any is measured, among equals the one of least load for its quota; when all are full the load comes first, then the latency; the first in the list wins a tie |
| `Allocator.AssignWithinQuota` | app/server/services/node-assignment.ts:110-112 | no assignment makes a node overfull while any node has room |
| `Allocator.AssignmentsSpreadEvenly` | app/server/services/node-assignment.ts:94-118 | after any run from quotas respected: every visit is placed, and each overfull node is at most one assignment out of balance |
| `RecordingMerge.Recordings.HandleRecordingReady` | app/server/services/media-node-handlers.ts:249-300 | inserts, or merges into the row of that event and stream |
| `RecordingMerge.MergeTarget` | app/server/repositories/recordings.repository.ts:20-27 | the matching row that started last, if any matches |
| `RecordingMerge.Scan` | node/main.go:155-176 | the segments of exactly the wanted files, with distinct paths and the sum of their sizes |
| `RecordingMerge.ReportRecording` | node/main.go:146-194 | the same files, sizes and duration in each attempt, with the node id, rate and dimensions of the moment, until one is accepted or the deadline passes |
| `RecordingMerge.FirstMentionsAreFirst` | app/server/services/media-node-handlers.ts:262-265 | each path is kept once with the size reported for it first |
| `RecordingMerge.TableAgreesWithLedger` | app/server/services/media-node-handlers.ts:249-300 | whatever is delivered, in whatever order and however often: one row per event and stream, whose segments, size, duration and weighted rate are those of a ledger over the whole history |
| `RecordingDetails.RowRemembersHistory` | app/server/services/media-node-handlers.ts:249-300 | whatever is delivered, an event and stream have a row if and only if they were reported, and just one, with session, node, main file and start of the first delivery about them, the time of the last, and the dimensions last reported |
| `RecordingMerge.SegmentsAreDistinct` | app/server/services/media-node-handlers.ts:262-265 | segment lists are free of duplicates |
| `RecordingMerge.MergeWithoutNews` | app/server/services/media-node-handlers.ts:254-276 | a report without new segments leaves the row as it is but for its rate, and that exactly when no time can be weighed with it or it brings another one to a row without |
| `RecordingMerge.RedeliveryHarmless` | app/server/services/media-node-handlers.ts:254-276 | delivering the files of a report again at any later time, also with another rate or duration, changes neither segments, size nor duration of its row and no other row, and keeps the rate exactly when there is time to weigh it with |
| `RecordingMerge.MergedFpsWeighs` | app/server/services/media-node-handlers.ts:273-276 | the merged rate times the duration is the sum over contributing deliveries, in exact reals |
| `RecordingMerge.UnkeyedReportsDouble` | app/server/services/media-node-handlers.ts:250-251 | without an event every redelivery adds a row |
| `SlugAliases.Service.SetAlias` | app/server/repositories/event-slug-aliases.repository.ts:14-19 | the old key points at the event |
| `SlugAliases.Service.RemoveAlias` | app/server/repositories/event-slug-aliases.repository.ts:21-23 | the key points at nothing |
| `SlugAliases.Service.RemoveAliasesOf` | app/server/repositories/event-slug-aliases.repository.ts:25-27 | no key points at the event |
| `SlugAliases.Service.CreateEvent` | app/server/services/events.ts:162-200 | accepted exactly for a valid unused key when its other checks pass; retires an alias to that key |
| `SlugAliases.Service.UpdateEvent` | app/server/services/events.ts:202-250 | accepted exactly for a valid key that is its own or nobody's when its other checks pass; a rename writes its aliases before the window is checked |
| `SlugAliases.Service.DeleteEvent` | app/server/services/events.ts:252-257 | removes the event and its aliases |
| `SlugAliases.Service.Guide` | app/server/api/events/slug/[slug]/guide.get.ts:25-37 | the live key first, then the alias, with the key to redirect to |
| `SlugAliases.AcceptedKeepsRefinement` | app/server/services/events.ts:162-257 | every accepted call keeps the tables a refinement of the ownership history |
| `SlugAliases.KeysLeadToLastOwner` | app/server/api/events/slug/[slug]/guide.get.ts:25-37 | over any run, refused calls included, a key resolves to the event that most recently owned it while that exists, else to nothing, unless a rename failed late on somebody's alias |
| `SlugAliases.AliasesAreRetiredKeys` | app/server/repositories/event-slug-aliases.repository.ts:14-27 | the alias table is exactly the retired keys of existing events |
| `SlugAliases.KeysStayGood` | app/server/services/events.ts:134-250 | in every run, late failures included, every key, live or retired, is a valid one, and no two events have the same |
| `SlugAliases.LateFailureHarmlessExactlyWithoutAlias` | app/server/services/events.ts:218-232 | a rename refused after its alias writes leaves every key right if and only if the requested key was nobody's alias |
| `SlugAliases.LateFailureLosesRedirect` | app/server/services/events.ts:218-232 | three calls and a refused fourth that lose a redirect |
| `Stun.Builder.AppendAttr` | node/node/probe.go:108-117 | appends the attribute, pads to four bytes and patches the length |
| `Stun.Builder.AddIntegrity` | node/node/probe.go:122-127 | the MAC is taken with the length that includes it |
| `Stun.Builder.AddFingerprint` | node/node/probe.go:131-136 | the checksum is taken with the length that includes it |
| `Stun.AppendIsRead` | node/node/probe.go:107-117 | walking the result of an append gives the old attributes and the new one; the rest of the header stands |
| `Stun.LengthCorrectExactlyWhenItFits` | node/node/probe.go:115 | the header length is right if and only if it fits 16 bits |
| `Stun.WalkIsWalks` | node/node/probe.go:107-117 | the attribute walk of section 15 of RFC 5389 finds a list exactly when it stands in the message |
| `Stun.SignedIsAccepted` | node/node/probe.go:119-136 | for every MAC and checksum function a receiver of sections 15.4 and 15.5 of RFC 5389 accepts both, although the fingerprint rewrote the length |
| `Stun.XorMappedUndone` | node/node/probe.go:91-95 | un-XORing recovers every IPv4 source and port, section 15.2 of RFC 5389 |
| `Stun.To4Exactly` | node/node/probe.go:86-90 | an address yields four bytes if and only if it has four or is one mapped into sixteen, and then those |
| `Stun.ResponseIsUnderstood` | node/node/probe.go:86-106 | a checking receiver gets success, its own transaction and its own address |
| `Stun.BindingSuccess` | node/node/probe.go:86-106 | answers IPv4 sources, and mapped ones, only |
| `Stun.Answer` | node/node/probe.go:66-81 | answers exactly the binding requests of such sources, and in a way they understand |

## Left out

- Sockets, TLS, WebSocket framing, protobuf encoding, the RTMP handshake, ffmpeg, SRS and SQLite: they are FIFO channels, abstract events and finite maps here.
- Hashes, MACs, checksums, tokens and random names: function parameters, or ids assumed fresh.
- Clocks: timeouts, the end of a cooldown, the stall watchdog and the reaper's passes are events that may happen at any time; only the reaper's idle limit and the two recording times are numbers.
- AmfDepth.DepthBounded: calls under way are counted, not bytes of stack; where the Go runtime gives up is not modelled.
- GatewayRejections.TwoBadNamesArriveExactly: a write on an open connection counts as arriving.
- AMF numbers are 64-bit patterns, and the allocator's and the merge's fractions exact: floating-point rounding is not modelled.
- Names and queries are sequences of runes; invalid UTF-8 counts as one rune a byte. Simple case folding is exact on ASCII, the long s and the Kelvin sign; that of all other runes is a parameter of every run.
- Chunks.ChunkWriter.WriteMessage: errors of the underlying connection are not modelled, and the flow-control acknowledgements of the gateway are not written.
- Multiplexing.InterleavedMessagesReadBack: needs chunk stream ids 2 to 63, payloads of 1 to 2^24-1 bytes and one chunk size of at least one, which is what the writer can express.
- Compression.CompressedMessagesReadBack: chunk stream ids 2 to 65599 and payloads of 1 to 2^24-1 bytes, which is what section 5.3.1 of RTMP 1.0 can express, and announced sizes of at least one; format 3 chunks without extended timestamp, as the reader takes them.
- AmfRoundTrip.DecodeUndoesEncode: needs strings and keys of fewer than 65536 bytes, keys not empty, and no array with more items than the input has bytes (modulo 2^32); what becomes of others is in StringRoundTripsExactlyWhenShort and OversizedArrayEndsIt.
- Upstream.WideFrameIsLost: for other messages from chunk streams 64 and up whose low six bits name none, what exactly the upstream makes of the bytes is not stated.
- ReaderSafety.TimestampsMatchSpecification: assumes of the stream it speaks about that its continuation chunks are of format 3, as section 5.3.1.2 of RTMP 1.0 demands; another continuation moves the timestamp of the message in flight. Other streams are free.
- Draining.DrainReportsExactly: one announcement, then the status; chunk sizes of at least 64 bytes (section 5.4.1 of RTMP 1.0 asks for 128) and texts of up to 65536 bytes. Longer histories are covered by DrainReportsStatusError, in the direction of what is reported.
- Upstream.ReadUntilCommand: a chunk-size announcement of under four bytes is reported as a panic; the recovery in the accept loop only ends the handler. A size of zero is adopted as well; AnnouncedMessagesReadBack is about announcements of at least one.
- The extraction of a spec from metadata (`ParseMetadata`), its bandwidth and size checks, and the fallback to the grant's caps: whether metadata parses and whether it is allowed are inputs of the handler.
- Gateway.Next: the flow-control counters and replies without a decision (createStream, releaseStream and the like) are one event without effect; the hooks are assumed set.
- Gateway.OnPublish: splitting the remote address into host and port is not part of this model; its outcome is a parameter.
- NodeSessions.EverySessionReportedOnceExactly: assumes at most one publish attempt a connection and distinct live names, because without either it is false (SecondPublishLeaksSession, UntrackedEndReportsTheLive).
- The session monitor's metrics and violation reports, and the declared spec kept for recordings.
- Registry.State: of a registered node only the connection is kept, not its addresses or its count of active streams.
- ControlPlane.RpcCall: the number is unbounded; the wire's 32-bit field would refuse numbers from 2^32 on.
- Idle and hello timeouts and failed sends only close a connection, so they are closes at any time.
- NodeRpc.FewCallsLeaveNumbersFree: fewer than 2^32 calls since every live one, rather than fewer than 2^32 in flight, which would not be enough.
- Transfers.Deliver: frames are handled in the order they arrive. The handlers are not awaited (`app/server/plugins/03-ws-gateway.ts:100`); chunk and end frames keep their order because each of them crosses the same one dynamic import (`app/server/services/media-node-ws.ts:418-424`). One connection is modelled, since request ids keep different nodes apart. A failed write of the saved file and the path checks are left out.
- TwinPool.PoolSafety: the cap is a natural number; a CLEAN_MAX_CONCURRENT that is no number (`app/server/services/cleanstream.ts:29`) compares false and caps nothing.
- TwinPool.Pool.Watch: the wipe of old files at spawn time and the wait for the mount have no effect on the pool.
- Allocator.Assign: the set of nodes and their quotas are fixed during a run; stored latencies and the one-time assignment of a user are inputs.
- RecordingMerge.Deliver: rows from before segment lists were stored, and the snapshots sent to viewers, are left out.
- SlugAliases.Service.Guide: status and visibility, which may hide a found event, come after the resolution and are left out; so are group links and audit entries.
- HTTP range serving, WHEP relaying, capture, mail, configuration forms, user interface and the plain record-keeping services.
