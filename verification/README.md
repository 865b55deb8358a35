# CulpeoStream in Dafny

CulpeoStream carries media over sessions of framed messages. This project models the parts of its C++, TypeScript
and C# implementations in which the logic is hardest, and proves what they promise for all inputs, all runs and all
interleavings. `dafny verify dfyconfig.toml` checks everything. Lemmas carry `{:induction false}`: each proof is what its
body says, never an induction the verifier chose.

| module | models |
|---|---|
| `Text`, `Lists` | shared facts about strings and sequences |
| `Message`, `MessageErrors`, `Serializer`, `CShim`, `Decimal`, `Pcm` | the C++ header codec, its C shim, numbers and PCM parameters |
| `H2`, `H2Pipeline` | the C++ HTTP/2 envelope, send queue, data provider and reassembly buffer |
| `ContentType`, `CsContentType` | content-type matching in C++ and in C# |
| `Streams`, `AuthRefresh` | the C++ stream registry, offsets, resumption and nonce manager |
| `Session`, `SessionLaws`, `SessionSafety`, `SessionLedger`, `SessionRuns` | the C++ session as a concurrent transition system |
| `TsStreams`, `TwoParty`, `TwoPartyFlow`, `TwoPartySafety`, `TwoPartyRuns`, `TwoPartyHistory`, `TwoPartyResume`, `TwoPartyLaws` | TypeScript client and server over FIFO channels |
| `TsFrames` | the TypeScript HTTP/2 framing and its async-iterator queue |
| `Store` | the TypeScript in-memory session store |
| `ResumeWindow`, `RateLimits` | the C# resume window and the sliding-window limiters |

How to read the two protocol models. In `Session` every step is one region in which a call holds the mutex, or one
send made without it; between steps a call is parked at a program counter and calls interleave freely. In `TwoParty`
every step is one call up to its next `await`; what remains after the `await` is a continuation that may run at any
later time. Clocks, random ids, callbacks' answers and decoded JSON bodies are inputs of the steps. `SessionLaws` and
`TwoPartyLaws` say in terms of frames, counts and the clock what each single step does; the other modules are about runs.

Where code and its comments or documentation disagree, the model follows the code:

- A closed C++ session is not closed at every later instant: an init frame moves it to `initializing` for a while
  (`SessionRuns.ClosedThroughoutIff`), and in that time an earlier init can still be accepted and acknowledged
  (`SessionRuns.AckAfterClose`); `SessionRuns.ReopensExactly` says from which states. It is closed at every later moment with no call in flight.
- A C++ media frame on a duplex stream shares one offset counter with the server's own frames.
- C++ content-type matching is called order-insensitive equality; with repeated parameters it is not symmetric
  (`ContentType.RepeatedParameterOneWay`, `ContentType.SymmetricIff`).
- The minimum interval between C++ auth challenges is kept only by a clock that does not read zero
  (`AuthRefresh.ZeroClockBreaksSpacing`, `AuthRefresh.SpacingExactly`).
- A TypeScript server that is handed a frame while it awaits the sending of its init-ack closes and then becomes
  established again (`TwoPartyRuns.ReopenedAfterClose`). Media is then refused although both sides are established
  (`TwoPartyRuns.OverlapRefuses`); `TwoPartyRuns.AcceptedExactly` says exactly when.
- A TypeScript client resumes at the last offset it sent or received, so a frame lost in flight can make the server
  refuse the resumption (`TwoPartyResume.LostFrameRefusesResume`); `TwoPartyResume.ResumeAcceptedExactly` says exactly
  when it accepts.
- The TypeScript server matches against its snapshot even when the init does not ask for a resume.
- The TypeScript envelope puts the type octet before the length, unlike the C++ one.
- When a chunk holds valid frames followed by a malformed one, a waiting TypeScript consumer is rejected before it
  has received those frames; the next calls deliver them.

## Model

| member | source | states |
|---|---|---|
| `Message.ParseHeaders` | implementations/cpp/libculpeo-message/src/message.cpp:177-247 | succeeds exactly on frames of the declarative grammar, with the body and, for every reserved name, the value the grammar denotes; the missing-terminator error exactly when the frame holds none and is no longer than the block limit |
| `Message.ParseComplete` | implementations/cpp/libculpeo-message/src/message.cpp:177-247 | every frame of the grammar parses, to its own block, body and slots |
| `Message.ParseSound` | implementations/cpp/libculpeo-message/src/message.cpp:177-247 | every accepted frame is one of the grammar: token names, trimmed values, limits, no reserved name twice ignoring case |
| `Message.GrammarUnambiguous` | implementations/cpp/libculpeo-message/src/message.cpp:177-247 | a frame has at most one reading as header lines and body |
| `Message.BoundedSearch` | implementations/cpp/libculpeo-message/src/message.cpp:187-189 | the length-bounded terminator search finds the first occurrence in the whole frame, or none if that lies past the bound |
| `Message.TerminatorAfterBlock` | implementations/cpp/libculpeo-message/src/message.cpp:187-205 | the first terminator of a well-formed frame is the one after its block, whatever the body contains |
| `Message.BlockComplete` | implementations/cpp/libculpeo-message/src/message.cpp:207-244 | the line loop accepts every block of valid, non-repeating header lines within the count limit |
| `Message.BlockSound` | implementations/cpp/libculpeo-message/src/message.cpp:207-244 | and accepts nothing else |
| `Message.ParseLineExact` | implementations/cpp/libculpeo-message/src/message.cpp:218-235 | a line yields a header exactly when it is that name, a colon and that raw value, and both are valid |
| `Message.AddIff` | implementations/cpp/libculpeo-message/src/message.cpp:131-173 | a header is taken exactly when its reserved slot is still empty |
| `Message.SlotsMeaning` | implementations/cpp/libculpeo-message/src/message.cpp:131-173 | a slot holds a value if and only if a header whose name is that reserved name, ignoring case, has that trimmed value |
| `Message.ReservedExactly` | implementations/cpp/libculpeo-message/src/message.cpp:131-173 | a name gets a slot if and only if it equals that reserved name ignoring case; the ten names differ ignoring case |
| `Message.ReservedValid` | implementations/cpp/libculpeo-message/src/message.cpp:131-173 | every reserved name is itself a valid header name |
| `Message.DuplicatesExactly` | implementations/cpp/libculpeo-message/src/message.cpp:131-173 | two headers clash exactly when both equal one reserved name ignoring case |
| `Message.TokenExactly` | implementations/cpp/libculpeo-message/src/message.cpp:34-53 | a token character is a visible ASCII character other than the separators |
| `Message.TokensAll` | implementations/cpp/libculpeo-message/src/message.cpp:67-79 | the loop over a name accepts exactly token characters throughout |
| `Message.ValueExactly` | implementations/cpp/libculpeo-message/src/message.cpp:81-89 | a value is valid exactly when it holds no CR, LF or NUL |
| `Message.RunParser` | implementations/cpp/libculpeo-message/src/message.cpp:177-247 | the parsing loops compute the parse function |
| `Message.ParseLines` | implementations/cpp/libculpeo-message/src/message.cpp:207-244 | the line loop computes the block function |
| `Message.ParseErrors` | implementations/cpp/libculpeo-message/src/message.cpp:187-199 | missing terminator is reported exactly when the whole frame holds none and is no longer than the block limit |
| `MessageErrors.LineErrors` | implementations/cpp/libculpeo-message/src/message.cpp:218-235 | which error each header line gives: no colon, an invalid name, an invalid or over-long value |
| `MessageErrors.BlockErrors` | implementations/cpp/libculpeo-message/src/message.cpp:207-244 | a block fails with an error if and only if its lines up to some place are taken and the line there gives that error, repeats a reserved name or exceeds the count |
| `MessageErrors.ErrorsExactly` | implementations/cpp/libculpeo-message/src/message.cpp:177-247 | for every frame and every error, exactly when parsing reports it |
| `Serializer.SizeIsExact` | implementations/cpp/libculpeo-message/src/message.cpp:363-369 | serialized_frame_size is the length of the frame written |
| `Serializer.SerializeToBuffer` | implementations/cpp/libculpeo-message/src/message.cpp:371-415 | writes exactly the frame, touches nothing beyond it, and reports the first faulty header or a too small buffer |
| `Serializer.WriteHeaders` | implementations/cpp/libculpeo-message/src/message.cpp:395-407 | the header loop writes the rendered block or stops at the first faulty header |
| `Serializer.FaultsExactly` | implementations/cpp/libculpeo-message/src/message.cpp:395-401 | the fault reported is that of the first header with an invalid name, or with a valid name and an invalid value |
| `Serializer.RoundTripExactly` | implementations/cpp/libculpeo-message/src/message.cpp:363-415 | a serialized frame parses back to its headers and body if and only if there is at least one header, values are trimmed, reserved names are distinct and the limits hold; any body |
| `Serializer.ZeroHeadersNeverReadBack` | implementations/cpp/libculpeo-message/src/message.cpp:371-415 | a frame with no header starts with one CRLF and never reads back |
| `Serializer.ReserializeExactly` | implementations/cpp/libculpeo-message/src/c_api.cpp:154-192 | re-serializing a parsed list and parsing again gives the same list and body if and only if the normalised block is within the limit |
| `CShim.ParseForC` | implementations/cpp/libculpeo-message/src/c_api.cpp:31-124 | on an accepted buffer the count, slices and body are those of the validating pass, every offset is in bounds, and the slices denote exactly the parsed headers |
| `CShim.SecondWalk` | implementations/cpp/libculpeo-message/src/c_api.cpp:45-124 | the second walk over a validated block yields one in-bounds slice per header, equal to its name and trimmed value, and never takes its impossible exit |
| `CShim.LineSliceLocates` | implementations/cpp/libculpeo-message/src/c_api.cpp:84-118 | the offsets computed for one line locate its validated name and trimmed value |
| `CShim.SerializeForC` | implementations/cpp/libculpeo-message/src/c_api.cpp:126-192 | out-of-bounds slices and more than 128 headers are refused; a success writes the frame of the sliced headers and returns its length |
| `CShim.RoundTripForC` | implementations/cpp/libculpeo-message/src/c_api.cpp:31-192 | the slices of a parsed buffer serialize without fault, and parsing that frame denotes the same headers and body if and only if the normalised block is within the limit |
| `Decimal.ParseU32` | implementations/cpp/libculpeo-message/src/message.cpp:91-116 | accepts exactly the canonical decimals up to 2^32 - 1, with no intermediate value wrapping |
| `Decimal.ParseU16` | implementations/cpp/libculpeo-message/src/message.cpp:118-129 | accepts exactly the canonical decimals up to 2^16 - 1 |
| `Decimal.ReadExactly` | implementations/cpp/libculpeo-message/src/message.cpp:91-129 | a text reads as n if and only if it is the canonical rendering of n and n is in range |
| `Pcm.ParseParameters` | implementations/cpp/libculpeo-message/src/message.cpp:289-360 | the parameter loop computes the PCM parameters of a content type |
| `Pcm.PcmOrderInsensitive` | implementations/cpp/libculpeo-message/src/message.cpp:257-360 | two content types that differ only in the order of their parameters yield the same PCM data, or both none |
| `Pcm.PcmReadsBack` | implementations/cpp/libculpeo-message/src/message.cpp:257-360 | a content type that writes out a rate, channels and bits yields exactly those, or none where one is out of range |
| `Pcm.OtherParameter` | implementations/cpp/libculpeo-message/src/message.cpp:289-360 | a parameter of another valid name changes nothing; an invalid name or a missing value refuses the whole type |
| `Pcm.PcmUsable` | implementations/cpp/libculpeo-message/src/message.cpp:289-360 | accepted channels and bits are positive and in range, bits whole bytes, the rate in range (zero included) |
| `Pcm.UsableIncrement` | implementations/cpp/libculpeo-session/src/offset_tracker.cpp:8-31 | with accepted parameters the increment succeeds for every payload and is the payload over the stride |
| `H2.EncodeEnvelope` | implementations/cpp/libculpeo-transport-h2/src/h2_session.hpp:73-94 | throws exactly on payloads of 2^20 bytes or more, otherwise the envelope of the frame |
| `H2.RecvState.DrainFrames` | implementations/cpp/libculpeo-transport-h2/src/h2_client.cpp:40-73 | takes out of the buffer exactly the whole frames at its front and leaves the rest |
| `H2.RecvState.OnDataChunk` | implementations/cpp/libculpeo-transport-h2/src/h2_client.cpp:296-312 | appends the chunk and drains |
| `H2.LengthExactly` | implementations/cpp/libculpeo-transport-h2/src/h2_client.cpp:40-73 | by the big-endian length at the front: zero or more than 2^20 discards the buffer, too few bytes wait, otherwise that many bytes after the length are one frame |
| `H2.DrainSplit` | implementations/cpp/libculpeo-transport-h2/src/h2_client.cpp:40-73 | draining twice with more bytes in between is draining once, unless a malformed length discarded the buffer |
| `H2.ChunkingIndependentIff` | implementations/cpp/libculpeo-transport-h2/src/h2_client.cpp:40-73 | a buffer may be cut anywhere without changing the frames if and only if draining it meets no malformed length |
| `H2.DrainEnvelope` | implementations/cpp/libculpeo-transport-h2/src/h2_client.cpp:40-73 | an envelope at the front drains to its frame |
| `H2.DrainPrefix` | implementations/cpp/libculpeo-transport-h2/src/h2_client.cpp:40-73 | any prefix of an encoded frame sequence drains to a prefix of the frames |
| `H2Pipeline.ProvideConserves` | implementations/cpp/libculpeo-transport-h2/src/h2_client.cpp:135-174 | bytes emitted plus bytes pending are the bytes pending before; at most length bytes are emitted; end of file only when closed and nothing remains |
| `H2Pipeline.SendQueue.SendFrame` | implementations/cpp/libculpeo-transport-h2/src/h2_client.cpp:486-518 | enqueues the envelope at the end, or refuses an oversized payload and changes nothing |
| `H2Pipeline.SendQueue.DataRead` | implementations/cpp/libculpeo-transport-h2/src/h2_client.cpp:135-174 | emits a front piece of the pending bytes, defers or ends, and keeps the rest |
| `H2Pipeline.Delivery` | implementations/cpp/libculpeo-transport-h2/src/h2_client.cpp:135-174 | from an empty stream, over every run of sends, reads of any length and deliveries of any size: the frames received are a prefix of those sent, emitted and pending bytes are the enqueued envelopes, all frames are received once nothing is queued or in flight, and end of file is answered only when every envelope is out |
| `H2Pipeline.AllArrived` | implementations/cpp/libculpeo-transport-h2/src/h2_client.cpp:40-73 | once nothing is queued or in flight, the frames received are the frames sent |
| `ContentType.ContentTypeMatches` | implementations/cpp/libculpeo-session/src/session.cpp:209-265 | the nested search decides the matching relation |
| `ContentType.ParsesExactly` | implementations/cpp/libculpeo-session/src/session.cpp:213-237 | a text parses exactly when it has at most sixteen parameters, each with an equals sign, and yields the trimmed media type and the trimmed names and values in order |
| `ContentType.ParamsExactly` | implementations/cpp/libculpeo-session/src/session.cpp:219-237 | the parameter loop yields a list if and only if its entries are those of the segments, one each, within the room left |
| `ContentType.SameByKeys` | implementations/cpp/libculpeo-session/src/session.cpp:245-264 | two parsed types match exactly when media types agree ignoring case, counts agree, and every declared parameter key occurs among the received |
| `ContentType.SameIsPreorder` | implementations/cpp/libculpeo-session/src/session.cpp:209-265 | matching is reflexive and transitive on parsed types |
| `ContentType.OrderInsensitive` | implementations/cpp/libculpeo-session/src/session.cpp:250-264 | permuting the received parameters does not change the answer |
| `ContentType.SymmetricIff` | implementations/cpp/libculpeo-session/src/session.cpp:250-264 | a declared text that parses matches symmetrically with every received text if and only if it repeats no parameter |
| `ContentType.OneWay` | implementations/cpp/libculpeo-session/src/session.cpp:250-264 | for a text that repeats a parameter, a received text that it matches and that does not match it |
| `ContentType.RepeatedParameterOneWay` | implementations/cpp/libculpeo-session/src/session.cpp:250-264 | the smallest such case: a;x=1;x=1 matches a;x=1;y=2 and not the other way round |
| `ContentType.MatchesIsEquivalence` | implementations/cpp/libculpeo-session/src/session.cpp:209-265 | on texts matching is reflexive exactly where it parses, transitive, and symmetric from a type that repeats no parameter, whose matches repeat none either |
| `ContentType.MatchesIgnoresOrder` | implementations/cpp/libculpeo-session/src/session.cpp:209-265 | on texts reordering the parameters of either side does not change the answer |
| `ContentType.ParseText` | implementations/cpp/libculpeo-session/src/session.cpp:213-237 | every type that parsing yields is the parse of its own text |
| `CsContentType.CsMatchesIsCanonicalEquality` | implementations/csharp/src/CulpeoStream.Core/CulpeoSession.cs:814-861 | the C# comparison is equality of canonical forms |
| `CsContentType.CsMatchesExactly` | implementations/csharp/src/CulpeoStream.Core/CulpeoSession.cs:814-861 | two texts that both parse match if and only if their folded media types agree and the same (folded name, value) pairs occur among their entries; otherwise only identical texts match |
| `CsContentType.TryParseExactly` | implementations/csharp/src/CulpeoStream.Core/CulpeoSession.cs:839-861 | a text parses exactly when it has a first entry and the others are well formed; the media type is the first and the dictionary holds the pairs of the others |
| `CsContentType.CollectExactly` | implementations/csharp/src/CulpeoStream.Core/CulpeoSession.cs:845-858 | entries collect exactly when each has a non-empty name and no folded name repeats; the dictionary holds k to v if and only if some entry is k = v |
| `CsContentType.EntriesExactly` | implementations/csharp/src/CulpeoStream.Core/CulpeoSession.cs:841-843 | splitting takes the stripped text before each semicolon in turn and drops the blank ones |
| `CsContentType.EntriesReadBack` | implementations/csharp/src/CulpeoStream.Core/CulpeoSession.cs:841-843 | clean entries joined by semicolons are split into themselves |
| `CsContentType.CsMatchesIsEquivalence` | implementations/csharp/src/CulpeoStream.Core/CulpeoSession.cs:814-861 | and so an equivalence relation, on all strings |
| `CsContentType.CollectPermutes` | implementations/csharp/src/CulpeoStream.Core/CulpeoSession.cs:839-861 | permuting the parameter entries changes neither success nor the dictionary |
| `CsContentType.CsIgnoresOrder` | implementations/csharp/src/CulpeoStream.Core/CulpeoSession.cs:814-861 | for all strings: another order of the entries, and another case of the media type, change neither whether a content type parses nor what it matches |
| `Streams.ValidateDeclarations` | implementations/cpp/libculpeo-session/src/stream_registry.cpp:89-147 | accepts exactly non-empty lists within the limit with content and offset types, in which same-direction streams have distinct non-empty purposes; reports which limit failed |
| `Streams.CheckDirection` | implementations/cpp/libculpeo-session/src/stream_registry.cpp:117-144 | the per-direction loops decide whether same-direction streams have distinct non-empty purposes |
| `Streams.Advance` | implementations/cpp/libculpeo-session/src/offset_tracker.cpp:33-68 | moves only the offset, by the increment of the stream type, and fails rather than pass 2^64 - 1 |
| `Streams.OffsetCounts` | implementations/cpp/libculpeo-session/src/offset_tracker.cpp:33-68 | after any frames a byte stream has moved by their total size and a message stream by their number, and fails exactly when that passes 2^64 - 1 |
| `Streams.PcmDrift` | implementations/cpp/libculpeo-session/src/offset_tracker.cpp:8-68 | after n frames of B bytes on a time stream of stride s, 0 <= B - s*(offset - initial) <= n*(s - 1), with zero drift exactly when every payload is a multiple of s |
| `Streams.StreamRegistry.RegisterFromDeclarations` | implementations/cpp/libculpeo-session/src/stream_registry.cpp:154-187 | clears and fills the registry with the declared streams under the drawn ids; where the generator fails, the streams before that one stay registered |
| `Streams.StreamRegistry.RegisterFromPersisted` | implementations/cpp/libculpeo-session/src/stream_registry.cpp:189-194 | the registry becomes the persisted streams |
| `Streams.FreshGood` | implementations/cpp/libculpeo-session/src/stream_registry.cpp:154-187 | a fresh registration of validated declarations has distinct ids, distinct logical identities and usable PCM data |
| `Streams.StoredGood` | implementations/cpp/libculpeo-session/src/stream_registry.cpp:189-194 | storing such a list keeps all of it |
| `Streams.ExportGood` | implementations/cpp/libculpeo-session/src/stream_registry.cpp:228-235 | an export in any order of the hash map keeps it too |
| `Streams.FindDeclaration` | implementations/cpp/libculpeo-session/src/session.cpp:665-674 | the inner loop finds the first matching declaration |
| `Streams.ResumeStreams` | implementations/cpp/libculpeo-session/src/session.cpp:649-701 | the resumption loop computes the restored streams or the refusal, as ResumesExactly and ResumeKeepsStreams say them |
| `Streams.ResumesExactly` | implementations/cpp/libculpeo-session/src/session.cpp:649-701 | a resume succeeds if and only if declarations and persisted streams pair up one to one by direction, content type and purpose, each asking for no more than its stream's offset |
| `Streams.ResumePairsOneToOne` | implementations/cpp/libculpeo-session/src/session.cpp:649-701 | a successful resume pairs declarations and streams in a unique bijection, although declarations are never marked used |
| `Streams.ResumeKeepsStreams` | implementations/cpp/libculpeo-session/src/session.cpp:649-701 | restored streams keep everything but the offset, which becomes their own declaration's request and never exceeds the persisted one |
| `AuthRefresh.BytesToHex` | implementations/cpp/libculpeo-session/src/auth_refresh.cpp:12-20 | writes the lower-case encoding |
| `AuthRefresh.HexToBytes` | implementations/cpp/libculpeo-session/src/auth_refresh.cpp:22-44 | computes the decoding of exactly 64 digits, none on any other length or a non-hex digit |
| `AuthRefresh.DecodeExactly` | implementations/cpp/libculpeo-session/src/auth_refresh.cpp:22-44 | a text decodes to these bytes if and only if it is their encoding up to letter case |
| `AuthRefresh.ConstantTimeEqual` | implementations/cpp/libculpeo-session/src/crypto.hpp:79-88 | the xor/or accumulator decides equality |
| `AuthRefresh.AuthRefreshManager.Generate` | implementations/cpp/libculpeo-session/src/auth_refresh.cpp:52-84 | in clock ticks: issues and records a challenge exactly when none is outstanding, the interval has passed or none was issued, and the generator delivers; otherwise leaves the state alone |
| `AuthRefresh.IssuesExactly` | implementations/cpp/libculpeo-session/src/auth_refresh.cpp:52-84 | in clock ticks, exactly when a challenge may be issued, readings before the last issue included |
| `AuthRefresh.AuthRefreshManager.ValidateAndConsume` | implementations/cpp/libculpeo-session/src/auth_refresh.cpp:86-119 | answers as the outstanding challenge demands and consumes it in every case |
| `AuthRefresh.AuthRefreshManager.IsExpired` | implementations/cpp/libculpeo-session/src/auth_refresh.cpp:121-126 | in clock ticks: expired exactly when pending and the whole timeout has passed since the issue; a reading before the issue counts only for a zero timeout less than a second away |
| `AuthRefresh.AcceptedExactly` | implementations/cpp/libculpeo-session/src/auth_refresh.cpp:86-119 | accepted if and only if a challenge is outstanding, less than the timeout old, and the text is the encoding of its bytes up to case; reported expired exactly when outstanding and too old |
| `AuthRefresh.OneShot` | implementations/cpp/libculpeo-session/src/auth_refresh.cpp:52-132 | over every run with a positive monotone clock: no challenge accepted twice, each acceptance answers an issued challenge in time, issues at least the minimum interval apart |
| `AuthRefresh.ZeroClockBreaksSpacing` | implementations/cpp/libculpeo-session/src/auth_refresh.cpp:52-84 | with a clock that reads zero the interval rule does not hold, since zero doubles as never issued |
| `AuthRefresh.SpacingExactly` | implementations/cpp/libculpeo-session/src/auth_refresh.cpp:52-84 | every run from a clock reading keeps the minimum interval if and only if that reading is positive or the interval is zero |
| `SessionSafety.EnterKeepsClose` | implementations/cpp/libculpeo-session/src/session.cpp:416-427 | every first region of a call keeps: once closed, closed now or some call in flight is committed to closing |
| `SessionSafety.ResumeKeepsClose` | implementations/cpp/libculpeo-session/src/session.cpp:481-489 | every later region of a call keeps it too |
| `SessionSafety.EnterKeepsAck` | implementations/cpp/libculpeo-session/src/session.cpp:416-427 | every first region keeps: at most one init-ack sent or still possible |
| `SessionSafety.ResumeKeepsAck` | implementations/cpp/libculpeo-session/src/session.cpp:335-364 | every later region keeps it too |
| `SessionSafety.EnterKeepsAccept` | implementations/cpp/libculpeo-session/src/session.cpp:416-427 | every first region keeps: at most one init accepted, none while one is still being checked or before initialization |
| `SessionSafety.ResumeKeepsAccept` | implementations/cpp/libculpeo-session/src/session.cpp:481-489 | every later region keeps it too |
| `SessionLedger.StepMovesBooks` | implementations/cpp/libculpeo-session/src/session.cpp:1017-1175 | a step leaves all offsets alone, advances one stream by one frame, or installs the streams of an accepted init |
| `SessionLedger.StepKeepsBooks` | implementations/cpp/libculpeo-session/src/session.cpp:1017-1175 | every step keeps the offset ledger tiled |
| `SessionLedger.StepKeepsWire` | implementations/cpp/libculpeo-session/src/session.cpp:1150-1175 | every step keeps: a media frame sent, or parked to be sent, carries an offset booked for its stream |
| `SessionLedger.AgreementGood` | implementations/cpp/libculpeo-session/src/session.cpp:560-701 | the streams any init ends up with are fit for export and resumption |
| `SessionSafety.EveryInterleaving` | implementations/cpp/libculpeo-session/src/session.cpp:329-489 | in every interleaving: at most one init is accepted and at most one init-ack sent, only for an accepted init; a session once closed is closed now or some call in flight is committed to closing it, so it is closed at every moment without a call in flight; closed means no challenge outstanding; initializing means a call is in flight |
| `SessionSafety.NeverUninitializedAgain` | implementations/cpp/libculpeo-session/src/session.cpp:416-427 | no step returns to the uninitialized state |
| `SessionLedger.OffsetsTile` | implementations/cpp/libculpeo-session/src/session.cpp:1017-1175 | in every interleaving the offsets carried by the frames received and sent on each stream, in lock order, tile its initial to its current offset and never pass 2^64 - 1, and every media frame on the wire carries the start of a tile |
| `SessionLedger.MediaAllOrNothing` | implementations/cpp/libculpeo-session/src/session.cpp:1017-1146 | an established session that a media frame leaves established took it at exactly the current offset of its stream and changed only that stream; otherwise it is closed and no offset changed |
| `SessionLaws.MediaExactly` | implementations/cpp/libculpeo-session/src/session.cpp:1017-1146 | an established session stays established on a media frame if and only if the stream is known, input or duplex, the offset text is the canonical current offset, the content type is present and matches, a timestamp is absent or a 64-bit decimal, and the offset has room |
| `SessionLaws.SendExactly` | implementations/cpp/libculpeo-session/src/session.cpp:1150-1203 | the server sends media if and only if the stream is known, output or duplex, and the offset has room; the frame carries the current offset |
| `SessionLaws.InitExactly` | implementations/cpp/libculpeo-session/src/session.cpp:414-610 | an init on any session: a state other than uninitialized or an unsupported version fails, a configured token check comes first, and otherwise agreement decides between acceptance and failure |
| `SessionLaws.CheckedExactly` | implementations/cpp/libculpeo-session/src/session.cpp:481-500 | after the token check: nothing on a session closed meanwhile, failure if it refused or there is no agreement, acceptance otherwise |
| `SessionLaws.AgreeExactly` | implementations/cpp/libculpeo-session/src/session.cpp:560-701 | an init is agreed to if and only if its declarations are readable and it either names the stored session, no later than its window, with declarations that pair up within the offsets, or names none and its declarations are valid and ids can be drawn |
| `SessionLaws.WindowExactly` | implementations/cpp/libculpeo-session/src/session.cpp:600-607 | the buffer window is the requested decimal cut to the maximum, or the default |
| `SessionLaws.WhileEstablished` | implementations/cpp/libculpeo-session/src/session.cpp:931-1010 | what every other frame and call does to an established session |
| `SessionLaws.BeforeInit` | implementations/cpp/libculpeo-session/src/session.cpp:931-1010 | before an init every other frame leads to an init-error and closing, and calls to send do nothing |
| `SessionLaws.WhileInitializing` | implementations/cpp/libculpeo-session/src/session.cpp:931-1010 | while an init is under way media and unknown events are dropped, a close closes, another init fails |
| `SessionLaws.WhileClosed` | implementations/cpp/libculpeo-session/src/session.cpp:931-1010 | a closed session answers an unreadable event and an init with an error and does nothing else |
| `SessionLaws.ChallengeExactly` | implementations/cpp/libculpeo-session/src/session.cpp:1207-1232 | a challenge goes out if and only if none is outstanding, the interval has passed and the generator delivers |
| `SessionLaws.AnswerExactly` | implementations/cpp/libculpeo-session/src/session.cpp:803-882 | an answer that is right and in time keeps the session established, with the challenge spent, or goes to the token check; any other goes on to close |
| `SessionLaws.TokenExactly` | implementations/cpp/libculpeo-session/src/session.cpp:853-880 | a refused token closes the session unless it is closed already; an accepted one changes nothing |
| `SessionLaws.SentExactly` | implementations/cpp/libculpeo-session/src/session.cpp:414-427 | a parked frame reaches the wire once, and a failing call then closes |
| `SessionRuns.ClosedForGood` | implementations/cpp/libculpeo-session/src/session.cpp:329-333 | stated on the run alone: closed at some moment, then closed at every later moment with no call in flight |
| `SessionRuns.ClosedThroughoutIff` | implementations/cpp/libculpeo-session/src/session.cpp:416-427 | a closed session is closed at every later instant if and only if no init frame arrives |
| `SessionRuns.AckAfterClose` | implementations/cpp/libculpeo-session/src/session.cpp:416-489 | a run from the start in which an init is accepted and acknowledged after the session was closed |
| `SessionRuns.Reopens` | implementations/cpp/libculpeo-session/src/session.cpp:416-489 | from any closed session with such a parked init: the steps that establish and acknowledge it, with the call that will close it again |
| `SessionRuns.ReopensExactly` | implementations/cpp/libculpeo-session/src/session.cpp:416-489 | a closed session can be established again by some continuation if and only if some parked init would be accepted for some draw |
| `SessionRuns.RunKeepsOrigin` | implementations/cpp/libculpeo-session/src/session.cpp:335-364 | every init being checked or accepted was received in the run, and the session id and streams are those agreed on for the accepted one, moved only in offsets |
| `SessionRuns.OneOrigin` | implementations/cpp/libculpeo-session/src/session.cpp:335-364 | in every run a session that is established, acknowledged or has an id accepted exactly one init, which the run received |
| `SessionRuns.ChainKeeps` | implementations/cpp/libculpeo-session/src/session.cpp:1300-1310 | every session of a chain of exports and resumes accepted one init it received, keeps its ledger and exports resumable streams |
| `SessionRuns.ChainResumes` | implementations/cpp/libculpeo-session/src/session.cpp:649-701 | along any chain, for the init each session accepted: if it asked to resume, its declarations pair one to one with the exported streams, ids are kept, and each stream goes on from its own request, never above the exported offset; otherwise the session starts afresh under drawn ids |
| `TsStreams.OffsetTracker.Register` | implementations/typescript/packages/culpeostream/src/offsets.ts:83-90 | registers an absent stream at the given offset and never overwrites |
| `TsStreams.RegisterOnce` | implementations/typescript/packages/culpeostream/src/offsets.ts:83-90 | registering again changes nothing, and no other stream is touched |
| `TsStreams.OffsetTracker.Allocate` | implementations/typescript/packages/culpeostream/src/offsets.ts:92-107 | returns the next offset and advances it; where the increment throws only the last sent offset moves |
| `TsStreams.OffsetTracker.RecordReceived` | implementations/typescript/packages/culpeostream/src/offsets.ts:109-123 | advances exactly on the expected offset |
| `TsStreams.OffsetTracker.SeedResumeOffset` | implementations/typescript/packages/culpeostream/src/offsets.ts:125-132 | expects from the seed, and sends from no earlier; refuses an unknown stream |
| `TsStreams.SeedForward` | implementations/typescript/packages/culpeostream/src/offsets.ts:125-132 | a seed sets the expected offset and moves the next one forward only, never past both |
| `TsStreams.ResumeOffsetExactly` | implementations/typescript/packages/culpeostream/src/offsets.ts:134-137 | the resume offset is at least the last sent and the last received, and one of them or zero |
| `TsStreams.StreamRegistry.Confirm` | implementations/typescript/packages/culpeostream/src/streams.ts:261-276 | an invalid list is refused before anything changes; a valid one replaces the confirmed streams and enters each in the tracker |
| `TsStreams.StreamRegistry.TrackSend` | implementations/typescript/packages/culpeostream/src/streams.ts:165-185 | allocates on a known stream the role may send on, otherwise changes nothing |
| `TsStreams.StreamRegistry.TrackReceive` | implementations/typescript/packages/culpeostream/src/streams.ts:187-220 | accepts exactly a known stream, allowed direction, same normalized content type, aligned payload and expected offset |
| `TsStreams.ValidateStreamDeclarations` | implementations/typescript/packages/culpeostream/src/streams.ts:34-97 | the grouping loops accept exactly one to sixteen well-formed streams in which streams of one direction have distinct non-blank purposes |
| `TsStreams.CheckGroup` | implementations/typescript/packages/culpeostream/src/streams.ts:75-96 | the loop over one group decides whether its purposes are present and distinct |
| `TsStreams.FreshEntries` | implementations/typescript/packages/culpeostream/src/streams.ts:261-276 | confirming distinct ids from nothing starts every stream at its resume offset in both directions |
| `TsStreams.BuildServerConfirmedStreams` | implementations/typescript/packages/culpeostream/src/session.ts:444-508 | the splicing loop computes the confirmation, and its last check never fails |
| `TsStreams.MatchPairs` | implementations/typescript/packages/culpeostream/src/session.ts:466-498 | a successful match uses every snapshot stream once, each at its request and not past its offset |
| `TsStreams.ResumesExactly` | implementations/typescript/packages/culpeostream/src/session.ts:459-507 | for valid requests the greedy matcher succeeds if and only if a one-to-one assignment within the offsets exists |
| `TsStreams.ConfirmationGood` | implementations/typescript/packages/culpeostream/src/session.ts:444-508 | what the server acknowledges is valid, in the order asked for, with distinct ids |
| `TsStreams.InitAsksOwn` | implementations/typescript/packages/culpeostream/src/streams.ts:125-147 | from its own snapshot a client asks for each planned stream at that stream's snapshot offset, even where the text keys of different streams coincide |
| `TwoPartyFlow.FlowPush` | implementations/typescript/packages/culpeostream/src/streams.ts:165-185 | sending appends a frame at the sender's next offset to the chain in flight |
| `TwoPartyFlow.FlowSum` | implementations/typescript/packages/culpeostream/src/offsets.ts:92-123 | the sender's next offset is the base plus everything in flight |
| `TwoPartyFlow.LineTake` | implementations/typescript/packages/culpeostream/src/offsets.ts:109-123 | accepting the next frame keeps the chain |
| `TwoPartyFlow.LineLose` | implementations/typescript/packages/culpeostream/src/streams.ts:187-220 | so does refusing it, once it is booked as lost |
| `TwoPartySafety.AckJoins` | implementations/typescript/packages/culpeostream/src/session.ts:384-392 | an acknowledgement is never rejected by an initializing client, which comes out with the server's streams |
| `TwoPartySafety.StepKeeps` | implementations/typescript/packages/culpeostream/src/session.ts:125-751 | every step of either session keeps the agreement on streams and both offset chains |
| `TwoPartyRuns.EveryDirectionBalances` | implementations/typescript/packages/culpeostream/src/session.ts:125-142 | in every reachable world with both sides confirmed, sender next = receiver expected + lost + in flight, for every stream and direction |
| `TwoPartyRuns.AcceptedExactly` | implementations/typescript/packages/culpeostream/src/streams.ts:187-220 | in every run an established receiver accepts its peer's next media frame if and only if the frames of that stream it refused before cover no offsets; never is it refused for stream, direction, content type or alignment |
| `TwoPartyRuns.EstablishedNeverRefuses` | implementations/typescript/packages/culpeostream/src/session.ts:233-244 | if no frame reaches the server while it awaits the sending of its init-ack, no established session ever refuses a peer's media frame |
| `TwoPartyRuns.ReopenedAfterClose` | implementations/typescript/packages/culpeostream/src/session.ts:748-749 | media arriving in that window closes the server, the awaited call reopens it, and the frame's offsets stay lost |
| `TwoPartyRuns.OverlapRefuses` | implementations/typescript/packages/culpeostream/src/session.ts:553-558 | a concrete run from the start in which both sides are established and the server refuses the client's frame |
| `TwoPartyLaws.SendsExactly` | implementations/typescript/packages/culpeostream/src/streams.ts:165-185 | a call to send puts a media frame on the channel, at the next offset and with the confirmed content type, if and only if the side is established, the stream confirmed, its direction allows this side and the payload counts |
| `TwoPartyLaws.AcceptsExactly` | implementations/typescript/packages/culpeostream/src/streams.ts:187-220 | a media frame is recorded if and only if the stream is confirmed, its direction allows the peer, content types agree when normalized, the payload counts and the offset is the expected one |
| `TwoPartyLaws.Countable` | implementations/typescript/packages/culpeostream/src/offsets.ts:57-81 | a payload counts unless the stream is a time stream without a sample size or the payload is not whole samples |
| `TwoPartyLaws.MovedCounts` | implementations/typescript/packages/culpeostream/src/offsets.ts:57-81 | the offsets frames cover on a stream are their total bytes or their number |
| `TwoPartyLaws.MovedSamples` | implementations/typescript/packages/culpeostream/src/offsets.ts:57-81 | on a time stream they are the whole samples |
| `TwoPartyLaws.AgreedExactly` | implementations/typescript/packages/culpeostream/src/session.ts:638-729 | the server agrees to an init if and only if it is authorized, valid and of a supported version, names no session or the stored one no later than its window, and can be assigned to the stored streams if there are any |
| `TwoPartyLaws.ServerStarts` | implementations/typescript/packages/culpeostream/src/session.ts:534-757 | an uninitialized server answers an init with the acknowledgement of what it agreed to or an error, and anything else by closing |
| `TwoPartyLaws.ClientStarts` | implementations/typescript/packages/culpeostream/src/session.ts:318-392 | a client waiting for its answer is established exactly by an acknowledgement of as many valid streams as it planned |
| `TwoPartyLaws.EstablishedReceives` | implementations/typescript/packages/culpeostream/src/session.ts:352-382 | what each kind of frame does to an established session |
| `TwoPartyLaws.ServerCloses` | implementations/typescript/packages/culpeostream/src/session.ts:534-558 | a server whose challenge timed out, or that still awaits its own init, closes on whatever arrives |
| `TwoPartyHistory.SnapshotIsLargest` | implementations/typescript/packages/culpeostream/src/offsets.ts:134-137 | in every run a side's resume offset is the largest offset of any frame it sent or accepted on the stream, or of its seed, and zero if there is none |
| `TwoPartyResume.SnapshotGood` | implementations/typescript/packages/culpeostream/src/streams.ts:226-244 | in every run both sides' snapshots have distinct ids, the planned declarations in their order, and no offset the side has not reached |
| `TwoPartyResume.ResumeAcceptedExactly` | implementations/typescript/packages/culpeostream/src/session.ts:482-489 | after any run, a client resuming from its own snapshot is accepted by a server holding its own if and only if on every stream the server has sent or received at least as far as the last offset the client sent and the last it received |
| `TwoPartyResume.LostFrameRefusesResume` | implementations/typescript/packages/culpeostream/src/offsets.ts:134-137 | a run in which frames still in flight make that resume be refused |
| `TsFrames.EncodeFrame` | implementations/typescript/packages/culpeostream-http2/src/framing.ts:38-44 | fills a buffer with type, big-endian length and payload |
| `TsFrames.DecodeEncoded` | implementations/typescript/packages/culpeostream-http2/src/framing.ts:58-82 | an encoded frame decodes to itself, whatever follows |
| `TsFrames.DecodedOnly` | implementations/typescript/packages/culpeostream-http2/src/framing.ts:58-82 | only the encoding of a frame decodes to it |
| `TsFrames.FlushSplit` | implementations/typescript/packages/culpeostream-http2/src/server.ts:123-146 | flushing in two rounds is flushing once, malformed input included |
| `TsFrames.ChunkingIndependent` | implementations/typescript/packages/culpeostream-http2/src/server.ts:148-173 | the frames queued depend on the concatenated bytes alone |
| `TsFrames.QueuedExactly` | implementations/typescript/packages/culpeostream-http2/src/server.ts:123-173 | however the bytes are cut, frames and remainder are the queued ones if and only if they are the longest prefix of valid frames and what follows it |
| `TsFrames.FailsExactly` | implementations/typescript/packages/culpeostream-http2/src/server.ts:123-173 | however the bytes are cut, the stream fails if and only if what follows the queued frames begins with a length over the limit or is a whole frame of a type other than 1 and 2 |
| `TsFrames.FrameIterator.FlushBuffer` | implementations/typescript/packages/culpeostream-http2/src/server.ts:123-146 | the loop moves that prefix from the buffer to the queue and throws exactly on a refused frame |
| `TsFrames.FrameIterator.OnData` | implementations/typescript/packages/culpeostream-http2/src/server.ts:148-173 | delivered and queued frames stay those of all bytes so far; a waiting consumer gets the first queued frame or the error |
| `TsFrames.FrameIterator.OnEnd` | implementations/typescript/packages/culpeostream-http2/src/server.ts:175-189 | settles a waiting consumer as finished |
| `TsFrames.FrameIterator.OnError` | implementations/typescript/packages/culpeostream-http2/src/server.ts:191-200 | rejects a waiting consumer |
| `TsFrames.FrameIterator.Next` | implementations/typescript/packages/culpeostream-http2/src/server.ts:203-223 | delivers queued frames in order, then the error or the end, else waits; nobody waits on a non-empty queue; a second waiting call abandons the first |
| `TsFrames.FrameIterator.Return` | implementations/typescript/packages/culpeostream-http2/src/server.ts:224-233 | marks the iterator done and keeps what is queued |
| `Store.SessionStore.LeastRecent` | implementations/typescript/packages/culpeostream-server/src/store.ts:80-87 | the scan in any map order finds the head of the recency list |
| `Store.SessionStore.Save` | implementations/typescript/packages/culpeostream-server/src/store.ts:74-107 | acts on the recency list: make room by dropping its head, then append |
| `Store.SessionStore.Load` | implementations/typescript/packages/culpeostream-server/src/store.ts:109-121 | answers and moves to the end, or removes an expired entry |
| `Store.SessionStore.Delete` | implementations/typescript/packages/culpeostream-server/src/store.ts:123-125 | removes the id |
| `Store.RunFaithful` | implementations/typescript/packages/culpeostream-server/src/store.ts:62-126 | after every run the list holds each id once, at its latest saved record, in strict order of last use, and no more than max(1, maxSessions) |
| `Store.EvictsLeastRecent` | implementations/typescript/packages/culpeostream-server/src/store.ts:75-97 | the id evicted is the one whose last use, by the log of operations, is the longest ago |
| `Store.StoredExactlyAlive` | implementations/typescript/packages/culpeostream-server/src/store.ts:62-126 | an id is stored if and only if the log of operations alone says it is: saved, and since then neither deleted, found expired nor evicted as least recently used |
| `Store.LoadAnswersLatest` | implementations/typescript/packages/culpeostream-server/src/store.ts:109-121 | a load answers with the latest saved snapshot if and only if the id is alive and the load comes no later than its expiry, if it has one |
| `RateLimits.Limiter.TryAcquire` | implementations/csharp/src/CulpeoStream.Core/CulpeoSession.cs:501-516 | drops stale entries from the front, then admits below the limit |
| `RateLimits.IpLimiter.TryAcquire` | implementations/csharp/src/CulpeoStream.AspNetCore/Internal/IpRateLimiter.cs:20-58 | acts on the record of the address alone; a limit of zero or less admits and records nothing |
| `RateLimits.QueueIsNaive` | implementations/typescript/packages/culpeostream/src/session.ts:623-636 | with a monotone clock the pruned queue answers as the full history would and holds exactly the accepted times in the window |
| `RateLimits.AdmittedIsLog` | implementations/csharp/src/CulpeoStream.Core/CulpeoSession.cs:501-516 | the times the pruned queue admits are the log of the full-history limiter |
| `RateLimits.AdmitsExactly` | implementations/csharp/src/CulpeoStream.Core/CulpeoSession.cs:501-516 | a call is admitted if and only if fewer than the limit were, or the limit-th last admitted one has left the window |
| `RateLimits.PingsExactly` | implementations/typescript/packages/culpeostream/src/session.ts:623-636 | a ping is answered if and only if fewer than five were or the fifth last answered is a second old, in ticks and in milliseconds |
| `RateLimits.ConnectsExactly` | implementations/csharp/src/CulpeoStream.AspNetCore/Internal/IpRateLimiter.cs:20-58 | a connection is admitted if and only if fewer than the maximum from its address were or the maximum-th last is more than sixty seconds old |
| `RateLimits.Spaced` | implementations/csharp/src/CulpeoStream.Core/CulpeoSession.cs:501-516 | any limit + 1 calls in a row that the full-history limiter admits span more than a window |
| `RateLimits.WindowBound` | implementations/csharp/src/CulpeoStream.Core/CulpeoSession.cs:501-516 | of the calls the pruned queue admits, no window, ending at any time, holds more than the limit |
| `RateLimits.FivePingsASecond` | implementations/typescript/packages/culpeostream/src/session.ts:623-636 | no second holds more than five pings that the code answers, in ticks for C# and in milliseconds for TypeScript |
| `RateLimits.AddressesAreSeparate` | implementations/csharp/src/CulpeoStream.AspNetCore/Internal/IpRateLimiter.cs:20-29 | in such a sequence the answers to one address and its record are those of its own attempts alone |
| `RateLimits.ConnectionsAMinute` | implementations/csharp/src/CulpeoStream.AspNetCore/Internal/IpRateLimiter.cs:20-58 | over every sequence of attempts from any addresses, no sixty seconds, both ends included, hold more than the maximum of connections admitted from one address |
| `ResumeWindow.StreamState.TakeFrame` | implementations/csharp/src/CulpeoStream.Core/CulpeoSession.cs:177-190 | a frame is recorded at the current offset before the offset moves, also when the increment throws |
| `ResumeWindow.StreamState.GetEarliestAvailableOffset` | implementations/csharp/src/CulpeoStream.Core/CulpeoSession.cs:906-911 | prunes by the cutoff and returns the first remaining offset, or the current one |
| `ResumeWindow.StreamState.AdvanceOffset` | implementations/csharp/src/CulpeoStream.Core/CulpeoSession.cs:913-922 | adds the increment of the offset type or throws and changes nothing |
| `ResumeWindow.AdvancedCounts` | implementations/csharp/src/CulpeoStream.Core/CulpeoSession.cs:913-922 | over a run the offset moves by the total bytes, the number of frames, or the whole samples |
| `ResumeWindow.KeptExactly` | implementations/csharp/src/CulpeoStream.Core/CulpeoSession.cs:906-911 | with times in order, pruning keeps exactly the checkpoints at or after the cutoff |
| `ResumeWindow.CheckpointsAreLog` | implementations/csharp/src/CulpeoStream.Core/CulpeoSession.cs:901-911 | over every run with a monotone clock the checkpoints are the full frame log cut at the largest cutoff ever used |
| `ResumeWindow.RunSound` | implementations/csharp/src/CulpeoStream.Core/CulpeoSession.cs:901-922 | over every run checkpoint offsets are sorted and within 0 and the current offset |
| `ResumeWindow.SessionTable.ResumeSession` | implementations/csharp/src/CulpeoStream.Core/CulpeoSession.cs:460-499 | invalid declarations, an unknown session and one gone longer than its window are refused in that order, the last being removed; otherwise declarations are matched to distinct streams, each confirmed at max(requested, earliest), others unchanged; success renews the window and clears the disconnection, a refusal names the declaration that fails |
| `ResumeWindow.MatchStreams` | implementations/csharp/src/CulpeoStream.Core/CulpeoSession.cs:477-494 | the loop over the declarations and its refusals |
| `ResumeWindow.ValidateStreamDeclarations` | implementations/csharp/src/CulpeoStream.Core/CulpeoSession.cs:518-546 | accepts exactly one to the maximum of streams in which those of one type have distinct non-blank purposes |
| `ResumeWindow.CheckGroup` | implementations/csharp/src/CulpeoStream.Core/CulpeoSession.cs:529-545 | the loop over one group decides whether its purposes are present and distinct |
| `ResumeWindow.HintFollowed` | implementations/csharp/src/CulpeoStream.Core/CulpeoSession.cs:548-562 | a hinted stream that is eligible is the one taken |
| `ResumeWindow.FindExisting` | implementations/csharp/src/CulpeoStream.Core/CulpeoSession.cs:548-562 | finds an unmatched matching stream exactly if there is one, the first such where there is no hint |
| `ResumeWindow.ConfirmedInWindow` | implementations/csharp/src/CulpeoStream.Core/CulpeoSession.cs:485-492 | 0 <= earliest <= confirmed <= current, and the request itself where it is still available |
| `ResumeWindow.ResumeFromLog` | implementations/csharp/src/CulpeoStream.Core/CulpeoSession.cs:485-492 | after any run, the confirmed offset is the request or the oldest logged frame that no cutoff has passed |

## Left out

- JSON parsing and printing, error texts, close-code mapping: bodies arrive decoded, errors are enumerated.
- nghttp2, asio, TLS, sockets, and the bounded frame channel behind `drain_frames`: the byte stream between queue and reassembly buffer is the boundary.
- Python bindings, WASM loader, ASP.NET middleware, WebSocket adapters, reconnect backoff, source generator: they pass calls and bytes on without protocol decisions of their own.
- Random generation and memory zeroing: ids and nonces are inputs, assumed distinct where a result needs it.
- C++ codec: null-pointer checks of the C functions, the unknown-frame-type default, and `size_t` overflow of the configured block limit plus four.
- C++ session: handlers are steps on a value rather than methods on an object, because they interleave; ping-window and round-trip bookkeeping is an input; after an init that fails midway the registry may hold some streams, which the session model does not show (no session id exists then, so nothing can be exported).
- C++ resume ignores the declared offset type, the declared hint id and the stream limit; so does the model.
- Streams.Advance: payload sizes are unbounded naturals, so the 64-bit range of the payload length itself is not modelled.
- TypeScript numbers: offsets are unbounded integers, so results hold below 2^53; PCM sample sizes that are not whole bytes are excluded by the step function being integral.
- TypeScript host routines: trimming, lower-casing and `parseInt` of content types are unknown functions; results hold for any.
- TypeScript sessions: buffer-window negotiation, the id hints of an init (which the server ignores), and ping and auth messages beyond their effect on the session state.
- TwoPartyRuns.EstablishedNeverRefuses: needs frames to be handed over one at a time; `TwoPartyRuns.AcceptedExactly` has no such condition.
- ResumeWindow.SessionTable.ResumeSession: the streams of a session are values in an array rather than objects in a dictionary, and the range of `long` is not modelled.
- RateLimits.QueueIsNaive: needs a clock that never goes back, and for connections a maximum that does not change.
- Store: the logging on eviction.
