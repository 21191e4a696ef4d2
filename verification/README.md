# Live transport: model and proofs

The repository is a transport stack for live event streams: it signs a socket URI, keeps a socket
open across failures, acknowledges and inflates frames, decodes untrusted protobuf batches under a
field budget, and hands the results to a consumer through a bounded queue. This project models the
parts of that stack whose correctness spans several functions or a whole run, and proves them with
Dafny 4.11 for every input, every interleaving and every history.

`dafny verify dfyconfig.toml` checks everything. Nothing was executed; the proofs are about the
model, and the table below says which source lines each statement is about.

## How the project is laid out

| module | what it holds |
|---|---|
| `Bytes`, `Utf8` | machine integers; UTF-8 validity by section 4 of RFC 3629, so that a Rust `String` is a byte sequence with that property |
| `Wire`, `WireReaders`, `WireWriter` | the wire format as functions on the unread suffix; the strict `Cursor`, the lenient `Reader` and the `Writer` as classes that move a position or grow a buffer |
| `Frames` | `FetchResult` and `PushFrame`, decoded and encoded |
| `Schema`, `Dynamic`, `Preflight`, `RawFields` | the tree-building decoder, the borrowed preflight walker, and the schema-free view, all charging a field budget |
| `Agreement` | exactly when a tree is clean and which issue the walker reports, in terms of the wire |
| `TreeMeaning` | what a decoded tree says: the fields that were on the wire, under their declared types |
| `Batch`, `BatchMeaning` | the legacy and the selective batch decoders, with both budgets threaded; what they make of each message |
| `Diagnostics`, `Audit` | unknown and absent fields, unknown enums and emote entries of an event; the bounded telemetry report against its history |
| `LiveRun`, `RunLoop`, `Buffered` | the connect/retry loop as a machine, the same loop as nested loops over counters, and its composition with the callback queue |
| `Connection`, `Reconnect` | one socket with its ACKs and heartbeats; the re-signing stream over many sockets |
| `Percent`, `Query` | URI sanitising, percent coding and query strings |
| `GiftStreaks`, `Compare` | gift-streak collapsing and parameter comparison against simple specifications |
| `Base64`, `TextCodec` | the plain JavaScript base64 and UTF-8 fallbacks |

Conventions. A loop that updates variables is a method whose `ensures` equates its result with a
specification function; what is promised is then proved of that function. The environment (signer,
socket, timers, cancellation, gzip, the generated envelope decoder and normalisers) is an argument
or a nondeterministic input. Costly definitions are hidden with `hide` inside proofs only to keep
them cheap.

## What turned out differently from the documentation

The model follows the code in each case. Every entry has a lemma at a concrete input and one that says,
for all inputs, when the promise holds.

- `sanitize_uri` is meant to change how a URI is written and not what it stands for. On bytes that
  holds (`Percent.SanitizeKeepsMeaning`, for every input, stray and incomplete `%` included). Through
  `percent_decode` as a string function it fails: when the decoded bytes are not UTF-8 that function
  returns its input undecoded. `Percent.SanitizedDecodesApart` gives `%FF ` (with a trailing space),
  and `Percent.SanitizedDecodesAlike` says exactly when the two agree.
- `percent_decode` slices its string by byte index, so a `%` followed three bytes later by the inside
  of a character panics (`Percent.PanicIsReached`; exactly when: `Percent.PercentDecode`). Parsing a
  query panics exactly when that happens within one key or value (`Query.ParsePanicsIff`); splitting
  can save a string that would panic whole (`Query.SplittingSaves`).
- `u8::from_str_radix` accepts a leading `+`, so `%+4` decodes to the byte 4
  (`Percent.PlusEscapeIsDecoded`); section 2.1 of RFC 3986 is followed exactly when no such triple
  occurs (`Percent.DecodesByTheBookIff`).
- `percent_encode` is documented as matching `encodeURIComponent`; it also escapes `! * ' ( )`
  (`Percent.EncodesApart`), and matches exactly on strings without them (`Percent.EncodesAlikeIff`).
- `CompletedGift::count` is documented as taken from the final message; the code reports the highest
  count of the streak (`GiftStreaks.CountIsNotFinal`), which is the final one exactly when no earlier
  message of the streak topped it (`GiftStreaks.CountIsFinalIff`).
- The preflight walker cuts field numbers to 32 bits, so a tag for field 2^32 + 1 passes as field 1
  where the tree decoder reports damage (`Agreement.WideNumberParts`). `Agreement.CleanIff` lists
  everything that parts the two.
- A damaged tree may hold one field node that its budget was not charged for
  (`Dynamic.DamageIsUnpaid`). It does exactly when the walk, with budget left, ends on a tag whose value
  cannot be read and no nested message was paid for and then kept as bytes (`Dynamic.UnpaidIff`, from
  the equation of `Dynamic.FieldsCost`). A batch without a warning holds exactly as many nodes as its
  budget was charged (`Batch.BatchNodes`).
- `ReconnectingConnection::next_message` is documented to return `None` only when the stream is
  finished. The socket is given up before the first wait of an outage, so a call whose future is
  dropped there leaves a stream that yields `None` although no error was reported
  (`Reconnect.DroppedIsSilent`). A call yields nothing exactly when an earlier one reported a terminal
  error or was dropped in an outage (`Reconnect.EveryStream`).

## Model

| member | source | states |
|---|---|---|
| Wire.VarintsAgree | crates/ttl-live-events/src/dynamic.rs:252-266 | whenever the strict varint succeeds the lenient one returns the same value and position; the lenient one alone succeeds exactly on ten-byte varints whose last byte is 2 to 127 |
| Wire.FieldsAgree | crates/ttl-sign-core/src/proto.rs:229-250 | every field the strict decoder accepts, the lenient reader reads identically, with the same number of bytes |
| Wire.StrictIffPlain | crates/ttl-live-events/src/dynamic.rs:252-285 | of the fields the lenient reader accepts under a legal number, the strict decoder accepts exactly those without an overlong varint and with a number below 2^32 |
| WireReaders.Cursor.Varint | crates/ttl-live-events/src/dynamic.rs:252-266 | shift-and-or over at most ten bytes yields the base-128 value of the unread suffix, or the exact error, and moves the position accordingly, also on failure |
| WireReaders.Cursor.Take | crates/ttl-live-events/src/dynamic.rs:267-272 | the next n bytes, or a truncation error that leaves the position alone |
| WireReaders.Cursor.Value | crates/ttl-live-events/src/dynamic.rs:273-285 | the value of a wire type at the cursor; groups and reserved types are refused |
| WireReaders.Reader.Varint | crates/ttl-sign-core/src/proto.rs:197-212 | the 64-bit shift loop yields the lenient value: the tenth byte keeps one bit, an eleventh byte is read and refused |
| WireReaders.Reader.Take | crates/ttl-sign-core/src/proto.rs:214-220 | the next n bytes, or a truncation error that leaves the position alone |
| WireReaders.Reader.ReadField | crates/ttl-sign-core/src/proto.rs:229-250 | tag and value of the next field, with the field number cut to 32 bits |
| WireReaders.Reader.NextField | crates/ttl-sign-core/src/proto.rs:222-228 | iterating yields exactly the field list of the whole message and then its end or its error; each success makes progress |
| WireWriter.VarintRoundTrip | crates/ttl-sign-core/src/proto.rs:267-277 | both readers return a written varint and its length, whatever bytes follow |
| WireWriter.FieldsRoundTrip | crates/ttl-sign-core/src/proto.rs:279-316 | reading back any written list of fields returns that list and no error |
| WireWriter.Writer.Varint | crates/ttl-sign-core/src/proto.rs:267-277 | the loop appends the base-128 encoding and nothing else |
| WireWriter.Writer.U64Field | crates/ttl-sign-core/src/proto.rs:284-290 | zero is omitted, anything else is appended as one varint field |
| WireWriter.Writer.BytesField | crates/ttl-sign-core/src/proto.rs:297-304 | an empty value is omitted, anything else is appended as one length-delimited field |
| WireWriter.Writer.MapEntry | crates/ttl-sign-core/src/proto.rs:311-316 | a map entry is a nested message of key and value under the omission rule |
| Frames.DecodeMapEntry | crates/ttl-sign-core/src/proto.rs:328-350 | last key and value before any damage; an entry that never had a key is dropped |
| Frames.DecodeFetchResult | crates/ttl-sign-core/src/proto.rs:410-436 | the fold of one update per wire field, last wins, map entries in order; the first wire error is the result |
| Frames.DecodePushFrame | crates/ttl-sign-core/src/proto.rs:488-511 | the same for the eight frame fields |
| Frames.FrameIsLast | crates/ttl-sign-core/src/proto.rs:488-511 | a decoded frame holds, under the protocol's field numbers, the last value of each and every header in order |
| Frames.FetchIsLast | crates/ttl-sign-core/src/proto.rs:410-436 | a decoded fetch result holds the last value of each number and every route parameter in order |
| Frames.EntryIsLast | crates/ttl-sign-core/src/proto.rs:328-350 | a map entry's key and value are the last texts under their numbers |
| Frames.EncodeFetchResult | crates/ttl-sign-core/src/proto.rs:443-456 | the encoded bytes are those of the message's field list |
| Frames.EncodePushFrame | crates/ttl-sign-core/src/proto.rs:516-529 | the encoded bytes are those of the frame's field list |
| Frames.FetchRoundTrip | crates/ttl-sign-core/src/proto.rs:410-456 | decoding an encoded fetch result returns it with exactly the empty-key route parameters removed |
| Frames.FrameRoundTrip | crates/ttl-sign-core/src/proto.rs:488-529 | decoding an encoded frame returns it with exactly the empty-key headers removed |
| Dynamic.DecodePackedArray | crates/ttl-live-events/src/dynamic.rs:382-419 | the packed loop charges one field per element, keeps a damaged rest as raw bytes, and reports truncation |
| Dynamic.DecodeObject | crates/ttl-live-events/src/dynamic.rs:340-456 | the recursive loop terminates on every payload and returns the fields, flags and remaining budget of the specification, whose contents the `TreeMeaning` rows give |
| TreeMeaning.TreeShows | crates/ttl-live-events/src/dynamic.rs:340-456 | a clean tree says exactly the field list of the message: same numbers, order, wire types and descriptors, every value with its declared meaning, packed arrays element by element, messages with the tree of their own bytes |
| TreeMeaning.OneTree | crates/ttl-live-events/src/dynamic.rs:340-456 | a list of fields is said by one tree only, to the last flag |
| TreeMeaning.CleanTreesEqual | crates/ttl-live-events/src/dynamic.rs:340-456 | clean decodes of the same bytes agree whatever their depths and budgets |
| TreeMeaning.NodeShows | crates/ttl-live-events/src/dynamic.rs:420-448 | clean or not, a field adds one node with its own number, wire type and descriptor, holding its meaning, the tree inside it, or, warned or at a limit, its value as it came |
| TreeMeaning.PackedNodes | crates/ttl-live-events/src/dynamic.rs:382-419 | clean or not, the nodes of a packed array are its elements in order and then the damaged rest, whole |
| TreeMeaning.UnreadEndIsKept | crates/ttl-live-events/src/dynamic.rs:365-380 | a value that cannot be read is kept, to the end of the message, as the last node |
| TreeMeaning.ScalarMeans | crates/ttl-live-events/src/dynamic.rs:287-322 | a number of the declared type has its meaning: residues in range, zigzag order, truth, the registry's enum name; any other is kept raw with a warning |
| TreeMeaning.OneMeaning | crates/ttl-live-events/src/dynamic.rs:287-322 | a wire value means one thing under a descriptor |
| Dynamic.FieldsBounds | crates/ttl-live-events/src/dynamic.rs:340-456 | for all bytes, schemas and budgets: the budget never underflows, nodes are exactly the budget consumed unless warned, then at most one more, and never more than the budget given, nesting stops at eight levels below the root, and leaf bytes never exceed the payload |
| Dynamic.EventBounds | crates/ttl-live-events/src/dynamic.rs:217-236 | the same for one event under its 4096-field allowance and 4 MiB clip |
| Dynamic.FieldsCost | crates/ttl-live-events/src/dynamic.rs:340-456 | nodes plus the budget spent on nested messages kept as bytes equal the budget consumed, plus one if the walk ends on a value it cannot read; without a warning neither occurs |
| Dynamic.UnpaidIff | crates/ttl-live-events/src/dynamic.rs:340-456 | a tree holds more nodes than were charged exactly when its walk ends unread and nothing was lost below it |
| Dynamic.DamageIsUnpaid | crates/ttl-live-events/src/dynamic.rs:365-380 | a tag without its value: one node and no charge |
| Dynamic.DecodeWebcastMessage | crates/ttl-live-events/src/dynamic.rs:217-236 | the batch budget falls by exactly what the event consumed, and an oversized payload is marked truncated |
| Preflight.ScanAgrees | crates/ttl-live-events/src/dynamic.rs:768-851 | if the tree decode is neither truncated nor warned, the walker reports no issue on the same bytes, schema and budget, and leaves exactly the same budget |
| Preflight.TopStamp | crates/ttl-live-events/src/dynamic.rs:768-851 | a clear scan's timestamp is the wire value of the first `create_time` in the first top-level `common`, and nothing else touches it |
| Preflight.NestedStamp | crates/ttl-live-events/src/dynamic.rs:768-851 | below the top level only a `common` message's own first `create_time` moves the timestamp |
| Preflight.ScanObject | crates/ttl-live-events/src/dynamic.rs:768-851 | the recursive walker terminates and returns the issue, timestamp and budget of the specification |
| Preflight.Preflight | crates/ttl-live-events/src/dynamic.rs:763-868 | charges the batch budget and renames a field limit hit with less than a full allowance |
| Preflight.EventAgreement | crates/ttl-live-events/src/dynamic.rs:763-868 | a complete, undamaged event passes preflight, costs both budgets the same, and carries the create time of its first `common` |
| Preflight.ScanIssues | crates/ttl-live-events/src/dynamic.rs:768-851 | a walk stops only for malformed wire, a field limit or a depth limit |
| Agreement.ScanUnits | crates/ttl-live-events/src/dynamic.rs:768-851 | a clear scan charges exactly the units of the message: one per field, one per packed element, nested messages included |
| Agreement.ClearIff | crates/ttl-live-events/src/dynamic.rs:768-851 | the walker reports no issue exactly when every field is met with a unit left, is readable under a legal number, holds elements that fit the budget, and nests within 100 levels |
| Agreement.EventPassesIff | crates/ttl-live-events/src/dynamic.rs:763-868 | an event passes preflight exactly when its payload can be walked in that sense within its allowance |
| Agreement.IssueIs | crates/ttl-live-events/src/dynamic.rs:768-851 | the walker reports the first obstacle in wire order: budget ended, unreadable field or illegal number, broken or oversized packed array, nesting over 100 levels |
| Agreement.CleanIff | crates/ttl-live-events/src/dynamic.rs:340-456 | of the messages that pass the walker, a tree is clean exactly when every field has a plain wire form, a value of its declared type, text that is UTF-8, and messages within depth 8 that are not met on the last unit of budget |
| Agreement.EventCleanIff | crates/ttl-live-events/src/dynamic.rs:217-236 | an event's tree is complete and undamaged exactly when its payload is at most 4 MiB, can be walked within the allowance, and is flawless: conditions on the bytes, the schema and the budget alone |
| Agreement.WideNumberParts | crates/ttl-live-events/src/dynamic.rs:768-790 | a tag that passes the walker as field 1 and is damage to the tree decoder |
| RawFields.DecodeRawFields | crates/ttl-sign-core/src/proto.rs:375-386 | all fields in order, or the first wire error |
| RawFields.NoSchemaIsRaw | crates/ttl-live-events/src/dynamic.rs:340-456 | on strictly well-formed bytes without a schema the tree is the first min(budget, n) raw fields, never warned, truncated exactly when n exceeds the budget |
| Batch.CheckBatch | crates/ttl-live-events/src/lib.rs:76-96 | accepts exactly batches of at most 16 MiB and 8192 messages, counted before any wire error |
| Batch.DecodeBatch | crates/ttl-live-events/src/lib.rs:99-116 | limits first, then the envelope error, then every message in order with both budgets threaded, each as `BatchMeaning.EventIs` and `EnvelopeIs` say |
| Batch.SelectMessage | crates/ttl-live-events/src/lib.rs:158-239 | one selectively decoded message is the projection of the legacy one, although it skips the schema budget when no schema is wanted |
| Batch.DecodeBatchWithMode | crates/ttl-live-events/src/lib.rs:158-239 | for every payload and mode the result is the legacy batch projected: same errors, order, ids, timestamps, events, statuses, trees and payloads |
| Batch.DecodeMessage | crates/ttl-live-events/src/lib.rs:313-347 | the method computes the envelope that `BatchMeaning.EnvelopeIs` characterises, and what each budget has left |
| BatchMeaning.EnvelopeIs | crates/ttl-live-events/src/lib.rs:313-347 | one message: its own identity and clipped payload; the normaliser decides exactly when the payload fits and can be walked, its three answers giving three statuses; otherwise the status is the obstacle and the event the payload; the create time of the first `common`; the exact cost to each budget; the tree of the clipped payload |
| BatchMeaning.EventIs | crates/ttl-live-events/src/lib.rs:99-116 | event i is message i, decoded with the budgets the messages before it left |
| BatchMeaning.BatchUnits | crates/ttl-live-events/src/lib.rs:99-116 | passing messages cost the wire budget exactly their units |
| BatchMeaning.ProjectionIs | crates/ttl-live-events/src/lib.rs:158-239 | each mode gives the representations it asked for and no other |
| Batch.BatchNodes | crates/ttl-live-events/src/lib.rs:99-116 | all trees of a batch together hold at most what the schema budget was charged plus one node per event with a warning, and exactly what was charged when no event warned |
| Diagnostics.Visit | crates/ttl-live-events/src/diagnostics.rs:222-253 | pushing and popping the path, the recursive visit appends exactly the unknown fields and enums of a walk over the tree |
| Diagnostics.WalkIffNode | crates/ttl-live-events/src/diagnostics.rs:222-253 | the walk meets a node under a path exactly when that path of field numbers leads to it |
| Diagnostics.UnknownFieldsAre | crates/ttl-live-events/src/diagnostics.rs:222-253 | a path and wire type is reported exactly when some node there has no descriptor |
| Diagnostics.UnknownEnumsAre | crates/ttl-live-events/src/diagnostics.rs:222-253 | an enum number is reported exactly when some node at that path holds it without a name |
| Diagnostics.ReportsFitBudget | crates/ttl-live-events/src/diagnostics.rs:222-261 | neither list is longer than the event's field allowance |
| Diagnostics.AbsentAre | crates/ttl-live-events/src/diagnostics.rs:262-280 | a watched name is reported absent exactly when no top-level field is declared under it, whatever the case of its letters |
| Diagnostics.WireEmoteEntries | crates/ttl-live-events/src/diagnostics.rs:192-217 | the loop counts the target's length-delimited fields among the first 4096, and calls the count complete exactly when those were all, undamaged, of a payload that was not cut |
| Audit.AuditReport.Observe | crates/ttl-live-events/src/diagnostics.rs:81-187 | after every batch of decoded events the whole report is exact for the whole history of events |
| Audit.Inspect | crates/ttl-live-events/src/diagnostics.rs:192-293 | what is read off one decoded event: unknown fields and enums, absent fields, emotes, status and flags |
| Audit.SeenIs | crates/ttl-live-events/src/diagnostics.rs:219-293 | unknown are exactly the nodes without a descriptor or name, absent exactly the watched names a complete tree lacks; flags and status are the event's |
| Audit.Record | crates/ttl-live-events/src/diagnostics.rs:84-186 | one event keeps the table of methods exact for the history |
| Audit.ObserveEvent | crates/ttl-live-events/src/diagnostics.rs:94-186 | one method's counters stay exact: plain counters, statuses, absences, and each bounded table counting an event at most once per key |
| Audit.ObserveAbsent | crates/ttl-live-events/src/diagnostics.rs:159-161 | each absent name is counted once per report |
| Audit.NoteKeeps | crates/ttl-live-events/src/diagnostics.rs:152-158 | a bounded table keeps at most its cap of keys, each with its exact number of events, everything else untracked, whatever order keys arrive in |
| Audit.TrackedKeeps | crates/ttl-live-events/src/diagnostics.rs:84-94 | a tracked event keeps events equal to the per-method sum plus the untracked |
| Audit.UntrackedKeeps | crates/ttl-live-events/src/diagnostics.rs:86-91 | an event goes untracked only for a name over 256 bytes or a full table, and never makes a tracked method inexact |
| Audit.AuditReport.Facts | crates/ttl-live-events/src/diagnostics.rs:81-187 | in every valid report `events` is the per-method sum plus untracked, statuses sum to each method's events, and the tables hold at most 256 methods, 1024 fields, 1024 enums and 128 actions |
| LiveRun.EveryRun | crates/ttl-live-core/src/lib.rs:57-164 | in every run: failures equals the retries since the last connection and never exceeds the budget; `Connecting` at most once; a retryable error is followed next by `Reconnecting`, a final one other than a decode error by `Error`; a finished run said `Disconnected` once, last |
| LiveRun.EveryRunReports | crates/ttl-live-core/src/lib.rs:71-163 | every run reports exactly the inputs it took, in order: for each message its ACK time if any, its decode time, then that batch or a decode error; for each failure its fault |
| LiveRun.EveryRunFlags | crates/ttl-live-core/src/lib.rs:133-161 | an error is flagged retryable exactly when its fault allows a retry and the budget is not used up; each opened socket is announced once |
| LiveRun.Recovers | crates/ttl-live-core/src/lib.rs:71-163 | whenever an attempt is lost with budget left, a willing environment brings the run back to streaming, with the announcements in order |
| LiveRun.StepKeeps | crates/ttl-live-core/src/lib.rs:71-163 | every step of the loop, on every input it can receive, keeps the invariant behind that |
| RunLoop.Loop.Drive | crates/ttl-live-core/src/lib.rs:57-164 | the nested loops over `failures` and `reconnecting` follow the machine move by move on the environment's answers in order, terminate with them, report exactly the inputs taken, and end with `Disconnected` exactly when they return |
| RunLoop.Loop.Stream | crates/ttl-live-core/src/lib.rs:103-131 | the inner message loop: where it ends, on which answers, and what it has sent |
| RunLoop.Loop.Connect | crates/ttl-live-core/src/lib.rs:73-102 | one attempt under cancellation: where it ends and what it has sent |
| RunLoop.Loop.Begin | crates/ttl-live-core/src/lib.rs:74-85 | the stop check and the announcement |
| RunLoop.Loop.Sign | crates/ttl-live-core/src/lib.rs:86-94 | signing: cancelled, failed for good, or signed |
| RunLoop.Loop.Open | crates/ttl-live-core/src/lib.rs:95-102 | opening: cancelled, refused, failed, or connected with the budget reset |
| RunLoop.Loop.Refused | crates/ttl-live-core/src/lib.rs:133-152 | which failed openings are final and which are left to the retry budget |
| RunLoop.Loop.Retry | crates/ttl-live-core/src/lib.rs:154-161 | the retry budget and the back-off |
| Buffered.EveryInterleaving | crates/ttl-live-core/src/buffered.rs:26-45 | in every interleaving the byte counter is exactly queued plus in callback plus reserved, stays within 0 and 8 MiB; the queue stays within 32; delivered is a prefix of accepted, accepted of what the loop said |
| Buffered.NothingAfterOverload | crates/ttl-live-core/src/buffered.rs:26-45 | once overloaded, always overloaded, and nothing more is ever accepted |
| Buffered.DisconnectedOnce | crates/ttl-live-core/src/buffered.rs:92-126 | every completed run delivers exactly one `Disconnected`, last, overloaded or not, whichever notice overflowed |
| Buffered.ReportsArrive | crates/ttl-live-core/src/buffered.rs:26-126 | what the sink is told is, in order, a first part of what the loop's inputs have to be reported as, the batches also after an overload; a completed run without overload has told it all |
| Buffered.ChargeIs | crates/ttl-live-core/src/buffered.rs:47-63 | the charge of a queue is what its batches retain, 512 for each announcement and 128 for anything else |
| Buffered.RetainedIsBounded | crates/ttl-live-core/src/buffered.rs:26-45 | the batches queued and in a callback never retain more than 8 MiB |
| Buffered.DrainProgresses | crates/ttl-live-core/src/buffered.rs:92-109 | once the producer is gone the worker can always move and every move brings it closer to its end |
| Buffered.OverloadStops | crates/ttl-live-core/src/buffered.rs:26-109 | queue saturation stops the transport: in every interleaving after an overload the loop takes at most three more inputs, the system makes at most 113 more moves, and until the worker has finished one of them is always open |
| Buffered.StopEnds | crates/ttl-live-core/src/buffered.rs:110-126 | a stop signal ends the run, whoever gave it and wherever both threads stood: in every interleaving at most three more inputs and 147 more moves, one of them open until the worker has finished |
| Buffered.WindsDown | crates/ttl-live-core/src/buffered.rs:26-126 | once told to stop, every move but another stop signal lowers a measure that charges each pending notice for its sending and its delivery |
| Buffered.StopProgresses | crates/ttl-live-core/src/buffered.rs:26-109 | after an overload every move but the caller's stop signal brings the system closer to its end |
| Buffered.NeverStuck | crates/ttl-live-core/src/buffered.rs:92-126 | once a stop has come or is coming there is always a move to make until the worker has finished |
| Buffered.ActKeeps | crates/ttl-live-core/src/buffered.rs:26-109 | every atomic step of either thread keeps the accounting, the order and the loop's own invariant |
| Connection.BatchAckMetadata | crates/ttl-live-ws/src/lib.rs:467-491 | the scan's last extension and ACK flag, or a decode error for a wrong type, bad text or bad wire |
| Connection.MetadataIsFetched | crates/ttl-live-ws/src/lib.rs:467-491 | whenever the scan succeeds, the full decoder succeeds and agrees on both values |
| Connection.LiveConnection.HandleFrame | crates/ttl-live-ws/src/lib.rs:364-405 | the whole new state of the connection and what is returned, on every frame and every write outcome, as `Connection.EverythingDelivered` and `TurnIs` characterise them |
| Connection.LiveConnection.AcceptPayload | crates/ttl-live-ws/src/lib.rs:384-404 | metadata, acknowledgement and delivery of one inflated payload: new state and result |
| Connection.AckFlagIsTrue | crates/ttl-live-ws/src/lib.rs:384-404 | whenever a message is handed over, the flag says exactly whether its batch asked for, and got, an acknowledgement, and the stored extension is that batch's |
| Connection.LiveConnection.SendHeartbeat | crates/ttl-live-ws/src/lib.rs:407-414 | the frame attempted and the saturating sequence number, also when the write fails |
| Connection.LiveConnection.NextMessage | crates/ttl-live-ws/src/lib.rs:327-362 | the loop stops at exactly the first input that yields something to return, with the ACK flag true to the message |
| Connection.EveryFrameSequence | crates/ttl-live-ws/src/lib.rs:327-414 | over every input sequence: a delivered message asks for an ACK exactly when one was written just before it with its log id and its own batch's extension; no other ACK succeeds; heartbeats carry 1, 2, 3, ... saturating |
| Connection.EverythingDelivered | crates/ttl-live-ws/src/lib.rs:327-414 | the deliveries are, in order, the log ids and inflated payloads of exactly the `msg` frames received whose metadata can be read and whose ACK, where asked for, was written; every ACK, failed ones included, is field by field that of the frame that called for it; one heartbeat per tick |
| Connection.TurnIs | crates/ttl-live-ws/src/lib.rs:327-414 | which inputs return a message, go round again, end the stream, report a closed socket or a decoding error |
| Connection.ReadableIff | crates/ttl-live-ws/src/lib.rs:467-491 | the metadata scan succeeds exactly when the wire is readable, every number 9 is a varint and every number 5 is text |
| Connection.SentFramesSurvive | crates/ttl-sign-core/src/proto.rs:558-606 | ACK and heartbeat frames decode on the other side to what was meant |
| Reconnect.BackoffIsCappedDoubling | crates/ttl-live-ws/src/reconnect.rs:62-71 | the delay is min(initial * 2^min(n-1, 16), max), as if the checked multiplication could not overflow |
| Reconnect.BackoffNeverShrinks | crates/ttl-live-ws/src/reconnect.rs:62-71 | a later attempt never waits less |
| Reconnect.OutageFacts | crates/ttl-live-ws/src/reconnect.rs:199-249 | one outage makes at most max_attempts signings, each right after its own capped doubling wait; opens only what it has just signed; ends at once on a refusal or signer failure; gives up only after every attempt, reporting the last failure; is open afterwards exactly on success |
| Reconnect.OutageHeeds | crates/ttl-live-ws/src/reconnect.rs:199-249 | the signing outcomes and openings logged are the environment's answers in order, and an outage succeeds exactly when the last of them is a socket that opened |
| Reconnect.NextIs | crates/ttl-live-ws/src/reconnect.rs:166-196 | every call recovers from the lost sockets at the front of its inputs, each by one outage with its own cause, until a message, a failed outage or nothing more to read; the whole new state |
| Reconnect.CallGives | crates/ttl-live-ws/src/reconnect.rs:166-196 | a message exactly when the inputs begin with losses recovered from and then a message; an error exactly when the first outage that fails ends in it; one message logged per message given; one reconnect per recovery |
| Reconnect.FirstConnectionIs | crates/ttl-live-ws/src/reconnect.rs:126-145 | the first connection: one signing, one opening of what was signed, and the error that ended it |
| Reconnect.EveryStream | crates/ttl-live-ws/src/reconnect.rs:166-279 | in every stream, with calls dropped anywhere, each socket open uses the URI of its own signing call, and a call yields nothing exactly when an earlier one reported a terminal error or was dropped in an outage |
| Reconnect.DroppedIsSilent | crates/ttl-live-ws/src/reconnect.rs:163-200 | a call dropped in the first wait of an outage makes the next yield nothing with no error reported |
| Reconnect.CutKeeps | crates/ttl-live-ws/src/reconnect.rs:199-249 | a call dropped in an outage closes the stream and opens nothing it has not just signed |
| Reconnect.CutIsPrefix | crates/ttl-live-ws/src/reconnect.rs:199-249 | a dropped outage has done a first part of what the whole one would have done |
| Reconnect.ReconnectingConnection.Reconnect | crates/ttl-live-ws/src/reconnect.rs:199-249 | the retry loop's new state and result are those of the specification, the last failure included |
| Reconnect.ReconnectingConnection.NextMessage | crates/ttl-live-ws/src/reconnect.rs:166-196 | the outer loop's new state and answer are those that `Reconnect.NextIs` and `CallGives` characterise |
| Reconnect.ReconnectingConnection.Connect | crates/ttl-live-ws/src/reconnect.rs:260-279 | one signing call, then an open of exactly the URI it returned |
| Percent.SanitizeUri | crates/ttl-sign-core/src/uri.rs:46-62 | the loop over characters escapes exactly the bytes that are not safe, and returns an all-safe URI unchanged |
| Percent.SanitizedIsSafe | crates/ttl-sign-core/src/uri.rs:14-62 | every character of the output is safe |
| Percent.UriSafeIs | crates/ttl-sign-core/src/uri.rs:14-40 | what stays is exactly the unreserved and the reserved characters of RFC 3986 and the percent sign |
| Percent.HexDigitIs | crates/ttl-sign-core/src/uri.rs:56-57 | escapes are written with upper-case digits |
| Percent.SanitizeIdempotent | crates/ttl-sign-core/src/uri.rs:42-62 | sanitising again changes nothing |
| Percent.SanitizeKeepsMeaning | crates/ttl-sign-core/src/uri.rs:46-62 | the output percent-decodes to the same bytes as the input, for every input |
| Percent.SanitizedDecodesAlike | crates/ttl-sign-core/src/params.rs:183-208 | decoding the output as a string never panics, and equals decoding the input exactly when that does not panic and the input was all safe or its decoded bytes are UTF-8 |
| Percent.SanitizedDecodesApart | crates/ttl-sign-core/src/params.rs:183-208 | a URI for which the two string results differ |
| Percent.PercentDecode | crates/ttl-sign-core/src/params.rs:183-208 | the loop returns the decoded bytes if they are UTF-8 and else the input, and panics exactly when some `%` is followed three bytes later by the inside of a character |
| Percent.PanicIsReached | crates/ttl-sign-core/src/params.rs:183-208 | a string on which decoding panics |
| Percent.DecodesByTheBookIff | crates/ttl-sign-core/src/params.rs:190-196 | decoding follows section 2.1 of RFC 3986 exactly when no percent sign is followed by a plus and a digit |
| Percent.PlusEscapeIsDecoded | crates/ttl-sign-core/src/params.rs:190-196 | `%+4` decodes to one byte |
| Percent.PercentEncode | crates/ttl-sign-core/src/params.rs:166-177 | the loop escapes exactly the bytes that are not unreserved |
| Percent.EncodesAlikeIff | crates/ttl-sign-core/src/params.rs:164-177 | the output is that of `encodeURIComponent` exactly when the input holds none of five marks |
| Percent.EncodesApart | crates/ttl-sign-core/src/params.rs:164-177 | an input on which the two differ |
| Percent.DecodeInvertsEncode | crates/ttl-sign-core/src/params.rs:166-208 | `percent_decode` inverts `percent_encode` on every string |
| Query.SetThenGet | crates/ttl-sign-core/src/params.rs:67-91 | setting a key changes what that key gives, no other key, and no position |
| Query.Query.Set | crates/ttl-sign-core/src/params.rs:67-76 | overwrites the first pair with that key in place, or appends |
| Query.Query.PushRaw | crates/ttl-sign-core/src/params.rs:79-82 | appends, duplicates included |
| Query.Query.Encode | crates/ttl-sign-core/src/params.rs:103-114 | the loop joins the encoded pairs with ampersands |
| Query.Query.ParseEncoded | crates/ttl-sign-core/src/params.rs:151-161 | trims question marks, splits, skips empty pieces and decodes both halves; a panic in any piece is a panic of the whole |
| Query.QueryRoundTrip | crates/ttl-sign-core/src/params.rs:103-161 | parsing an encoded query gives the query back: order, duplicate keys, empty keys and values |
| Query.PieceIs | crates/ttl-sign-core/src/params.rs:153-158 | a piece is split at its first equals sign; without one it is a key with an empty value |
| Query.PiecesAre | crates/ttl-sign-core/src/params.rs:151-161 | pieces are parsed one after the other, an empty one adding nothing |
| Query.QuestionMarksAre | crates/ttl-sign-core/src/params.rs:153-153 | question marks in front are nothing |
| Query.ParsePanicsIff | crates/ttl-sign-core/src/params.rs:151-161 | parsing panics exactly when some percent sign cuts a character of its own key or value; never on ASCII |
| Query.SplittingSaves | crates/ttl-sign-core/src/params.rs:151-161 | a string that panics decoded whole and parses |
| GiftStreaks.EveryHistory | crates/ttl-sign-core/src/gift_streak.rs:57-115 | after every history the open streaks are exactly the unfinished ones, each with the largest repeat count, at least one, since the key's last completion or drain |
| GiftStreaks.EveryCompletion | crates/ttl-sign-core/src/gift_streak.rs:57-91 | a streakable gift completes exactly at `repeat_end`, with that largest count; a non-streakable one completes at once and disturbs nothing |
| GiftStreaks.CountIsFinalIff | crates/ttl-sign-core/src/gift_streak.rs:26-91 | the reported count is the final message's exactly when no earlier message of the streak topped it |
| GiftStreaks.CountIsNotFinal | crates/ttl-sign-core/src/gift_streak.rs:26-91 | five gifts and then a final message of three report five |
| GiftStreaks.KeysIndependent | crates/ttl-sign-core/src/gift_streak.rs:57-91 | a key's streak depends only on its own messages and the drains |
| GiftStreaks.OneListing | crates/ttl-sign-core/src/gift_streak.rs:102-115 | whatever order the map drains in, there is one possible listing |
| GiftStreaks.DrainIsUnfinished | crates/ttl-sign-core/src/gift_streak.rs:102-115 | the drain lists exactly the unfinished streaks of the history |
| GiftStreaks.GiftStreaks.Observe | crates/ttl-sign-core/src/gift_streak.rs:57-91 | the new map and the report |
| GiftStreaks.OpenStreaksAre | crates/ttl-sign-core/src/gift_streak.rs:94-96 | after every history the count is that of the unfinished keys |
| GiftStreaks.GiftStreaks.TakeOpen | crates/ttl-sign-core/src/gift_streak.rs:102-115 | empties the map and returns every streak once, in strictly increasing key order |
| Compare.CompareParameters | crates/ttl-sign-lab/src/lib.rs:488-538 | the loops append, in order, the per-name count excesses with their multiplicities in map order, the order entry and the k-th value differences, and append nothing exactly when the two lists are the same sequence |
| Compare.Counts | crates/ttl-sign-lab/src/lib.rs:540-546 | the exact count of every name, and no zero entries |
| Compare.NoDifferenceIffSame | crates/ttl-sign-lab/src/lib.rs:488-538 | name counts, name order and k-th values per name leave no difference exactly when the lists are identical |
| Compare.MissingMinusUnexpected | crates/ttl-sign-lab/src/lib.rs:493-504 | per name, missing minus unexpected entries is the difference of the counts, and one of the two is zero |
| Compare.CompareValues | crates/ttl-sign-lab/src/lib.rs:515-537 | the occurrence-counting loop reports exactly the k-th values per name that differ |
| Compare.ValuesReported | crates/ttl-sign-lab/src/lib.rs:515-537 | a value difference is reported exactly for each parameter that differs from the one of the same name seen as often before, with the oracle's value first |
| Base64.EncodeBase64 | crates/ttl-sign-embedded/bootstrap.js:246-261 | the loop emits four characters per group of three bytes, padded at the end |
| Base64.DecodeBase64 | crates/ttl-sign-embedded/bootstrap.js:264-275 | the loop ignores foreign characters and rebuilds 24 bits per four letters |
| Base64.RoundTrip | crates/ttl-sign-embedded/bootstrap.js:246-275 | decoding an encoded string gives the low byte of every unit, so every byte string comes back |
| Base64.EncodedShape | crates/ttl-sign-embedded/bootstrap.js:246-261 | the length and padding of section 4 of RFC 4648 |
| Base64.LetterIs | crates/ttl-sign-embedded/bootstrap.js:243-243 | the letters are the alphabet of section 4 of RFC 4648 |
| Base64.ComesBackIffCanonical | crates/ttl-sign-embedded/bootstrap.js:246-275 | encoding what a string decodes to gives the string back exactly when it is canonical: whole groups, padding only in the last, unused bits zero |
| TextCodec.EncodeText | crates/ttl-sign-embedded/bootstrap.js:91-107 | the loop over code points emits their one to four bytes |
| TextCodec.DecodeText | crates/ttl-sign-embedded/bootstrap.js:114-129 | the loop's result on any bytes, truncated and malformed ones included, and when it throws |
| TextCodec.RoundTrip | crates/ttl-sign-embedded/bootstrap.js:88-130 | the decoder inverts the encoder on every UTF-16 sequence, lone surrogates included |
| TextCodec.EncodedIsUtf8 | crates/ttl-sign-embedded/bootstrap.js:88-107 | the encoder's output is UTF-8 exactly when no surrogate stands alone |
| TextCodec.Utf8RoundTrip | crates/ttl-sign-embedded/bootstrap.js:111-130 | the decoder accepts every UTF-8 string of section 4 of RFC 3629, gives text without a lone surrogate, and encoding that text gives the same bytes |

## Left out

- Signing, the JavaScript engines, the browser shim, sockets, TLS, HTTP, timers and thread spawning: only their outcomes enter, as inputs.
- The generated normalisers, the generated envelope decoder and gzip: uninterpreted functions of their input.
- Callback panics in the dispatcher: callbacks are assumed to return, so the worker's early end is not modelled.
- The callback queue and the transport loop's interleaving are step machines rather than threads; memory is sequentially consistent, and a biased `select!` looks at the stop signal and takes its branch in one step.
- A call dropped while it waits for the socket loses nothing here: what a half-read frame would leave inside the socket library is not modelled. A signing or opening that is cut short leaves no record.
- Jittered back-off: floating point.
- Error texts, logging, durations and metrics other than their place in the notification order.
- Descriptor attributes that no decoding decision reads (JSON name, map, oneof, deprecation).
- Floating-point schema values are kept as their bit patterns.
- Shifts, masks and disjoint bit-ors are written as multiplication, division, remainder and addition.
- Report and stream counters (`events`, `batches`, `reconnects` and the like) are unbounded, so their 64-bit overflow is not modelled.
- Formatted report keys are kept as the path with its wire type or enum, not as text.
- Which fields a method's presence is watched for, how many emotes an event carries and which actions are unclassified: tables and functions given to the report.
- Library sorting and set iteration: sorting is written as insertion, set and hash-map iteration as an arbitrary order.
- Frames.FetchRoundTrip: for encodings shorter than 2^64 bytes, which a 64-bit length always is.
- Frames.FrameRoundTrip: for encodings shorter than 2^64 bytes, which a 64-bit length always is.
- WireWriter.FieldsRoundTrip: for encodings shorter than 2^64 bytes, which a 64-bit length always is.
- Connection.SentFramesSurvive: for encodings shorter than 2^64 bytes, which a 64-bit length always is.
- Room discovery, presets, cookies, social classification, JSON rendering, the command line and the other language packages: thin mappings or easy members.
