# Verification model of spoe-forge

spoe-forge is an agent for HAProxy's Stream Processing Offload Protocol (SPOP). For each connection
it reads length-framed messages from HAProxy, runs a user handler for every NOTIFY and answers it
with an ACK, up to a negotiated number of them at a time. This project models, in Dafny 4.11, the
two parts that make this work and proves properties of them for all inputs, all handlers and all
interleavings:

* **the wire codec** (SPOE.txt v3.2.0, sections 3.1, 3.2 and 3.4): varints, typed data, key-value,
  message and action lists, metadata, and frames read from a byte stream;
* **the connection**: handshake and negotiation, the reader with its concurrency slots, the tasks
  of NOTIFYs that finish, fail and are cancelled in any order, the task group and its `except*`
  clauses.

## How it is built

| files | contents |
|---|---|
| `Results`, `Bytes` | error kinds as a result datatype; byte strings and "these bytes stand at this offset" |
| `Varints`, `DataTypes`, `Payloads`, `SpopLists`, `Frames` | the codec, its round trips, canonical forms and locality |
| `WireFormat`, `Vectors`, `FrameVectors` | the format in numbers: what decoders make of arbitrary bytes, what encoders refuse, concrete bytes |
| `Acks`, `Disconnects` | the reply to a NOTIFY with its greedy packer; outbound disconnects |
| `Configurations` | `ServerConfiguration`, whose methods overwrite its fields |
| `Sessions` | one connection as a labelled transition system: states, events, `Enabled`, `Apply`, runs |
| `SessionCases` | what a read, a greeting and a task event can do, as a few moves |
| `SlotAccounting`, `Acknowledgements`, `Outputs`, `SerialOrder`, `Feeds`, `Histories`, `Losses`, `Uniqueness` | state invariants, each kept by every event |
| `Runs`, `AckSets`, `DisconnectRuns`, `SecondDisconnects`, `SerialOutputs`, `Progress`, `Witnesses`, `Deliveries` | the theorems over whole runs, and runs that show their bounds are reached |
| `Contents`, `Causes` | what the frames of a run say, and the cause each one has |
| `Handlers` | the class `ForgeHandler`, whose methods update its fields and are proved to be the events |

The decoders are functions on a buffer and an offset, as in the source; every loop over bytes or
lists and every growing buffer is also a method proved to compute the recursive function beside it,
and the theorems are about those functions. The loops over lists call each other, but for the single
pair, value and varint inside them they use the function. An event of the transition system is what
one coroutine does between two suspension points; a run is any sequence of enabled events. What the
peer sends is an input byte string, what the agent writes a growing one, and the histories of
NOTIFYs dispatched and frames written are part of the state. Every `drain()` may wait in the model,
also where asyncio would return at once because little has been written, so results about all runs
hold for more runs than there are, and a run that needs a wait needs a full write buffer. A user
handler is an arbitrary function of the ordinal of the NOTIFY and its messages, which covers
handlers with state since each NOTIFY is handled once.
`int()` on a version component is a parameter of which only the reading of the agent's own
version is fixed.

## What the model shows about the source

* An id of 2^63 or more is written and read without complaint but comes back negative; the NOTIFY
  that carries it cannot be answered, and its task ends the connection with a protocol error. Below
  2^63 every accepted NOTIFY can be answered, whatever its handler returns.
* AGENT_DISCONNECT is neither always last nor unique. An ACK can follow the reader's disconnect
  exactly when `max_concurrent_frames` is at least two. Two disconnects can be written, never three,
  and two exactly when a session carries a NOTIFY without a reply and later an oversized frame or
  anything but a NOTIFY: the failure of the task may go unnoticed until the reader has ended the
  session as well. With non-negative ids there is one at most.
* A task cancelled before its first step never enters its `try`, so its slot is not released,
  although the design note (docs/design/pipelining.md) has every task release its slot. It can be
  the only slot. This happens only once the group is aborting, where no slot is acquired any more.
* With `max_concurrent_frames` of zero and pipelining negotiated the connection waits for a slot
  forever, and that is the only deadlock there is.
* The stream ending inside a length prefix counts as a normal end of stream, as one before it does.
* An outbound frame of 2^32 bytes or more is an encode error, since the length prefix is
  encoded before the size is checked.

## Model

| member | source | states |
|---|---|---|
| `Runs.SlotsAreConserved` | spoe_forge/server/handler.py:185-295 | In every reachable state free slots, NOTIFYs in flight, the reader's slot and leaked slots add up to the limit; nothing leaks before the group aborts; bytes in flight are at most limit × max frame size; a task has released exactly once if it started and is over, never otherwise |
| `Runs.NotifiesAreConserved` | spoe_forge/server/handler.py:169-204 | The NOTIFYs dispatched are those answered on the wire, those waiting and those ended without an answer, each of the last because its task failed, the group cancels its tasks, or the stream is closing; each is answered at most once; every ACK on the wire is the reply to, and carries both ids of, one dispatched NOTIFY |
| `AckSets.AcksAreOwed` | spoe_forge/server/handler.py:188-202 | For every limit and interleaving the multiset of ACKs on the wire is that of the answers to the NOTIFYs whose tasks have acknowledged |
| `Contents.AcksCarryActions` | spoe_forge/server/handler.py:185-250 | Every ACK on the wire has FIN, both ids of its NOTIFY and the greedy packing of what the handler returned for the messages of that very NOTIFY |
| `Contents.FinishOutcome` | spoe_forge/server/handler.py:185-204 | When a handler returns on an open stream exactly that ACK is written next, or, for an id that decodes as negative, the task fails with a protocol error; on a closing stream the task ends and gives its slot back |
| `Deliveries.AnswerIsReachable` | spoe_forge/server/handler.py:185-204 | Every NOTIFY of a session that has a reply gets it onto the wire in some run |
| `Deliveries.ActionReachesWire` | spoe_forge/server/handler.py:185-204 | A handler that returns an action for the messages of one NOTIFY has it on the wire, in a concrete connection |
| `Runs.WireIsReadable` | spoe_forge/server/handler.py:62-80 | For every interleaving, repeatedly decoding the bytes written, under the frame size HAProxy advertised (or the agent's own), gives exactly the frames sent, in order, with nothing left over |
| `Runs.DispatchFollowsStream` | spoe_forge/server/handler.py:265-295 | The NOTIFYs dispatched are what repeated decoding of the stream after the first frame yields: none skipped, reordered or invented |
| `Runs.SerialRefinement` | docs/design/pipelining.md:40-44 | With one slot granted, as always without pipelining, the marks of every run are a run of the serial loop read, handle, ACK, release; ACKs leave in NOTIFY order, none behind the reader's disconnect, and nothing is in flight while the reader holds the slot |
| `SerialOutputs.SerialOutput` | docs/design/pipelining.md:40-44 | With one slot granted, no failed task and an open stream, while the loop goes on, HAProxy reads AGENT_HELLO and then exactly the output of the serial program `Serve`, at most one NOTIFY behind |
| `SerialOutputs.SerialOutputComplete` | docs/design/pipelining.md:40-44 | Under the same conditions, once the reader has written its disconnect, HAProxy reads AGENT_HELLO, the output of the serial program on all NOTIFYs, and that disconnect |
| `Runs.LimitIsGranted` | spoe_forge/server/handler.py:314-319 | In every run the limit stays within what the first frame grants: the configured concurrency with pipelining, one without, none before a first frame decodes |
| `Runs.TaskFailuresAreJust` | spoe_forge/server/handler.py:185-204 | A task fails only by a lost connection, by its handler, or with a protocol error, the last only if the reply to its NOTIFY cannot be encoded: when the frame size fits the 32-bit prefix, because an id decodes as negative |
| `Runs.AckOnlyInSession` | spoe_forge/server/handler.py:117-167 | An ACK is never first on the wire, AGENT_HELLO is; and no ACK follows a disconnect written by an `except*` clause |
| `Causes.HelloSaysWhatWasAgreed` | spoe_forge/server/handler.py:133-152 | In every run AGENT_HELLO stands first, answers a HELLO with a version 2.x and positive sizes, and announces version 2.0, the frame size in force, which is the smaller of both sides', and pipelining exactly when offered, which decides the limit |
| `Causes.GreetOutcome` | spoe_forge/server/handler.py:117-167 | The answer to the first frame by what that frame is, the exception when none can be read (the end of the stream counts as a protocol error here), and that the session goes on exactly for a HELLO that can be agreed on and is no healthcheck |
| `Causes.DisconnectsHaveCauses` | spoe_forge/server/handler.py:82-115 | In every run each disconnect has the type AGENT_DISCONNECT, ids 0 and the status code of its cause: 4 or 101 for the first frame, 0 for HAProxy's disconnect and 4 for a frame out of place behind the NOTIFYs dispatched, 3 from the too-big clause and 102 from the protocol clause, each only with its exception |
| `Causes.CleanEndIsSilent` | spoe_forge/server/handler.py:267-272 | A session of answerable NOTIFYs ended by the end of the stream writes no disconnect, in any run |
| `Contents.ReadOutcome` | spoe_forge/server/handler.py:265-295 | What one read does for each frame and each way a read can fail: the end of the stream closes in silence, an oversized and a malformed frame are reported, any other exception is raised on |
| `Contents.ExceptionOutcome` | spoe_forge/server/handler.py:297-345 | Which exception a reset, a failing handler, a failed flush and the end of a closing body leave |
| `Contents.LeaveOutcome` | spoe_forge/server/handler.py:321-338 | The too-big clause runs exactly for the body's error, the protocol clause exactly for one of the body or of a task |
| `Contents.ClauseOutcome` | spoe_forge/server/handler.py:324-338 | A clause writes code 3 or 102 with the first 256 characters of its text, and does so on an open stream whenever these are latin-1 and the frame size is at least 288 |
| `Contents.ClosedIsSilent` | spoe_forge/server/handler.py:72-76 | On a closing stream no step writes anything |
| `DisconnectRuns.AtMostTwoDisconnects` | spoe_forge/server/handler.py:297-338 | At most two disconnects are written, whatever fails and however many clauses run, and two only for a stream that `InvitesTwo` |
| `DisconnectRuns.OneDisconnect` | spoe_forge/server/handler.py:297-338 | At most one is written while every NOTIFY dispatched has a reply that can be sent |
| `DisconnectRuns.OneDisconnectByIds` | spoe_forge/server/handler.py:297-338 | So at most one while no NOTIFY has a negative id and the frame size fits the 32-bit prefix |
| `SecondDisconnects.TwoDisconnectsExactly` | spoe_forge/server/handler.py:265-338 | Some run writes two exactly when the first frame opens a session with a slot and the stream goes on with NOTIFYs, one without a reply, and then an oversized frame or anything but a NOTIFY |
| `SecondDisconnects.UnanswerableExactly` | spoe_forge/server/handler.py:185-204 | When the frame size fits the 32-bit prefix, a NOTIFY on the stream has no reply exactly when one of its ids decodes as negative |
| `Witnesses.TwoDisconnectsHappen` | spoe_forge/server/handler.py:297-338 | The bound of two is reached, with any concurrency of at least one, for every stream id of 2^63 or more with a DISCONNECT behind it |
| `Witnesses.DisconnectIsLastExactly` | spoe_forge/server/handler.py:276-286 | An ACK can stand behind the reader's own disconnect exactly when the configured concurrency is at least two (the agent's frame size being 4096 or more, the default) |
| `Witnesses.OvertakenDisconnect` | spoe_forge/server/handler.py:77-79 | The run that does it: the reader waits in `drain()` while a task writes |
| `Witnesses.LeakHappens` | spoe_forge/server/handler.py:185-204 | A task cancelled before its first step never releases its slot, even the only one |
| `Runs.ClosingIsFinal` | spoe_forge/server/handler.py:265-295 | Once the body closes, every continuation reads nothing, dispatches nothing and brings no task to life |
| `Runs.NothingAfterClosing` | spoe_forge/server/handler.py:265-295 | The same for every run from the start and every continuation of it |
| `Runs.ReadClosesOrDispatches` | spoe_forge/server/handler.py:267-295 | A read dispatches one NOTIFY if the next frame is one, and otherwise (EOF, disconnect, other frame, error) closes the body |
| `Runs.HealthcheckReadsOnce` | spoe_forge/server/handler.py:151-155 | A HELLO with a true healthcheck leads, on every continuation, to no NOTIFY and no second read |
| `Runs.HealthcheckConnection` | spoe_forge/server/handler.py:151-155 | The same for every run from the start: at most the first frame has left the stream |
| `Progress.StuckExactly` | spoe_forge/server/handler.py:265-319 | No event but the loss of the peer is possible exactly when the connection is over or waits for a slot under a limit of zero |
| `Progress.NeverStuck` | spoe_forge/server/handler.py:265-319 | With a concurrency of at least one no reachable state is a deadlock: a run can go on until the connection is over |
| `Witnesses.DeadlockHappens` | spoe_forge/server/handler.py:265-319 | With a concurrency of zero and pipelining negotiated the connection waits for its first slot, with nothing left to happen and nothing finished |
| `Witnesses.NeverStuckExactly` | spoe_forge/server/handler.py:265-319 | The connection is free of deadlock, for all streams and runs, exactly when the configured concurrency is not zero |
| `Progress.TeardownTerminates` | spoe_forge/server/handler.py:297-345 | After closing there are at most three steps for each NOTIFY in flight and four more; when none is left the group and its clauses are done and no task lives |
| `Runs.InvariantStep` | spoe_forge/server/handler.py:169-345 | Every enabled event keeps the conjunction of the ten state invariants |
| `Handlers.ForgeHandler.constructor` | spoe_forge/server/handler.py:34-52 | A new handler is in the initial state of the transition system |
| `Handlers.ForgeHandler.SendFrame` | spoe_forge/server/handler.py:62-80 | Writes the whole encoding and logs the frame, or leaves everything as it was: when closing, or with the encoder's error |
| `Handlers.ForgeHandler.HandleHandshake` | spoe_forge/server/handler.py:117-167 | Updates the fields to the state after `Greet` |
| `Handlers.ForgeHandler.Negotiate` | spoe_forge/server/handler.py:137-139 | The configuration object ends in the negotiated outcome and the handler sees its new frame size |
| `Handlers.ForgeHandler.AcquireSlot` | spoe_forge/server/handler.py:266 | Updates the fields to the state after `Acquire` |
| `Handlers.ForgeHandler.ReadFrame` | spoe_forge/server/handler.py:268-295 | Updates the fields to the state after `Read` |
| `Handlers.ForgeHandler.CreateTask` | spoe_forge/server/handler.py:295 | One more NOTIFY and task, the slot handed over |
| `Handlers.ForgeHandler.SendAck` | spoe_forge/server/handler.py:188-202 | Writes what `Acks.Reply` answers: the whole ACK, else the salvaged one, else its error |
| `Handlers.ForgeHandler.FinishNotify` | spoe_forge/server/handler.py:185-204 | Updates the fields to the state after `Finish` |
| `Handlers.ForgeHandler.Release` | spoe_forge/server/handler.py:203-204 | The task is over and one slot is free again; nothing else changes but the log |
| `Handlers.ForgeHandler.CancelTask` | spoe_forge/server/handler.py:185-204 | Updates the fields to the state after `Cancelled`, with no release for a task never started |
| `Handlers.ForgeHandler.ExitGroup` | spoe_forge/server/handler.py:321-328 | Splits the exception group by a loop over all failures |
| `Handlers.ForgeHandler.OnFrameTooBig` | spoe_forge/server/handler.py:324-328 | Updates the fields to the state after the frame-too-big clause |
| `Handlers.ForgeHandler.OnProtocolError` | spoe_forge/server/handler.py:330-338 | Updates the fields to the state after the protocol-error clause |
| `Handlers.ForgeHandler.Step` | spoe_forge/server/handler.py:117-345 | Every event of the transition system is carried out by its method |
| `Handlers.ForgeHandler.CoreHandler` | spoe_forge/server/handler.py:297-345 | Under every schedule the object ends where the run of the transition system ends |
| `Handlers.ServeConnection` | spoe_forge/server/handler.py:297-345 | From its first byte, under every schedule, the object holds the state of the run and HAProxy can read back its writer |
| `Configurations.ServerConfiguration.constructor` | spoe_forge/server/configuration.py:31-50 | The settings before negotiation |
| `Configurations.ServerConfiguration.CheckVersionCompatibility` | spoe_forge/server/configuration.py:52-83 | Compatible exactly when some offered version parses to major 2 and a minor of at least 0; malformed ones are passed over |
| `Configurations.ServerConfiguration.FindMaxFrameSize` | spoe_forge/server/configuration.py:85-100 | The smaller of the two sizes; compatibility is lost when it is not positive |
| `Configurations.ServerConfiguration.FindCommonCapabilities` | spoe_forge/server/configuration.py:102-117 | Pipelining exactly when HAProxy offers it |
| `Configurations.ServerConfiguration.NegotiateServerCompatibility` | spoe_forge/server/configuration.py:119-137 | The three steps together reach the outcome stated without reference to their order |
| `Configurations.Outcome` | spoe_forge/server/configuration.py:119-137 | The frame size is within both sides'; a compatible outcome has a positive size; pipelining is kept exactly when offered |
| `Configurations.SpeaksExactly` | spoe_forge/server/configuration.py:11-13 | A version is spoken exactly when it is two parts around one dot that read as 2 and a number of at least 0 |
| `Acks.EveryNotifyIsAnswered` | spoe_forge/server/handler.py:194-250 | An accepted NOTIFY gets, for every action list, an ACK with its ids that encodes within the frame size, exactly when both ids decode as non-negative (the frame size fitting the 32-bit prefix); the only other outcome is an encode error |
| `Acks.ReplyIsGreedy` | spoe_forge/server/handler.py:188-250 | Trying the whole list first makes no difference: whenever the empty ACK fits, a reply is what the greedy packer makes of the actions, and there is one under every frame size that fits the length prefix |
| `Acks.AcceptedLeavesRoom` | spoe_forge/spop/frame.py:158-193 | The empty ACK is never longer than the NOTIFY it answers |
| `Acks.NegativeIdIsNeverAnswered` | spoe_forge/spop/encoders/payloads.py:171-196 | A NOTIFY with a negative id (2^63 or more on the wire) has no ACK, whatever the actions |
| `Acks.KeepIsGreedy` | spoe_forge/server/handler.py:226-243 | An action is kept exactly when it encodes and fits after those kept before it |
| `Acks.KeptFits` | spoe_forge/server/handler.py:223-250 | The kept actions all encode and stay within the budget |
| `Acks.DroppedDoesNotFit` | spoe_forge/server/handler.py:223-250 | A dropped action has no encoding or does not fit beside the final list |
| `Acks.SalvageIsMaximal` | spoe_forge/server/handler.py:206-250 | A dropped action put back at any place gives a frame that cannot be sent |
| `Acks.SalvageWhole` | spoe_forge/server/handler.py:223-250 | The whole list is kept exactly when it encodes and fits |
| `Acks.EncodesPiecewise` | spoe_forge/spop/encoders/payloads.py:151-168 | A list encodes exactly when each action does, to the sum of their sizes |
| `Acks.SalvagedFits` | spoe_forge/server/handler.py:206-250 | The salvaged ACK stays within the frame size and is refused only for an id that cannot be written, or a body of 2^32 bytes or more |
| `Acks.SalvageLoop` | spoe_forge/server/handler.py:206-250 | The loop that fills `salvaged` and counts `used` builds the frame of the recursive definition |
| `Disconnects.DisconnectIsBounded` | spoe_forge/server/handler.py:100-115 | An error disconnect is at most 288 bytes for any text; it encodes exactly when the kept text is latin-1 and the frame fits, so always from 288 on |
| `Disconnects.BoundIsTight` | spoe_forge/server/constants.py:12-15 | 288 is enough for the longest text and 287 is not |
| `Disconnects.DisconnectSize` | spoe_forge/spop/frame.py:434-440 | The exact size of a disconnect frame, and that only a text outside latin-1 stops it |
| `Frames.FrameRoundTrip` | spoe_forge/spop/frame.py:93-213 | Every frame that encodes decodes to its normal form, whatever follows on the stream, for every reader that accepts its size |
| `Frames.FrameRoundTripExactly` | spoe_forge/spop/frame.py:93-213 | It decodes to itself exactly when its ids are below 2^63 and its list items clean |
| `Frames.FaithfulIsNormal` | spoe_forge/spop/frame.py:294-312 | That condition holds exactly for frames equal to their normal form |
| `Frames.HugeIdIsLost` | spoe_forge/spop/encoders/payloads.py:193-194 | An id of 2^63 encodes and comes back as −2^63 |
| `Frames.StreamRoundTrip` | spoe_forge/spop/frame.py:123-213 | Concatenated encodings decode one by one to the normal forms of the frames |
| `Frames.FaithfulStream` | spoe_forge/spop/frame.py:123-213 | Faithful frames are their own normal forms, so such a stream is read back unchanged |
| `Frames.FramePrefixFree` | spoe_forge/spop/frame.py:93-121 | No encoding is a proper prefix of another |
| `Frames.DecodedIsFaithful` | spoe_forge/spop/frame.py:123-213 | Whatever decodes is faithful: it survives being written again |
| `Frames.DecodingNormalises` | spoe_forge/spop/frame.py:123-213 | Decode, encode, decode gives the first result again, for any bytes that were accepted |
| `Frames.ExactConsumption` | spoe_forge/spop/frame.py:203-206 | A payload that decodes ends exactly at the frame's end, so the last guard never fires |
| `Frames.NotifyIsDense` | spoe_forge/spop/frame.py:163-206 | A NOTIFY has at least two bytes for every message and argument beyond the first seven |
| `Frames.DecodeFrame` | spoe_forge/spop/frame.py:123-213 | On every input: at least five bytes are taken, none beyond the stream, and the body is within the frame size; it never raises an encode error |
| `Frames.BigEndianRoundTrip` | spoe_forge/spop/encoders/data_types.py:92-104 | Every 32-bit length is read back from its prefix |
| `Frames.FrameEncode` | spoe_forge/spop/frame.py:93-121 | The growing buffer ends as the encoding, with the source's order of errors |
| `Frames.PayloadDecode` | spoe_forge/spop/frame.py:193-206 | The loops behind each frame type compute the recursive decoder |
| `Frames.FrameDecode` | spoe_forge/spop/frame.py:123-213 | The advancing offset computes the recursive decoder, with the source's order of errors |
| `WireFormat.FrameOutcome` | spoe_forge/spop/frame.py:143-206 | On arbitrary bytes, in this order: no whole prefix, a size beyond the maximum, a frame cut short, or what the body decodes to |
| `WireFormat.EncodeOutcome` | spoe_forge/spop/frame.py:103-121 | A body of 2^32 bytes or one that does not encode is an encode error, a smaller one beyond the maximum too big, and any other goes out behind its big-endian length |
| `WireFormat.TypeOutcome` | spoe_forge/spop/constants.py:78-87 | Types 1, 2, 3, 101, 102 and 103 decode to their own kinds of frame, and no other type decodes |
| `WireFormat.HelloOutcome` | spoe_forge/spop/frame.py:350-361 | HAPROXY_HELLO from an arbitrary dictionary: three keys are needed, two of them texts; engine id and healthcheck are null and false when absent; which error comes first |
| `WireFormat.AgentHelloOutcome` | spoe_forge/spop/frame.py:399-408 | AGENT_HELLO from an arbitrary dictionary |
| `WireFormat.DisconnectOutcome` | spoe_forge/spop/frame.py:442-450 | A disconnect from an arbitrary dictionary |
| `FrameVectors.HelloVector` | spoe_forge/spop/frame.py:337-348 | The bytes of a HELLO with every key |
| `FrameVectors.ShortHelloVector` | spoe_forge/spop/frame.py:350-361 | The bytes of a HELLO without the optional keys, and that it is no healthcheck |
| `FrameVectors.AgentHelloVector` | spoe_forge/spop/frame.py:390-397 | The bytes of an AGENT_HELLO |
| `FrameVectors.DisconnectVectors` | spoe_forge/spop/frame.py:434-440 | The bytes of a whole AGENT_DISCONNECT, and of HAProxy's |
| `Vectors.AckVector` | spoe_forge/spop/frame.py:93-121 | The bytes of one whole ACK, and its refusal one byte lower |
| `Vectors.NotifyVector` | spoe_forge/spop/frame.py:93-121 | The bytes of one NOTIFY body |
| `Payloads.EntriesRoundTrip` | spoe_forge/spop/decoders/payloads.py:80-103 | A key-value list is read back into any dictionary as if each pair were put there |
| `Payloads.PutLookup` | spoe_forge/spop/decoders/payloads.py:98-103 | Assigning a key changes that key and no other |
| `Payloads.PairRoundTrip` | spoe_forge/spop/decoders/payloads.py:24-35 | A pair is read back wherever it stands in a buffer |
| `Payloads.PairLocal` | spoe_forge/spop/decoders/payloads.py:24-35 | A decoded pair depends only on the bytes it took |
| `Payloads.MessagesRoundTrip` | spoe_forge/spop/decoders/payloads.py:106-145 | A message list is read back wherever it stands, ending at its last byte |
| `Payloads.ActionsRoundTrip` | spoe_forge/spop/decoders/payloads.py:148-223 | So is an action list, with scopes and argument counts |
| `Payloads.MetadataRoundTrip` | spoe_forge/spop/decoders/payloads.py:38-77 | Metadata are read back with ids taken as signed 64-bit numbers |
| `Payloads.MetadataLocal` | spoe_forge/spop/decoders/payloads.py:38-77 | Decoded metadata depend only on the bytes they took |
| `Payloads.IdsNeverGrow` | spoe_forge/spop/decoders/payloads.py:64-69 | Metadata that can be written back take no more bytes than they were read from |
| `Payloads.DecodeEntries` | spoe_forge/spop/decoders/payloads.py:80-103 | On success the list ends at or behind `end` and inside the buffer, so exactly at the end of a frame; the only error is a decode error |
| `Payloads.DecodeMessages` | spoe_forge/spop/decoders/payloads.py:106-145 | On success the list ends at or behind `end` and inside the buffer, having taken at least two bytes for each message and argument |
| `Payloads.EncodeKvList` | spoe_forge/spop/encoders/payloads.py:97-115 | The buffer loop computes the recursive encoder |
| `Payloads.DecodeKvList` | spoe_forge/spop/decoders/payloads.py:80-103 | The offset loop computes the recursive decoder |
| `Payloads.EncodeMessageList` | spoe_forge/spop/encoders/payloads.py:118-148 | The nested buffer loops compute the recursive encoder |
| `Payloads.DecodeListOfMessages` | spoe_forge/spop/decoders/payloads.py:106-145 | The nested offset loops compute the recursive decoder |
| `Payloads.EncodeActionList` | spoe_forge/spop/encoders/payloads.py:151-168 | The buffer loop computes the recursive encoder |
| `Payloads.DecodeListOfActions` | spoe_forge/spop/decoders/payloads.py:148-223 | The offset loop computes the recursive decoder |
| `Payloads.EncodeMetadataFrame` | spoe_forge/spop/encoders/payloads.py:171-196 | Setting flag bits in a four-byte array gives the encoded flags |
| `WireFormat.MetadataOutcome` | spoe_forge/spop/decoders/payloads.py:38-77 | Metadata from arbitrary bytes: two bits of the last flag byte and two signed 64-bit ids |
| `WireFormat.ActionOutcome` | spoe_forge/spop/decoders/payloads.py:165-218 | An action from arbitrary bytes: type 1 with 3 arguments or 2 with 2, a scope from 0 to 4, and a pair or a name; anything else is refused |
| `WireFormat.EntriesAssign` | spoe_forge/spop/decoders/payloads.py:98-103 | A key-value list with repeated keys is read by assigning in order |
| `WireFormat.LastValueCounts` | spoe_forge/spop/decoders/payloads.py:98-103 | So the last value of a key is the one that counts |
| `WireFormat.RepeatedArgRefused` | spoe_forge/spop/decoders/payloads.py:131-140 | A message with a repeated argument is refused |
| `WireFormat.MessagesEncodable` | spoe_forge/spop/encoders/payloads.py:118-148 | A message encodes exactly when its name is latin-1, it has at most 255 arguments and each of them encodes |
| `WireFormat.ActionsEncodable` | spoe_forge/spop/encoders/payloads.py:62-94 | An action encodes exactly when its name is latin-1 and its value encodes |
| `Vectors.MetadataVectors` | spoe_forge/spop/encoders/payloads.py:171-196 | Concrete metadata bytes for all four flag combinations |
| `Vectors.ActionVectors` | spoe_forge/spop/encoders/payloads.py:62-94 | Concrete bytes of set and unset actions in all five scopes |
| `Vectors.MessageVector` | spoe_forge/spop/encoders/payloads.py:118-148 | Concrete bytes of a message with two arguments |
| `Varints.VarintRoundTrip` | spoe_forge/spop/decoders/data_types.py:16-58 | Reading what was composed gives the number and the end offset, wherever it stands |
| `Varints.VarintCanonical` | spoe_forge/spop/decoders/data_types.py:33-58 | The bytes a parse takes are the composed form of what it returns: no number has a second encoding |
| `Varints.VarintInjective` | spoe_forge/spop/encoders/data_types.py:19-52 | Different numbers have different encodings |
| `Varints.VarintLength` | spoe_forge/spop/encoders/data_types.py:19-52 | A number takes k bytes exactly between the (k−1)-th and k-th thresholds 240, 2288, 264432, ... |
| `Varints.VarintLengthMonotone` | spoe_forge/spop/encoders/data_types.py:37-52 | A larger number is never shorter |
| `Varints.Varint64Length` | spoe_forge/spop/encoders/data_types.py:19-52 | A 64-bit number takes at most ten bytes |
| `Varints.ComposeVarint` | spoe_forge/spop/encoders/data_types.py:37-52 | The shrinking loop computes the recursive encoder, and refuses negatives |
| `Varints.ParseVarintLoop` | spoe_forge/spop/decoders/data_types.py:33-58 | The shifting loop computes the recursive parser |
| `Vectors.VarintVectors` | spoe_forge/spop/encoders/data_types.py:19-52 | The boundary encodings of the documented size table |
| `DataTypes.Int32RoundTrip` | spoe_forge/spop/encoders/data_types.py:146-157 | Every INT32 decodes to itself through its type byte |
| `DataTypes.Uint32RoundTrip` | spoe_forge/spop/encoders/data_types.py:174-184 | Every UINT32 does |
| `DataTypes.Int64RoundTrip` | spoe_forge/spop/encoders/data_types.py:160-171 | Every INT64 does |
| `DataTypes.Uint64RoundTrip` | spoe_forge/spop/encoders/data_types.py:187-197 | Every UINT64 does |
| `DataTypes.TypedIntUnique` | spoe_forge/spop/decoders/data_types.py:88-133 | Whatever varint is accepted, the decoded integer is the only one in its type's range congruent to it |
| `DataTypes.ManyBytesOneValue` | spoe_forge/spop/decoders/data_types.py:88-97 | Typed decoding is not injective: flag bits, integer types and multiples of the modulus are lost |
| `DataTypes.ValueRoundTrip` | spoe_forge/spop/encoders/data_types.py:260-299 | Every encodable value is read back, with its end offset, wherever it stands |
| `DataTypes.EncodableExactly` | spoe_forge/spop/encoders/data_types.py:260-299 | A value encodes exactly when it is a signed 64-bit number, latin-1 text or of another type |
| `DataTypes.VarintLocal` | spoe_forge/spop/decoders/data_types.py:16-58 | A parsed varint depends only on the bytes it took |
| `DataTypes.BinaryLocal` | spoe_forge/spop/decoders/data_types.py:190-206 | So does a decoded binary |
| `DataTypes.StringLocal` | spoe_forge/spop/decoders/data_types.py:209-222 | So does a decoded string |
| `DataTypes.ValueLocal` | spoe_forge/spop/decoders/data_types.py:225-281 | So does a decoded value |
| `DataTypes.ValuePrefixFree` | spoe_forge/spop/decoders/data_types.py:225-281 | No complete value is a proper prefix of another |
| `WireFormat.IntegerOutcome` | spoe_forge/spop/decoders/data_types.py:225-281 | Type bytes 2 to 5 on arbitrary bytes: the one number of the type's range congruent to the varint |
| `WireFormat.FixedOutcome` | spoe_forge/spop/decoders/data_types.py:225-281 | Type bytes 0, 1, 6 and 7 on arbitrary bytes, and that 10 to 15 are refused |
| `WireFormat.SizedOutcome` | spoe_forge/spop/decoders/data_types.py:225-281 | Type bytes 8 and 9 on arbitrary bytes: a varint length and as many characters or bytes |
| `WireFormat.IntegersEncodable` | spoe_forge/spop/encoders/data_types.py:146-197 | Each integer type accepts exactly its range, in numbers |
| `WireFormat.ValuesEncodable` | spoe_forge/spop/encoders/data_types.py:260-299 | A value encodes exactly when it is a signed 64-bit number, text up to character 255 or of another type, in numbers |
| `Vectors.UnsignedVectors` | spoe_forge/spop/encoders/data_types.py:146-197 | Concrete bytes of INT32, UINT32 and UINT64 |
| `Vectors.IntegerVectors` | spoe_forge/spop/decoders/data_types.py:225-281 | The same varint behind each of the four integer type bytes decodes to the same number |
| `Vectors.ValueVectors` | spoe_forge/spop/encoders/data_types.py:260-299 | Concrete bytes of one value of each of the seven kinds an agent writes |
| `Vectors.NegativeVectors` | spoe_forge/spop/encoders/data_types.py:146-171 | Negative numbers travel as two's complement |
| `SpopLists.ListNormalForm` | spoe_forge/spop/frame.py:294-312 | Reading back a joined list flattens the readings of its items |
| `SpopLists.ListSurvives` | spoe_forge/spop/frame.py:294-312 | A list survives joining and splitting exactly when its items are non-empty, stripped and free of commas |
| `SpopLists.FromListClean` | spoe_forge/spop/frame.py:304-312 | Every list that was read is of that form |
| `SpopLists.StripWindow` | spoe_forge/spop/frame.py:304-312 | `strip` removes blanks and nothing else from both ends, and leaves none there |
| `SpopLists.SplitPieces` | spoe_forge/spop/frame.py:312 | No piece of a split holds the separator |
| `SpopLists.SplitJoins` | spoe_forge/spop/frame.py:302-312 | Joining the pieces of a split gives the text back |
| `Vectors.BlankVectors` | spoe_forge/spop/frame.py:294-312 | Which characters count as blank, in numbers |
| `Vectors.ListVectors` | spoe_forge/spop/frame.py:294-312 | Concrete lists of none, one and two items |

## Left out

- Sockets, TLS, `StreamReader` and `StreamWriter`, timing and fairness of the event loop: the model has an input byte string, an output byte string and any order of steps. That the loop does take a possible step is not proved, only that there is one and how many can be left.
- Cancellation of `core_handler` from outside and `KeyboardInterrupt`; what follows the `except*` clauses (`close_connection`, exceptions no clause takes, which are raised again).
- A user handler that suppresses its own cancellation, that raises one of the library's own errors, or that raises `CancelledError` by itself, which would end its NOTIFY without an answer and without a failure: handlers return, fail with an unrelated exception or a connection error, or are cancelled by the group.
- A negative `max_concurrent_frames`, for which `asyncio.Semaphore` raises `ValueError` after AGENT_HELLO.
- The registry, the agent context and the dispatch from messages to user functions: dictionary lookups and a fold, which would only add easy members.
- The text of error messages, but for the disconnects the reader and the handshake send: the clauses send an arbitrary text, cut to its bound.
- Acks.EveryNotifyIsAnswered: that a reply exists is stated for frame sizes below 2^32, as a larger frame has no length prefix; Acks.SalvagedFits says what happens above.
- Runs.TaskFailuresAreJust: the cause of a protocol error is stated for frame sizes below 2^32, for the same reason.
- Handlers.ForgeHandler.CoreHandler: the endless loop of `_read_frames` and the coroutines are not loops of the model but a schedule of steps, each proved; the methods between suspension points are the source's.
- Frames as objects whose `construct_payload` and `decode_payload` set their own fields: `Frames.Frame` is a value, which nothing aliases.
- Python's dynamic typing: actions that are not actions, scopes outside the enumeration, HELLO fields of other types than the model's values. A HELLO whose list field is not a string, or whose frame size does not compare with a number, raises an exception that no clause takes; booleans compare as numbers.
- An `Ack` built without actions, which encodes like one with an empty list.
- Bit operations are written as arithmetic: a varint's first byte is 240 + n mod 16, a type byte is taken apart by division, and two's complement is reduction modulo 2^32 or 2^64.
- `ipaddress` objects are their 4 or 16 bytes; strings are sequences of characters with a latin-1 condition, without lone surrogates; dictionaries are lists of entries with distinct keys in insertion order.
- The order of `list(set & set)`: the agent has one capability of its own, so the list has at most one element.
- Logging, the command line, and the `run` and `serve` loops.
