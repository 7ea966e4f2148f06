# Verification of the screen reader bridge

This project models an MCP server that drives screen readers, and the bridge that runs
inside one of them: a request/response protocol over JSON lines, a session with two
watchdogs, a two-thread server, timed capture buffers, a wire contract that is validated,
compiled to JSON Schema and compiled again to Go types, and the agent-side connection
with its capability gate, dialing and configuration.

The program's objects are classes whose methods are proved against functions of what they
were given; what the program promises is proved about those functions. The protocol and
the server, which are about interleavings, are step machines, and their properties hold
of every run. Time is a real number of seconds that moves only while somebody sleeps, sits
in an idle read or is kept by the reader. What a peer, the network or another thread does
is given in advance as a script, and results are tied to it; what else can raise is left
open, and the properties hold whichever way it goes.

| file | what it models |
|---|---|
| Framing.dfy, Json.dfy, JsonText.dfy, Time.dfy | line framing and the line reader of both sides; JSON values, and JSON text as a decoder of limited depth scans it; the clock |
| BridgeProtocol.dfy, TornReplies.dfy | client, session and two byte streams as one machine, and its runs; why a reply behind a broken-off one is not JSON |
| JsonLinesClient.dfy, SessionHalf.dfy | the Go client, proved to follow the client half of that machine; the session's histories, proved to be its other half |
| Contract.dfy, Schema.dfy, WireGen.dfy, WireBinding.dfy | the validator, the schema generator, the binding generator, and what the bindings marshal to |
| Buffers.dfy | the speech and braille logs: windows, search, waits |
| SessionTrace.dfy, Session.dfy | the histories a session can have in a given world; the dispatch loop, handlers and teardown, which go through one |
| BridgeServer.dfy | start, stop and the accept-loop threads, interleaved |
| ToolCatalog.dfy, Dialing.dfy, Connection.dfy, Dispatcher.dfy, Config.dfy, Waits.dfy | the agent side, and the client's wait budget against the bridge's own wait |

## Findings

Where the code and its own words disagree, the model follows the code.

- A timed-out call does not close the client, so the reply that comes late meets the next
  call's id check. The check is described as impossible to fail while calls are serialised
  (server/adapters/bridge/json_lines_client.go:347-349). `LateReplyCloses` gives the exact
  condition: the next frame is rejected if and only if an earlier call timed out although
  something of its reply got out, with that call's id if the reply got out whole, and as
  unreadable if it broke off. The session swallows a failed write and goes on
  (domain/controllers/session.py:283-290 of the bridge), and over TCP the poll timeout
  bounds writes as well (adapters/socket_transport.py:33). `LateReplyHappens` shows the
  runs, `LoseToLateReply` the code.
- That error is not the lost-connection error, so the rule of
  server/domain/controllers/tools/dispatcher.go:66 does not fire and the tools stay
  advertised over a closed client until the next verification. With a peer whose every reply
  gets out whole, a call that comes to neither a loss nor a timeout does that if and only if
  an earlier call on the same client timed out (`Execute`, `RejectedAfterTimeout`).
- A wait is said to be well below the watchdog windows
  (domain/controllers/commands/wait_for_speech.py:5-6 of the bridge), but nothing bounds
  its timeout: `LongWaitEndsSession` gives the exact limit. The same holds of any operation
  that blocks for a window's length (`CommandAndWindows`). The decoder also reads `Infinity`,
  and takes `1e400` for it: a wait with that timeout comes back only with what it waits for.
- Unreadable lines are meant to be survived mid-session, and two kinds are not. Bytes that
  are not UTF-8 raise outside the guarded part of shared/nvda_mcp_wire/protocol.py:329, and a
  line nested deeper than the decoder's recursion goes makes line 331 raise what line 332
  does not catch. In an established session whose transcript does not raise, a line ends the
  loop by an exception if and only if it is of one of these kinds (`TakeTurn`); for JSON text
  the second is a count of brackets (`FatalJson`). `LoseToOneByte` and `LoseToNesting` do it.
- Deadlines are looked at only after a read that gave nothing, on both sides: a peer that
  sends a byte at a time and no newline holds a call past its budget and a session past its
  windows (`DripsPostpone`, `DripsHoldTheLoop`; `RoundTripMeaning` and `ReadTakes` bound it
  by the time the bytes take).
- `index_of` searches strictly after its bookmark, and for one below -1 finds nothing
  (`IndexOf`); a wait after a fresh bookmark passes over the very next capture
  (`NextCaptureIsPassedOver`). `get_since` clamps only below zero (`WindowIsProper`).
- The enum key of the binding generator joins values with a bar and does not escape it: a
  set that goes by a Go name is that type's own if and only if none of its values contains
  a bar (`KeySpellsValues`, and `SeparatorInValue` for one that takes another's name).

## Model

| member | source | states |
|---|---|---|
| Framing.SplitUnique | server/adapters/bridge/json_lines_client.go:449-470 | the lines of a byte stream are its newline-terminated segments: any list of newline-free lines and newline-free rest that make up the stream are the ones the readers compute |
| Framing.ChunkingIsInvisible | bridges/nvda/addon/globalPlugins/nvdaMcpBridge/adapters/json_lines_channel.py:25-43 | cutting after every chunk pops the same lines and keeps the same rest as cutting the whole stream once, for every chunking |
| Framing.LineReader.Feed | server/adapters/bridge/json_lines_client.go:456-458 | a chunk goes to the end of the buffer and of the stream fed so far |
| Framing.LineReader.Next | server/adapters/bridge/json_lines_client.go:461-470 | the lines popped are always the first lines of everything fed; it answers none only when all of them were popped |
| BridgeProtocol.StepKeepsInv | server/adapters/bridge/json_lines_client.go:308-363 | every step of client, session or network, a reply that breaks off anywhere and the session going on after it included, keeps the accounting of every byte in flight, buffered or written, and the ledger of requests, replies and outcomes |
| BridgeProtocol.RunKeepsInv | server/adapters/bridge/json_lines_client.go:308-363 | that accounting holds in every state of every run, for every chunking, partial write of either side and pattern of timeouts |
| BridgeProtocol.NoMisattribution | server/adapters/bridge/json_lines_client.go:308-363 | an answered call got the reply the session computed for that very request, and no other handled request has its id |
| BridgeProtocol.OneReplyEachInOrder | bridges/nvda/addon/globalPlugins/nvdaMcpBridge/domain/controllers/session.py:185-222 | the session handles the requests in the order they were sent, each once, under strictly increasing ids |
| BridgeProtocol.NothingAnsweredAfterTimeout | server/adapters/bridge/json_lines_client.go:331-363 | once a call timed out, a later call on that client is answered only if not one byte of the reply to the first ever got out |
| BridgeProtocol.LateReplyCloses | server/adapters/bridge/json_lines_client.go:346-353 | a judged frame answers the call in progress exactly when no earlier call is overdue, that is, timed out although something of its reply got out; otherwise the first that is closes the connection: over its late reply, under its own id, if that got out whole, and over an unreadable line if it broke off |
| BridgeProtocol.OnlyLateRepliesAreRejected | server/adapters/bridge/json_lines_client.go:346-388 | a wrong id is only ever that of the first overdue call, whose reply got out whole, and a frame is only ever unreadable when that broke off |
| BridgeProtocol.AnsweredOrRejected | server/adapters/bridge/json_lines_client.go:345-388 | a call that came to neither a loss nor a timeout was answered exactly when no earlier call is overdue, and otherwise rejected over the first that is, with its id or as unreadable |
| BridgeProtocol.TimedOutIsOverdue | bridges/nvda/addon/globalPlugins/nvdaMcpBridge/domain/controllers/session.py:283-290 | if every reply got out whole, the overdue calls are exactly those that timed out, and no frame is unreadable |
| BridgeProtocol.LateReplyHappens | server/adapters/bridge/json_lines_client.go:346-388 | runs of ten steps in which each happens: call, timeout, call, and then the whole first reply, a line that begins with a piece of it, or, if nothing of it got out, the second reply is judged |
| BridgeProtocol.ListCodecIsLawful | shared/nvda_mcp_wire/protocol.py:321-336 | every finite choice of requests and responses has a codec that can write them all and that the theorems hold of |
| TornReplies.NotFinished | shared/nvda_mcp_wire/protocol.py:321-336 | a JSON text that opens an object with a key that begins with an i, behind any piece of such texts, is not JSON: the brace is in a string, one level further in, or out of place |
| TornReplies.JsonIsLawful | shared/nvda_mcp_wire/protocol.py:321-355 | so what the protocol needs of broken-off replies follows for every codec that writes such texts and decodes JSON alone |
| JsonLinesClient.Transport.Read | server/adapters/bridge/json_lines_client.go:397-419 | what a read can come to; time passes while it sits idle, or until there is data |
| JsonLinesClient.JSONLinesClient.constructor | server/adapters/bridge/json_lines_client.go:133-135 | a new client is the protocol machine in its first state |
| JsonLinesClient.JSONLinesClient.WriteAll | server/adapters/bridge/json_lines_client.go:426-436 | every byte is written in order however short the transport writes, event by event as the script of writes has it, or the connection is lost with only a proper prefix written |
| JsonLinesClient.JSONLinesClient.AwaitLine | server/adapters/bridge/json_lines_client.go:392-423 | waiting ends, at the time and with the bytes that the script of reads gives: a frame already buffered is answered without touching the transport, a deadline result comes only at or after the deadline, an ended connection only over an end or a failure of the transport; terminates by (reads still to come, polls left) |
| JsonLinesClient.JSONLinesClient.JudgeLine | server/adapters/bridge/json_lines_client.go:345-363 | the popped frame is judged as the machine judges it: answer, wrong id or unreadable, the last two losing the connection |
| JsonLinesClient.JSONLinesClient.Call | server/adapters/bridge/json_lines_client.go:308-363 | one call comes to exactly what one round trip over the script of the transport gives, and takes the machine through exactly the events of that trip; nothing happens on a lost client; the bytes sent are the framed request, none for one that cannot be encoded; the connection survives answers and timeouts only |
| JsonLinesClient.JSONLinesClient.ReadResponse | server/adapters/bridge/json_lines_client.go:331-390 | from a written request on: the wait, and then the judging of the one frame it gave, end as the script has it |
| JsonLinesClient.RoundTripMeaning | server/adapters/bridge/json_lines_client.go:308-423 | a call is lost only over a refused write, an end or a failure of the transport, times out only when its budget is used up, and overruns it by at most one idle read and the time that data kept coming in |
| JsonLinesClient.DripsPostpone | server/adapters/bridge/json_lines_client.go:397-423 | and nothing less bounds it: a peer that sends a byte at a time and no newline holds a call for as long as it likes, whatever the deadline |
| JsonLinesClient.SilenceTimesOut | server/adapters/bridge/json_lines_client.go:392-423 | a call to a connected peer that says nothing times out and leaves it as it was |
| JsonLinesClient.JSONLinesClient.MarkLost | server/adapters/bridge/json_lines_client.go:440-447 | the transport is closed once, and has been closed exactly when the connection is lost |
| JsonLinesClient.JSONLinesClient.Close | server/adapters/bridge/json_lines_client.go:281-289 | idempotent: a connection already gone is not closed a second time |
| JsonLinesClient.JSONLinesClient.Ping | server/adapters/bridge/json_lines_client.go:262-264 | a real round trip unless the connection is known to be gone; the client is lost afterwards exactly when it found a loss or an answer that breaks the protocol |
| JsonLinesClient.JSONLinesClient.Bye | server/adapters/bridge/json_lines_client.go:271-277 | a connection already gone is no failure; otherwise one bye is sent, and it succeeded exactly when it was acknowledged or the connection ended |
| JsonLinesClient.ClientHalf | server/adapters/bridge/json_lines_client.go:308-363 | in every run of the whole system the client goes through its own events and no other way |
| JsonLinesClient.CodeNeverMisattributes | server/adapters/bridge/json_lines_client.go:308-363 | whatever code drove a client to these events, in any system they are part of, each answered call of it got the reply to its own request |
| JsonLinesClient.CodeRejectsOnlyLateReplies | server/adapters/bridge/json_lines_client.go:345-388 | and a call of it that came to neither a loss nor a timeout was answered exactly when no earlier one is overdue, and otherwise rejected over the first that is |
| JsonLinesClient.RejectedAfterTimeout | server/adapters/bridge/json_lines_client.go:345-363 | with a peer whose every reply gets out whole, it was rejected exactly when TimedOut is among the outcomes before it, and then with a wrong id |
| JsonLinesClient.LoseToLateReply | server/adapters/bridge/json_lines_client.go:345-388 | two calls over a real client and a scripted transport, the first too early for its reply: the second is rejected with the first's id, as unreadable, or answered, as the whole reply, a piece or nothing of it comes in; with the whole one the client is shown to have such a peer |
| SessionHalf.PoppedAreRequests | bridges/nvda/addon/globalPlugins/nvdaMcpBridge/adapters/json_lines_channel.py:25-43 | of the client's stream of requests, in whatever chunks it comes, the session's reader pops the first few, each as it was written |
| SessionHalf.SessionAnswersEach | bridges/nvda/addon/globalPlugins/nvdaMcpBridge/domain/controllers/session.py:128-222 | a session that pops the client's requests makes exactly one reply attempt to each, under its own id and in order, however many silent turns lie between |
| SessionHalf.SessionIsItsHalf | bridges/nvda/addon/globalPlugins/nvdaMcpBridge/domain/controllers/session.py:128-222 | what a session of the class heard and answered are the machine's own session events: they can happen there, leave one entry per request in order, for the id of its reply attempt, and do not touch the client |
| SessionHalf.CodecIsUnderstood | shared/nvda_mcp_wire/protocol.py:321-336 | every finite choice of requests has a lawful codec and a decoder of the bridge that reads it |
| Waits.BridgeTimesOutFirst | server/adapters/bridge/json_lines_client.go:164-179 | whatever timeout is asked for, the bridge's own wait is over with more than 4.97 seconds of the client's budget left |
| Contract.FieldsAccepted | shared/nvda_mcp_wire/protocol.py:299-308 | an object is accepted exactly when every field is: present and coerced, or missing with a default |
| Contract.FieldsMeaning | shared/nvda_mcp_wire/protocol.py:299-308 | an accepted object has one attribute per field, each its coerced member or default, and no extra ones |
| Contract.CoercedHasType | shared/nvda_mcp_wire/protocol.py:204-280 | what the validator returns has the type it was asked for |
| Contract.DecodeUndoesEncode | shared/nvda_mcp_wire/protocol.py:283-315 | for every value of every type whose unions are Optional, decoding its JSON gives the value back |
| Contract.DecodeIsFixpoint | shared/nvda_mcp_wire/protocol.py:283-315 | one trip through the validator and back settles any accepted value |
| Contract.UnionOfClassesIsNoFixpoint | shared/nvda_mcp_wire/protocol.py:209-221 | why unions other than Optional are left out there: with one of two classes a concrete value decodes to one class and, encoded again, to the other |
| Contract.Coerce | shared/nvda_mcp_wire/protocol.py:204-280 | the recursion with its loops computes the specification, error cases included |
| Contract.FromDict | shared/nvda_mcp_wire/protocol.py:296-308 | the field loop computes the specification for a class |
| Schema.SchemaMeansValidator | shared/nvda_mcp_wire/schema.py:56-108 | a value is valid against the generated schema exactly when the validator accepts it with its whole-valued numbers written as integers |
| Schema.ClassMeansValidator | shared/nvda_mcp_wire/schema.py:111-132 | the same for a class and its object schema, through required and properties |
| Schema.IntegralIsAccepted | shared/nvda_mcp_wire/protocol.py:260-267 | what the validator accepts it also accepts with whole numbers written as integers |
| Schema.AcceptedIsValid | shared/nvda_mcp_wire/schema.py:56-132 | every accepted value is schema-valid, and without whole-valued fractional numbers the two coincide |
| Schema.Generator.SchemaFor | shared/nvda_mcp_wire/schema.py:56-108 | emits the fragment the type means, adds only finished classes with all their references, terminates on any table |
| Schema.Generator.UnionSchema | shared/nvda_mcp_wire/schema.py:66-77 | the options in order, null last, a single option unwrapped |
| Schema.Generator.DefineClass | shared/nvda_mcp_wire/schema.py:87-92 | the entry reserved first ends as the class's own full schema |
| Schema.Generator.ObjectSchema | shared/nvda_mcp_wire/schema.py:111-132 | properties in field order, required exactly the fields without default |
| Schema.EmitCommand | shared/nvda_mcp_wire/schema.py:148-153 | a command's entry names its parameter and result classes, null for no parameters |
| Schema.EmitCommands | shared/nvda_mcp_wire/schema.py:147-153 | one entry per command, in order, every class they name defined |
| Schema.ReachableIsClosed | shared/nvda_mcp_wire/schema.py:87-92 | the classes reachable from the roots are closed under references |
| Schema.BuildWireSchema | shared/nvda_mcp_wire/schema.py:135-161 | the definitions are exactly the classes reachable from the envelope and the commands, each with its own full schema, and every reference resolves |
| WireGen.GoType | server/tools/wiregen/main.go:209-277 | the branches compute the type of a decoded fragment, or refuse it |
| WireGen.NodeHasType | server/tools/wiregen/main.go:209-277 | that type is the one read off the schema itself: references by last segment, one concrete alternative through, anything open raw |
| WireGen.NoDoublePointer | server/tools/wiregen/main.go:279-295 | no type has two pointer levels, making a type nilable twice changes nothing, and a pointer never points at a type with a nil of its own |
| WireGen.KeyIdentifiesValues | server/tools/wiregen/main.go:175-180 | two value sets have the same key exactly when they hold the same values, as long as no value contains the separator |
| WireGen.KeySpellsValues | server/tools/wiregen/main.go:175-180 | a non-empty value set consists of the parts its key spells, and so is the type's own set when it goes by a Go name, exactly when none of its values contains the separator |
| WireGen.SeparatorInValue | server/tools/wiregen/main.go:175-180 | a set whose one value contains the separator takes another set's key and Go name |
| WireGen.EnumWalk.Walk | server/tools/wiregen/main.go:377-412 | the recursive walk collects the string enums of a fragment, its items, its alternatives and its properties in order, first set per name kept, and stops exactly at the first set without a name |
| WireGen.EmitEnums | server/tools/wiregen/main.go:375-422 | the same for a whole document |
| WireGen.EmitStruct | server/tools/wiregen/main.go:441-479 | fields in schema order, a field not required made nilable and omitted when empty; refused for anything but an object |
| WireGen.EmitStructs | server/tools/wiregen/main.go:441-479 | one struct per definition, or none at all when one is refused |
| WireGen.Generate | server/tools/wiregen/main.go:348-358 | types come out exactly when both passes succeed |
| WireBinding.GeneratedIsFaithful | server/tools/wiregen/main.go:375-479 | for a document whose references resolve and whose enums are non-empty without separator: every struct mirrors its definition and every enum name stands for its own values |
| WireBinding.EveryFieldIsSound | server/tools/wiregen/main.go:441-479 | every type a field names is declared, none has two pointer levels, and a field that may be left out can say absent |
| WireBinding.EnumIsDeclared | server/tools/wiregen/main.go:378-391 | a value set in the document has exactly its own values behind its Go name |
| WireBinding.MarshalIsValid | server/tools/wiregen/main.go:209-295 | every value of a fragment's Go type, filled as asked, marshals to JSON the fragment accepts |
| WireBinding.ValidIsFilled | server/tools/wiregen/main.go:209-295 | and only such values do |
| WireBinding.MarshalledStructIsValid | server/tools/wiregen/main.go:441-479 | a struct value marshals to JSON valid against its definition exactly when its raw members hold valid JSON and nil stands only where null is allowed or the member is left out |
| WireBinding.MarshalledStructIsAccepted | shared/nvda_mcp_wire/protocol.py:283-308 | the whole chain: what a generated struct marshals to is accepted by the validator of the table the schema was generated from, up to whole-valued numbers |
| Buffers.WindowIsProper | bridges/nvda/addon/globalPlugins/nvdaMcpBridge/domain/entities/indexed_buffer.py:75-87 | a read is a proper window exactly when its bookmark is no greater than the log's length; above it the text is empty and from exceeds to |
| Buffers.WindowsTile | bridges/nvda/addon/globalPlugins/nvdaMcpBridge/domain/entities/indexed_buffer.py:75-87 | however captures and reads interleave, windows read from an issued bookmark lie end to end, stay in range, hold their own slices, and together are one read of the whole span |
| Buffers.ReadSince | bridges/nvda/addon/globalPlugins/nvdaMcpBridge/domain/entities/indexed_buffer.py:83-87 | the non-blank renderings from the bookmark on, joined by newlines, with the range |
| Buffers.FirstStays | bridges/nvda/addon/globalPlugins/nvdaMcpBridge/domain/entities/speech_buffer.py:84-95 | the first match in a log stays the first match in every longer log |
| Buffers.NextCaptureIsPassedOver | bridges/nvda/addon/globalPlugins/nvdaMcpBridge/domain/entities/speech_buffer.py:84-95 | a search strictly after a fresh bookmark passes over the very next capture, which one from the index before it finds |
| Buffers.SleepsReachDeadline | bridges/nvda/addon/globalPlugins/nvdaMcpBridge/domain/entities/indexed_buffer.py:95-101 | the number of sleeps is the least that reaches the deadline |
| Buffers.WaitOvershoots | bridges/nvda/addon/globalPlugins/nvdaMcpBridge/domain/entities/indexed_buffer.py:89-101 | a wait that finds nothing lasts its timeout, at least zero, plus less than one poll interval |
| Buffers.SpeechBuffer.Append | bridges/nvda/addon/globalPlugins/nvdaMcpBridge/domain/entities/speech_buffer.py:69-77 | the log grows by the sequence, the time and flag are set, and the observer hears exactly a non-empty text |
| Buffers.SpeechBuffer.GetSince | bridges/nvda/addon/globalPlugins/nvdaMcpBridge/domain/entities/indexed_buffer.py:75-87 | a read of the rendered log |
| Buffers.SpeechBuffer.IndexOf | bridges/nvda/addon/globalPlugins/nvdaMcpBridge/domain/entities/speech_buffer.py:84-95 | the least index strictly after the bookmark whose text contains the needle, found exactly when the bookmark is at least -1 and there is one |
| Buffers.SpeechBuffer.Wait | bridges/nvda/addon/globalPlugins/nvdaMcpBridge/domain/entities/indexed_buffer.py:89-101 | polls at once and then every interval, ends at the first poll that finds what it waits for, and gives up only after exactly as many sleeps as make up the timeout, whatever other threads append meanwhile |
| Buffers.SpeechBuffer.WaitFor | bridges/nvda/addon/globalPlugins/nvdaMcpBridge/domain/entities/speech_buffer.py:97-113 | found by the first poll whose log had a match, and then the first match, still first in the log now; on a miss no poll saw one, the last of them a full timeout after the call, and the index is a fresh bookmark |
| Buffers.SpeechBuffer.WaitToFinish | bridges/nvda/addon/globalPlugins/nvdaMcpBridge/domain/entities/speech_buffer.py:115-123 | true at the first poll that finds speech finished; false only after the full timeout, no poll having found it |
| Buffers.OneMoreUpdate | bridges/nvda/addon/globalPlugins/nvdaMcpBridge/domain/entities/braille_buffer.py:31-40 | comparing with the last text kept is comparing with the last non-empty text received |
| Buffers.DestutteredHasNoRepeats | bridges/nvda/addon/globalPlugins/nvdaMcpBridge/domain/entities/braille_buffer.py:17-23 | no two neighbouring entries are equal |
| Buffers.BrailleBuffer.Append | bridges/nvda/addon/globalPlugins/nvdaMcpBridge/domain/entities/braille_buffer.py:31-40 | the log is always the sentinel and then the stripped non-empty stream with every run of repeats collapsed |
| SessionTrace.RequestIsContract | bridges/nvda/addon/globalPlugins/nvdaMcpBridge/domain/controllers/session.py:186-190 | a frame is taken for a request exactly when the contract's validator accepts it as one |
| SessionTrace.NextMemory | bridges/nvda/addon/globalPlugins/nvdaMcpBridge/domain/controllers/session.py:163-181 | the state a session keeps, updated turn by turn, is the last time heard, the last resetting dispatch and the phase of its whole history, and gives its verdict |
| SessionTrace.NothingElsePostpones | bridges/nvda/addon/globalPlugins/nvdaMcpBridge/domain/controllers/session.py:166-181 | after any number of pings, unreadable lines, invalid requests, unknown commands and repeated hellos the session ends at the first check the inactivity window has passed at since the last command that counts, and a session that goes on has not reached it |
| SessionTrace.SilenceIsMeasured | bridges/nvda/addon/globalPlugins/nvdaMcpBridge/domain/controllers/session.py:166-176 | a silent peer is given up on exactly when the heartbeat window has passed since it was last heard |
| SessionTrace.CommandAndWindows | bridges/nvda/addon/globalPlugins/nvdaMcpBridge/domain/controllers/session.py:204-222 | a command that counts, a wait or an operation that blocks on the reader, ends its own session exactly when it takes a window's length |
| SessionTrace.OneEnd | bridges/nvda/addon/globalPlugins/nvdaMcpBridge/domain/controllers/session.py:128-161 | a history has one end: it is never both ended and raised, and not for two reasons |
| JsonText.DepthDecides | shared/nvda_mcp_wire/protocol.py:331-333 | a decoder gives up only on text nested deeper than its recursion goes, and takes none that is |
| JsonText.JsonGivesUp | shared/nvda_mcp_wire/protocol.py:331-333 | on JSON text it gives up exactly when brackets outside strings are nested deeper, which a caller can count |
| SessionTrace.FatalLines | shared/nvda_mcp_wire/protocol.py:327-336 | two kinds of line that raise something the session does not catch: one byte that is no UTF-8, and one bracket more than the decoder goes deep |
| SessionTrace.FatalJson | shared/nvda_mcp_wire/protocol.py:327-336 | JSON text is such a line exactly when it is nested deeper than the decoder's limit |
| SessionTrace.FatalLineIsFatal | bridges/nvda/addon/globalPlugins/nvdaMcpBridge/domain/controllers/session.py:128-147 | no history in which a hello succeeded within the windows and the next line is fatal ends in good order |
| SessionTrace.FatalLineHappens | bridges/nvda/addon/globalPlugins/nvdaMcpBridge/domain/controllers/session.py:128-147 | there is such a history for every fatal line: the hello succeeds at once, and the next read raises |
| SessionTrace.ReadTakes | bridges/nvda/addon/globalPlugins/nvdaMcpBridge/adapters/json_lines_channel.py:57-69 | a read of the session takes one idle poll at most, and the time that data kept coming in |
| SessionTrace.DripsHoldTheLoop | bridges/nvda/addon/globalPlugins/nvdaMcpBridge/adapters/json_lines_channel.py:57-69 | and no less: a peer that sends a byte at a time and no newline keeps the session in one read, and its watchdogs unchecked, for as long as the bytes come |
| SessionTrace.ShortWaitIsSafe | bridges/nvda/addon/globalPlugins/nvdaMcpBridge/domain/controllers/commands/wait_for_speech.py:4-23 | a wait whose timeout plus one poll interval fits both windows cannot trip a watchdog |
| SessionTrace.LongWaitEndsSession | bridges/nvda/addon/globalPlugins/nvdaMcpBridge/domain/controllers/commands/wait_for_speech.py:4-23 | with the default windows a wait that finds nothing is survived exactly up to a timeout of 29.97 seconds |
| Session.JsonLinesChannel.ReadMessage | bridges/nvda/addon/globalPlugins/nvdaMcpBridge/adapters/json_lines_channel.py:51-69 | exactly what the buffer and the script of the transport give next, and exactly when: the next line, decoded, or anything else only when every complete frame that arrived has been read |
| Session.SpeechSource.Start | bridges/nvda/addon/globalPlugins/nvdaMcpBridge/adapters/nvda_silent_speech_source.py:46-49 | silent mode registers its filter unless registering raised |
| Session.SpeechSource.Stop | bridges/nvda/addon/globalPlugins/nvdaMcpBridge/adapters/nvda_silent_speech_source.py:51-55 | idempotent, and the filter is unregistered |
| Session.SessionContext.RequestTeardown | bridges/nvda/addon/globalPlugins/nvdaMcpBridge/domain/controllers/session.py:115-124 | the first request wins |
| Session.ExecuteHello | bridges/nvda/addon/globalPlugins/nvdaMcpBridge/domain/controllers/commands/hello.py:44-83 | a hello that returns has built everything once and started it; one that fails half way leaves what it built installed; an invalid or mismatched one touches nothing |
| Session.Execute | bridges/nvda/addon/globalPlugins/nvdaMcpBridge/domain/controllers/commands/session_context.py:69-82 | an operational handler runs only over a fully built context; a wait takes no longer than its timeout makes it and returns exactly for valid parameters, ping and bye take no time, others any time; only bye asks for teardown |
| Session.Session.CheckDeadline | bridges/nvda/addon/globalPlugins/nvdaMcpBridge/domain/controllers/session.py:166-181 | the heartbeat window first, then inactivity once established; a reason already set stands |
| Session.Session.OnUnreadable | bridges/nvda/addon/globalPlugins/nvdaMcpBridge/domain/controllers/session.py:154-161 | ends a handshake; mid-session it is a sign of life and is survived exactly when the transcript can note it |
| Session.Session.ReplyCommandError | bridges/nvda/addon/globalPlugins/nvdaMcpBridge/domain/controllers/session.py:265-281 | one reply to a known id, a note without one, and the end of a handshake |
| Session.Session.Dispatch | bridges/nvda/addon/globalPlugins/nvdaMcpBridge/domain/controllers/session.py:185-222 | at most one handler, hello exactly before the handshake; one reply attempt for an integer id; established exactly by a hello that returned, and a handshake that fails otherwise; the inactivity time moves exactly for a dispatched command that resets it; raises exactly when it has an error without an id to note and the transcript raises |
| Session.Session.Heed | bridges/nvda/addon/globalPlugins/nvdaMcpBridge/domain/controllers/session.py:133-147 | each turn does to phase, times, replies and reason what the history says |
| Session.Session.TakeTurn | bridges/nvda/addon/globalPlugins/nvdaMcpBridge/domain/controllers/session.py:128-147 | one pass of the loop, begun only while nobody has asked for teardown, hears exactly what is there to read; it raises exactly over a broken transport, a fatal line or a transcript that raises over what can only be noted, so in an established session whose transcript does not raise a popped line ends the loop by an exception if and only if its bytes are not UTF-8 or the decoder gives up on its nesting |
| Session.Session.Loop | bridges/nvda/addon/globalPlugins/nvdaMcpBridge/domain/controllers/session.py:128-152 | terminates; ends by the verdict of its last turn, by a request, or by an end of the channel that is what the next read gives, and by an exception exactly when the world has one next; no turn begins once teardown was asked for |
| Session.Session.Teardown | bridges/nvda/addon/globalPlugins/nvdaMcpBridge/domain/controllers/session.py:226-263 | runs once; every applicable step is attempted in order; the speech filter is back to what it was; the channel is closed once |
| Session.Session.Run | bridges/nvda/addon/globalPlugins/nvdaMcpBridge/domain/controllers/session.py:105-113 | the history is anchored: its turns hear exactly what the transport gave, each as soon as its read takes after the one before, its lines are the ones popped, and the clock is where its last read or turn ended. However a session ends, exceptions out of the loop included, it is torn down once and completely and leaves no filter registered; replies, phase and end are those of that history; the factory was called at most once and established means fully built |
| Session.LoseToOneByte | shared/nvda_mcp_wire/protocol.py:327-336 | a session that says hello and then sends one byte that is no UTF-8 is ended by an exception, if hello succeeded within its windows |
| Session.LoseToNesting | shared/nvda_mcp_wire/protocol.py:327-336 | and so is one that sends one bracket more than the decoder goes deep |
| Session.LoseToLine | bridges/nvda/addon/globalPlugins/nvdaMcpBridge/domain/controllers/session.py:128-147 | and so is one that sends any fatal line |
| BridgeServer.RunKeepsInv | bridges/nvda/addon/globalPlugins/nvdaMcpBridge/adapters/bridge_server.py:105-211 | the status, thread and stop-flag invariants hold in every state of every interleaving |
| BridgeServer.CallerKeepsInv | bridges/nvda/addon/globalPlugins/nvdaMcpBridge/adapters/bridge_server.py:105-150 | every lock section of start and stop keeps them |
| BridgeServer.ThreadKeepsInv | bridges/nvda/addon/globalPlugins/nvdaMcpBridge/adapters/bridge_server.py:154-211 | every step of a server thread keeps them |
| BridgeServer.StoppedMeansNoEndpoint | bridges/nvda/addon/globalPlugins/nvdaMcpBridge/adapters/bridge_server.py:99-103 | in every reachable state the server is stopped exactly when it has no endpoint |
| BridgeServer.StopMissesNoSession | bridges/nvda/addon/globalPlugins/nvdaMcpBridge/adapters/bridge_server.py:135-140 | with the stop flag up, a session in run() has been asked to tear down or the stop caller holds it and asks next |
| BridgeServer.AskedBeforeJoining | bridges/nvda/addon/globalPlugins/nvdaMcpBridge/adapters/bridge_server.py:139-143 | once the caller has asked and goes on to join, every session in run() was asked |
| BridgeServer.StopIsFinal | bridges/nvda/addon/globalPlugins/nvdaMcpBridge/adapters/bridge_server.py:144-150 | when stop returns there is no session, no endpoint, no speech filter, the joined thread has exited and no thread can touch the state |
| BridgeServer.SuppressedOnlyInRun | bridges/nvda/addon/globalPlugins/nvdaMcpBridge/adapters/bridge_server.py:185-207 | a speech filter is in place only while a session runs, and it is that session's own, however those before it ended, given that each run leaves the filters it found (Session.Session.Run); at most one session runs |
| BridgeServer.StoppedIsQuiet | bridges/nvda/addon/globalPlugins/nvdaMcpBridge/adapters/bridge_server.py:173-183 | while stopped there is no filter and no active session, and no thread has more left than a notification |
| BridgeServer.StopWorkDescends | bridges/nvda/addon/globalPlugins/nvdaMcpBridge/adapters/bridge_server.py:124-150 | while a stop is on, every step of its caller and of the thread it joins brings it nearer its end, and nothing takes it back |
| BridgeServer.StopGoesOn | bridges/nvda/addon/globalPlugins/nvdaMcpBridge/adapters/bridge_server.py:124-211 | there is always such a step to take, or the running session takes its filter off and then returns: a stop is never stuck |
| BridgeServer.StopIsBounded | bridges/nvda/addon/globalPlugins/nvdaMcpBridge/adapters/bridge_server.py:124-211 | so a stop is over after at most sixteen such steps, whatever else happens between them |
| ToolCatalog.AllowedMeaning | server/domain/entities/tool_catalog.go:71-79 | a gated tool is allowed exactly when its own capability was announced |
| ToolCatalog.NeverBoth | server/domain/entities/tool_catalog.go:56-79 | no ungated tool is ever among the allowed ones |
| ToolCatalog.Catalog.Allowed | server/domain/entities/tool_catalog.go:71-79 | the loop gives the allowed names in table order |
| ToolCatalog.Catalog.Ungated | server/domain/entities/tool_catalog.go:56-64 | the loop gives the ungated names in table order |
| Connection.ConnectionController.Connect | server/domain/controllers/connection.go:100-139 | dials exactly when the reader is known and nothing is live, that reader's endpoints, and their results are what the endpoints answered over the wire; afterwards connected to the one that welcomed us with exactly the allowed tools published, or not, incompatible exactly after a version mismatch |
| Connection.ConnectionController.Adopt | server/domain/controllers/connection.go:125-137 | a session is published with exactly the tools its announced capabilities allow |
| Connection.ConnectionController.Disconnect | server/domain/controllers/connection.go:145-169 | says bye over a live client, and then only the ungated tools are left and the transport has been closed once |
| Connection.ConnectionController.Verify | server/domain/controllers/connection.go:190-212 | a real ping over a live client, with the outcome the wire has for it; the session ends exactly when the ping, or an earlier call, found the connection lost, it is alive exactly when the ping was answered with a result, and any other answer changes nothing |
| Connection.ConnectionController.Lose | server/domain/controllers/connection.go:295-310 | the session is dropped, its transport closed once and its tools retracted |
| Connection.ConnectionController.Clear | server/domain/controllers/connection.go:317-328 | exactly what was published is retracted |
| Connection.ConnectionController.RunHeartbeat | server/domain/controllers/connection.go:221-242 | every beat over a session is one ping, no faster than the interval; it never opens a session, ends one exactly at the first ping that finds it lost, and never drops a peer that stays connected, however silent and for however many beats |
| Connection.ConnectionController.Beat | server/domain/controllers/connection.go:229-240 | one beat: the interval, then one verification; a silent connected peer stays one |
| Connection.ConnectionController.Find | server/domain/controllers/connection.go:251-257 | finds a reader exactly when its name is configured |
| Dispatcher.ToolDispatcher.Execute | server/domain/controllers/tools/dispatcher.go:59-74 | which tools open a session, end it, check it or use it; a session ends by disconnecting, by a check that finds it lost or by a bridge tool's call that does, and every other call leaves it; a bridge tool's call that comes to neither a loss nor a timeout leaves a closed client behind, with a peer that writes its replies, exactly when an earlier call on it had timed out |
| Dispatcher.ToolDispatcher.OverBridge | server/domain/controllers/tools/dispatcher.go:62-73 | one round trip with the tool's own command, and the re-check after a lost connection before the answer is returned |
| Dialing.HandOver | server/adapters/bridge/handshake.go:166-189 | each port is handed over exactly for its own capability |
| Dialing.Hello | server/adapters/bridge/handshake.go:115-191 | one hello with the chosen mode and our version, ending as the wire has it; welcome exactly for an understood answer of a supported version, mismatch exactly for one of another, failure for anything else |
| Dialing.Dialer.DialOne | server/adapters/bridge/handshake.go:93-112 | the result is the endpoint's answer: what one hello over that transport comes to, or that it was not reached; a transport opened without a session coming of it has been closed exactly once, whoever closed it |
| Dialing.Dialer.Dial | server/adapters/bridge/handshake.go:58-90 | the results are the endpoints' own answers, in order, up to the first welcome or mismatch; every transport opened but the winner's has been closed exactly once; no mode or no endpoints dials nothing |
| Config.SpellingIsKept | server/domain/entities/endpoint.go:45-65 | an accepted spelling is spelled the same again |
| Config.ParsedBack | server/domain/entities/endpoint.go:45-65 | an endpoint survives being spelled and parsed exactly when it has an address, a TCP one with a colon |
| Config.OneMoreEntry | server/config/loader.go:215-223 | one more entry in a layer is one replacement in place, or an addition at the end |
| Config.LayeredMeaning | server/config/loader.go:92-146 | each configured name once, in order of first appearance, with all endpoints of its last entry |
| Config.HighestLayerWins | server/config/loader.go:92-146 | a name's endpoints are all of its highest layer's and nothing of those below |
| Config.FlagsAreGrouped | server/config/loader.go:179-210 | a name given by flags has all of its flags' endpoints, in order |
| Config.Loader.ReplaceReader | server/config/loader.go:215-223 | the loop overrides the first reader of that name in place, or appends |
| Config.ReadDocument | server/config/loader.go:157-177 | a document is read entry by entry and refused whole at the first bad one |
| Config.ReadersFromFlags | server/config/loader.go:186-210 | the loop groups the flags by name in order of first appearance, and refuses them all at the first bad one |
| Config.Load | server/config/loader.go:104-146 | loading is layering, and fails exactly when a layer is refused |

## Left out

- The operating system leaves: pipes, sockets, ctypes, NVDA's hooks, tones, log handlers and gestures. A transport is a script of chunks, idle reads, ends and failures; the speech filter is a set of registered handlers.
- JSON as text. The protocol assumes a codec whose decoding undoes its encoding, where it can encode at all, and whose output holds no raw newline (section 7 of RFC 8259 escapes control characters in strings); the session takes as a function what its decoder makes of a text that scans as JSON.
- Rounding of floating-point numbers: numbers and times are reals, and a number JSON writes with an exponent stays a fraction. Infinities and NaN are not values here, although the bridge's decoder reads them as numbers and its encoder writes them as names, which the client does not decode; nor is an integer too large for a float, which a wait refuses.
- The MCP binding, the info resource, the per-tool controllers, the reader listing, the pipe probe, the dialog, the transcript's text and the event bus, which swallows whatever its observers raise.
- BridgeServer.RunKeepsInv: the server is a machine of lock-granularity steps over values, not a class, because its point is the interleaving of two threads; several concurrent callers of stop are not modelled, the code promises nothing for them.
- BridgeServer.StopIsBounded: that the steps are taken at all: the threads are scheduled, the listener returns, and a session that was asked to end returns, which it does without another turn (Session.Session.Loop), once the handler it is in does.
- SessionHalf.SessionIsItsHalf: what the replies hold, and how much of each gets out, are given; the class knows only whether it was a result.
- Connection.ConnectionController.Connect: each method is one atomic step; the code releases its lock while it dials, pings and publishes, and finer interleavings do not keep the invariant. The dialing reason texts and the status reason are not modelled.
- Dispatcher.ToolDispatcher.Execute: what a bridge tool makes of its answer, and the check after a connection lost while a connect tool dials, which finds no session to verify.
- JsonLinesClient.JSONLinesClient.Call: what a result decodes to is left to the caller; a result that does not decode is an error that costs the connection nothing, as in the code. AwaitLine leaves the popping of the frame to JudgeLine, where the code has one function for both. A transport that takes nothing forever would keep the write loop going; scripts of writes are finite here. Writes take no time, nor does finding a connection ended; the budget starts when the request is written.
- Dialing.Hello: of the session's descriptive fields only the reader's name, mode, version and capabilities are kept.
- Session.Execute: the operational commands' own results are not modelled, nor the log capture and transcript beyond whether they raise. The context holds the teardown request that the code keeps on the session under its own lock; another thread's request is seen during the read or after the handler of a turn, which is where it can make a difference.
- Contract.DecodeUndoesEncode: types whose unions are all Optional, as those of every class of the contract are.
- Buffers.SpeechBuffer.Wait: other threads act between polls, not within one; a poll holds the lock throughout.
- WireGen.Generate: the Go source text, exported field names and their collisions, and the command and version constants. Types are trees rather than strings, and the sorted order of types and definitions, which nothing depends on, is not kept.
- WireBinding.MarshalledStructIsAccepted: numbers with a zero fractional part inside raw members, and floats from 1e21 on, are compared after writing them as integers, the one thing JSON Schema cannot tell apart (Validation section 6.1.1 of draft 2020-12).
- Schema.Generator.SchemaFor: types outside the contract's constructs fall through to an empty schema in the code and have no counterpart here, as have dictionaries with keys other than strings; object schemas always allow additional properties, so that keyword is part of every definition rather than a field of it. Annotations by name (`$schema`, `title`) are not modelled.
- Contract.Coerce: error messages and paths; the dictionary loop takes the entries in any order.
- Config.Load: reading and decoding the file is one of three outcomes given to it.
- Connecting capabilities to tools by `CapabilityOf`, `Gated` and `Capabilities`: lookups that nothing here depends on.
