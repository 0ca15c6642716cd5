# ComFlux core: framing, handshake, matching, bridge

This project models the hard parts of the ComFlux middleware core and proves properties of them.
ComFlux components are processes; each runs beside a core. A component and its core, and two
cores, exchange messages over byte streams that one incremental scanner cuts into frames. Cores
authenticate each other with a HELLO / AUTH / MAP handshake driven by callbacks, match endpoints
with queries over JSON documents, and may be joined by channels over an MQTT broker.

Code that changes things step by step (the framer, the codecs' encoders and decoders, the connection
state, the access lists, the bridge) is imperative here: classes and loops, each tied by its
`ensures` to a function of the inputs or of the old state. What the program promises is then proved
of those functions, over all inputs and all runs. Protocols are state machines over their steps.

## Files

| file | subject |
|---|---|
| `Framer.dfy` | the six-state scanner, in place and declaratively; what the frames of a stream are |
| `FrameGrammar.dfy` | the same frames as trees of a context-free grammar |
| `CFormat.dfy` | fixed-width printf/scanf conversions, message identifiers, C strings |
| `CallCodec.dfy` | calls from component to core: encoder, decoder, whole streams |
| `AppCodec.dfy` | replies and events from core to component; blocking calls end to end |
| `JsonText.dfy` | JSON objects (RFC 8259, sections 2 to 7) as frames |
| `SchemaHash.dfy` | the schema hash modulo 2^64 |
| `AccessLists.dfy` | access lists over whole runs of add and remove |
| `Connection.dfy` | one connection: handlers, guards, safety under any inbound messages, and what any run sends, delivers and closes |
| `Handshake.dfy` | two connections joined by two channels, and the thread that maps |
| `CoreMap.dfy` | `core_map` on one connection against any peer |
| `MapOutcome.dfy` | the result of `core_map` in terms of the peer's registered endpoints |
| `EndpointMatch.dfy` | queries, filters and the choice of an endpoint |
| `MappingLists.dfy` | the lists of mapped connections and the fan-out over them |
| `MqttBridge.dfy` | one bridge process: channels and the two tables |
| `MqttNetwork.dfy` | any number of bridge processes joined by a broker |

## Findings

Where the code does not keep what one would expect of it, the model follows the code, and the
exact condition is proved:

- An empty argument ends the argument list of a call: a stream of calls arrives unchanged if and
  only if no argument is empty (`CallCodec.CallStreamRoundTrip`).
- Of a call whose function id is shorter than its 17 bytes the return type and the message identifier
  are never read, so that it is dispatched with whatever those variables hold
  (`CallCodec.ShortFunctionIdIsLost`); a call comes back exactly if no identifier holds a blank or a
  NUL and every argument is sendable (`CallCodec.CallRoundTrip`).
- A blocking call is woken by its own reply if and only if that reply is completed after the waiting
  flag is set and no event handled before it finds the call's identifier left over in the variable
  that events are compared by but never write (`AppCodec.BlockingCallReturnsItsOwnResult`).
- The component reads back an integer result if and only if it is above -10^9; below, the last digit
  is lost (`CFormat.IntResultSurvives`, at any width `CFormat.SignedReadsBack`).
- A string clause of a filter is an equality whatever its sign: its verdict is the one the sign asks
  for on every document if and only if the sign starts with `=`
  (`EndpointMatch.StringClauseHonouredIff`; `EndpointMatch.StringVerdict` says on which documents it
  is right, and `EndpointMatch.DifferenceAcceptsEqual` is an input on which `!=` accepts an equal
  value).
- The query of a MAP compares schemas only of endpoints that have a response schema, so sources and
  sinks are matched by type alone (`EndpointMatch.QueryVersusMatchTests`).
- A MAP asked for on a connection that is mapped already leaves that connection in the list of an
  endpoint it no longer belongs to, or twice in one list (`MappingLists.MapToKeepsListsIff`,
  `MappingLists.MappingTwiceDuplicates`).
- `core_map` can report an error for a connection that is mapped, exactly when the last
  MAP of the peer handled before its own was sent failed its schema or found no endpoint
  (`CoreMap.ResultTellsOutcome`, `CoreMap.StaleFlag`).
- An endpoint's access list asked for while the component's is missing makes the code dereference a
  null table (`AccessLists.MissingComponentListFails` is a run that does). A run in which no call
  names the component explicitly succeeds if and only if each call that adds to an endpoint comes
  after one that adds to the component (`AccessLists.RunSucceedsIff`). The component's list can be
  dropped only by a removal that names it explicitly; runs that do so fail exactly where such a list
  is missing (`AccessLists.RunFailsIff`).
- Message identifiers increase exactly up to 10^10 - 1 (`CFormat.IdsIncreaseIff`).
- The two tables of the bridge agree after a connect if and only if the random topic is unused
  (`MqttBridge.ConnectKeepsTablesIff`).

## Model

| member | source | states |
|---|---|---|
| `Framer.Buffer.Update` | src/core/state.c:129-241 | the in-place scan of one chunk, with `word_start` and the held-back bytes, emits the messages and leaves the data, mode and depth of the one-pass scan |
| `Framer.Buffer.UpdateAll` | src/core/core_callbacks.c:29-36 | any sequence of chunks leaves and emits what one scan of the joined bytes does |
| `Framer.Buffer.Set` | src/core/state.c:58-74 | appends exactly the given slice to the held-back data |
| `Framer.ChunkingInvariance` | src/core/state.c:129-241 | from every scanner state, scanning x then y equals scanning x + y: same messages, data, mode and depth |
| `Framer.FeedFromEmptyInbox` | src/core/state.c:129-241 | messages handed up earlier never influence the scan |
| `Framer.FramesBackToBack` | src/core/state.c:156-190 | frames sent back to back are handed up one by one, whatever came before |
| `Framer.StepKeepsPlace` | src/core/state.c:137-240 | between bytes the mode is FINAL exactly when the depth is 0 and nothing is held back, and what closes is a frame |
| `Framer.ScannedIsPartition` | src/core/state.c:137-240 | emitted frames, skipped brace-free gaps and the open tail partition any input |
| `Framer.PartitionIsScanned` | src/core/state.c:137-240 | any partition of a stream into gaps, frames and an open tail is the one the scanner finds |
| `Framer.FramesArePartition` | src/core/state.c:137-240 | the scanner's frames are those of the stream's partition, and there is no other: both directions |
| `Framer.EmittedAreFrames` | src/core/state.c:141-189 | every message starts with an opening brace, ends with a closing one, and no proper prefix is balanced |
| `FrameGrammar.BalancedIffPrinted` | src/core/state.c:156-233 | the scanner's balance is that of a grammar of braces, quoted runs and escapes |
| `FrameGrammar.FrameIffTree` | src/core/state.c:137-240 | a text is one message exactly if it is a braced tree of that grammar |
| `FrameGrammar.PrintedSequenceIsRecovered` | src/core/state.c:129-241 | printed trees separated by brace-free bytes are recovered one by one |
| `FrameGrammar.WrappedLevelIsFrame` | src/core/state.c:156-190 | a braced text is a frame exactly if its inside is balanced |
| `CFormat.ScanTen` | src/core/state.c:106 | ten printed digits are read back whole, whatever follows |
| `CFormat.PaddedIsFixed` | src/api/middleware.c:326 | padding to a width that holds the number gives its digits in that width |
| `CFormat.NatLength` | src/common/message.c:205 | a number prints in w digits or fewer exactly if it is below 10^w |
| `CFormat.SignedReadsBack` | src/core/core_module_api.c:571-573 | at any width, a number that fits without its sign is read back whole exactly if it fits with it, and without its last digit otherwise |
| `CFormat.SignTakesAPlace` | src/core/state.c:106 | blanks before a number are free, a plus or minus takes one of the places, and as many digits as are left are read |
| `CFormat.IntWraps` | src/core/state.c:106 | a number that does not fit an int loses a multiple of 2^32 |
| `CFormat.IntResultSurvives` | src/api/endpoint.c:257 | the value the component reads of a printed integer result is that integer exactly if it is above -10^9 |
| `CFormat.IdSource.GenerateId` | src/common/message.c:200-208 | returns the identifier of the counter and advances it modulo 2^64 |
| `CFormat.IdsIncrease` | src/common/message.c:200-208 | below 10^10 identifiers have ten characters, are distinct and increase in strcmp order: both directions |
| `CFormat.IdsIncreaseIff` | src/common/message.c:200-208 | the identifiers up to the n-th increase exactly if n is below 10^10 |
| `CFormat.OrderBreaks` | src/common/message.c:200-208 | at any width the order breaks at the first number that does not fit it |
| `CFormat.PaddedOrderIff` | src/common/message.c:200-208 | numbers up to n padded to a width increase exactly if all of them fit it |
| `CallCodec.CallModuleFunction` | src/api/middleware.c:297-344 | the piecewise encoder with its argument loop writes the encoding of the call; its first four parameters are the memory from each pointer on |
| `CallCodec.AppSet` | src/core/state.c:76-127 | the header scan and the loop that advances `head` from offset 48 compute the decoding |
| `CallCodec.LengthFieldReadsBack` | src/core/state.c:106-120 | a printed length is scanned back exactly if it fits an int |
| `CallCodec.ArgsReadBack` | src/core/state.c:99-121 | an argument list is read back exactly if every argument is non-empty and at most INT_MAX long |
| `CallCodec.ArgsStopAtEmpty` | src/core/state.c:106-121 | otherwise the arguments up to the first empty one arrive |
| `CallCodec.CallRoundTrip` | src/core/state.c:76-127 | decoding an encoded call gives it back exactly if its identifiers hold no blanks or NULs and its arguments are sendable |
| `CallCodec.StopsAreBlanks` | src/core/state.c:88-89 | a header field stops at white space and NUL, by code, and nowhere else |
| `CallCodec.VisibleCallRoundTrip` | src/core/state.c:88-89 | every sized call whose identifiers are printable characters, underscores among them, and whose arguments have 1 to 2^31 - 1 characters decodes to itself |
| `CallCodec.VisibleStreamRoundTrip` | src/core/state.c:76-127 | and a stream of such calls arrives as the list sent |
| `CallCodec.DecodesIff` | src/core/state.c:76-127 | of any text at all: it decodes to a call exactly if its header scans to the identifiers and the arguments are laid out, length field by length field, from byte 48 to a zero field |
| `CallCodec.NoLengthEndsList` | src/core/state.c:105-106 | a length field without its brace or without a number ends the list |
| `CallCodec.ShortFunctionIdIsLost` | src/core/state.c:88-89 | of a call whose 17 function bytes hold the NUL of a shorter id the return type and message identifier are never read |
| `CallCodec.CallArrivesUpToEmpty` | src/core/state.c:76-127 | in general the call arrives with its arguments up to the first empty one |
| `CallCodec.CallIsFramedIff` | src/core/state.c:129-241 | an encoded call is one message exactly if what lies between its outer braces is level |
| `CallCodec.DoubleBraceIsFrame` | src/core/state.c:156-190 | two nested braces close together exactly if their content is level |
| `CallCodec.EncodedIsFrame` | src/api/middleware.c:297-344 | fields and arguments that close what they open suffice |
| `CallCodec.BalancedIsLevel` | src/core/state.c:156-233 | text balanced on its own is level at any depth |
| `CallCodec.ComponentLink.OnData` | src/core/state.c:172-175 | one chunk from the component yields the decoded calls of its messages, the very first message skipped |
| `CallCodec.ComponentLink.OnDataAll` | src/core/state.c:76-83 | any chunking of a stream yields the calls the core hears in the whole stream |
| `CallCodec.StreamOfCalls` | src/api/middleware.c:297-344 | after the key message, calls sent back to back arrive as that list in order, each with its arguments up to the first empty one |
| `CallCodec.CallStreamRoundTrip` | src/core/state.c:76-127 | the list arrives unchanged exactly if no argument is empty |
| `AppCodec.OnComponentMessage` | src/core/core_callbacks.c:256-292 | the piecewise reply encoder writes the reply, or nothing without a result |
| `AppCodec.SendToApp` | src/core/endpoint.c:157-195 | the piecewise event encoder writes the event |
| `AppCodec.ReplyBytes` | src/core/core_callbacks.c:265-281 | which bytes of a reply hold the identifier, the return type, the length and the payload |
| `AppCodec.EventBytes` | src/core/endpoint.c:165-183 | and which bytes of an event hold what |
| `AppCodec.ReplyRoundTrip` | src/api/middleware.c:718-726 | offsets 3, 19 and 32 recover identifier and payload exactly if the payload's length fits an int |
| `AppCodec.EventRoundTrip` | src/api/middleware.c:698-706 | offsets 3, 14 and 27 recover endpoint and text exactly if the text's length fits an int |
| `AppCodec.ReplyIsFramedIff` | src/core/core_callbacks.c:265-281 | a reply is one message exactly if its payload is level |
| `AppCodec.EventIsFramedIff` | src/core/endpoint.c:165-183 | an event is one message exactly if its text is level |
| `AppCodec.OutboundStreamRoundTrip` | src/api/middleware.c:687-726 | replies and events sent back to back arrive as that list in order |
| `AppCodec.ApiLink.OnMessage` | src/api/middleware.c:698-746 | one message wakes the blocked caller exactly if the identifier compared, a reply's own or else what the unwritten variable holds, is the awaited one, and clears the waiting flag exactly then |
| `AppCodec.WhatWakes` | src/api/middleware.c:696-746 | by the second byte of a message: what it is compared by, whether it wakes the caller, and with which text |
| `AppCodec.ApiLink.OnMessages` | src/api/middleware.c:687-746 | of the messages of a chunk the first that does so gives the result |
| `AppCodec.ApiLink.OnData` | src/api/middleware.c:788-791 | one chunk does what its messages do |
| `AppCodec.ApiLink.OnDataAll` | src/api/middleware.c:788-791 | any chunking of a stream does what the messages of the whole stream do |
| `AppCodec.ApiLink.AwaitReply` | src/api/middleware.c:438-442 | what arrives before the waiting flag is set wakes nobody; a blocking call returns what the rest of the stream wakes it with, in any chunks |
| `AppCodec.FirstReplyWins` | src/api/middleware.c:739-746 | with no earlier reply of the same identifier, a reply wakes its caller exactly if no event before it finds that identifier left over |
| `AppCodec.BlockingCallReturnsItsOwnResult` | src/api/middleware.c:687-746 | end to end, any calls with distinct identifiers, answered in any stream of replies and events: the one blocked on is woken by its own reply, with what the core computed for it, exactly if the reply is completed after the flag is set and no event misleads it first |
| `JsonText.ValueIsLevel` | src/core/state.c:156-233 | the scanner passes over any JSON value without closing anything, by induction over nested values and escaped strings |
| `JsonText.Terminals` | src/common/message.c:191-198 | the characters strings hold, escape and spell with digits, and the whitespace, by code |
| `JsonText.CharsAreWritten` | src/common/message.c:191-198 | how each of them is written |
| `JsonText.DecimalsAreValues` | src/common/message.c:191-198 | every decimal number, with fraction and exponent or without, is a value |
| `JsonText.ValueIsFrameIffObject` | src/common/message.c:191-198 | of all JSON texts the objects, and only they, are single messages |
| `JsonText.ObjectStreamIsRecovered` | src/core/state.c:129-241 | printed objects separated by whitespace come back unchanged and in order |
| `JsonText.ObjectEmittedAtLastByte` | src/core/state.c:163-189 | before its last byte an object has produced nothing and is held back whole |
| `SchemaHash.HashLong` | src/utils/utils.c:54-66 | the shift-and-add loop returns 5381 * 33^n plus the sum of the character codes, each times 33 to the number of characters after it, modulo 2^64; codes from 128 on are those of negative chars |
| `SchemaHash.HashByCodes` | src/utils/utils.c:54-66 | the same of the hash function every other result is about: by character codes, with no conversion named |
| `SchemaHash.HashExtends` | src/utils/utils.c:54-66 | the hash of a + b is determined by the hash of a and by b |
| `SchemaHash.WindowCollision` | src/utils/utils.c:54-66 | strings equal outside a window of at most twelve characters collide exactly if the weighted sums of the windows are equal integers |
| `SchemaHash.SingleEditChangesHash` | src/utils/utils.c:54-80 | equal-length byte strings that differ in exactly one position never collide, as numbers or as printed |
| `SchemaHash.AdjacentEditsCollideIff` | src/utils/utils.c:54-66 | neighbouring edits collide exactly if they compensate |
| `SchemaHash.HashFits` | src/utils/utils.c:68-80 | the printed hash has one to twenty digits |
| `AccessLists.AccessModule.InheritFrom` | modules/access_modules/plain/simple_acc.c:121-132 | the copying loop makes a new list with the parent's members |
| `AccessLists.AccessModule.AclAddObject` | modules/access_modules/plain/simple_acc.c:115-134 | a new object gets a copy of the component's list, an existing one is left alone; no list is shared |
| `AccessLists.AccessModule.AddAccess` | modules/access_modules/plain/simple_acc.c:91-114 | adds one subject to one list, creating it if need be, and changes no other |
| `AccessLists.AccessModule.RmAccess` | modules/access_modules/plain/simple_acc.c:136-152 | removes one subject from one list, drops an emptied endpoint list, and changes no other |
| `AccessLists.AccessModule.AclRmObject` | modules/access_modules/plain/simple_acc.c:154-161 | drops the named list, never the component's by a null object |
| `AccessLists.AccessModule.HasAccessCredential` | modules/access_modules/plain/simple_acc.c:76-90 | answers membership, or -1 without a list |
| `AccessLists.AccessModule.PerformAll` | modules/access_modules/plain/simple_acc.c:91-161 | a whole run of calls leaves the table of the specified run, with no list shared |
| `AccessLists.ListIsCopyPlusOwnOps` | modules/access_modules/plain/simple_acc.c:91-161 | after any run an endpoint's list is the component's list at its latest creation, changed since by its own calls only |
| `AccessLists.ComponentListIsOwnOps` | modules/access_modules/plain/simple_acc.c:91-152 | the component's list is that of its own calls |
| `AccessLists.EndpointListsNonEmpty` | modules/access_modules/plain/simple_acc.c:147-150 | every endpoint list in the table is non-empty |
| `AccessLists.ListDroppedOnlyWhenEmptied` | modules/access_modules/plain/simple_acc.c:147-161 | a list disappears exactly by its own removal of its last subject |
| `AccessLists.RunSucceedsIff` | modules/access_modules/plain/simple_acc.c:91-134 | a run that does not name the component explicitly succeeds if and only if each add to an endpoint comes after an add to the component; that list is present exactly from then on |
| `AccessLists.RunFailsIff` | modules/access_modules/plain/simple_acc.c:123-127 | any run fails if and only if at some point, reached without failing, an endpoint list is asked for with neither it nor the component's present |
| `AccessLists.ComponentListStays` | modules/access_modules/plain/simple_acc.c:94-98 | special case: filled by the first call, the component's list stays and no call fails |
| `AccessLists.MissingComponentListFails` | modules/access_modules/plain/simple_acc.c:123-127 | the failing input: a first call that asks for an endpoint's list |
| `Connection.AnyAccepted` | src/core/protocol.c:169-238 | the credential loop accepts exactly if authentication is off or some loaded module accepts a credential |
| `Connection.State.OnConnect` | src/core/core_callbacks.c:64-87 | a bridge connection starts in HELLO_S with one HELLO sent, another in MAP with two tokens written |
| `Connection.State.CoreProtoHello` | src/core/protocol.c:37-76 | state, answer and token of a HELLO |
| `Connection.State.CoreProtoHelloAck` | src/core/protocol.c:80-112 | state, token and credentials sent on a HELLO_ACK |
| `Connection.State.CoreProtoCheckAuth` | src/core/protocol.c:160-269 | flag, state, token and answer on credentials |
| `Connection.State.CoreProtoCheckAuthAck` | src/core/protocol.c:272-309 | flag, state and token on an AUTH_ACK, closing on a refusal |
| `Connection.State.CoreProtoMapTo` | src/core/protocol.c:312-327 | endpoint, state and MAP sent |
| `Connection.State.CoreProtoMap` | src/core/protocol.c:384-428 | state, flag, list and answer on a MAP |
| `Connection.State.CoreProtoMapAck` | src/core/protocol.c:331-381 | state, flag, list and token on a MAP_ACK |
| `Connection.State.CoreOnProtoMessage` | src/core/core_callbacks.c:128-180 | guards and callback switch of the handshake callback |
| `Connection.State.CoreOnMessage` | src/core/core_callbacks.c:185-246 | guards of the second callback |
| `Connection.State.OnMessages` | src/core/core_callbacks.c:128-246 | a stream of messages leaves the state of the specified run |
| `Connection.ConnectionStaysSound` | src/core/core_callbacks.c:128-230 | under any messages `is_auth` holds exactly in AUTH_ACK and from MAP on, `am_auth` exactly in AUTH_2 and from MAP on, the second callback is installed exactly when both hold |
| `Connection.ReceiveKeepsSound` | src/core/core_callbacks.c:128-230 | one message keeps that, never lowers the rank, and reaches the endpoint only in EXT_MSG |
| `Connection.RankNeverDecreases` | src/core/protocol.c:37-428 | over any run the rank never decreases; EXT_MSG and BAD are final |
| `Connection.DeliveryNeedsHandshake` | src/core/core_callbacks.c:221-230 | data reaches the endpoint only after a valid HELLO and zero HELLO_ACK, then accepted credentials and a zero AUTH_ACK, then a mapping, in that order |
| `Connection.OneReceipt` | src/core/core_callbacks.c:144-246 | in whatever phase a message comes, the next phase, the answer sent, delivery, closing and the two flags are those of a table by phase and message; a message not acted on changes nothing |
| `Connection.HandleMarks` | src/core/protocol.c:37-428 | the flag of each side, the mapping flag with the code it is given, one token on entering AUTH or MAP and per MAP_ACK, and the one list a mapping appends to |
| `Connection.DeliveryIsExact` | src/core/core_callbacks.c:221-230 | over any run the handler of the endpoint is called exactly once for each data message that arrives in EXT_MSG, however many came before |
| `Connection.SendsExactlyAnswers` | src/core/protocol.c:66-75 | over any run a connection sends its HELLO, if it is a bridge's, and then exactly the answers to the messages acted on, refusals with their codes |
| `Connection.ClosesOnRefusal` | src/core/protocol.c:284-288 | a connection is closed exactly if some AUTH_ACK acted on carried a refusal |
| `Connection.FlagsTellTheHandshake` | src/core/protocol.c:231-298 | over any run the peer counts as authenticated exactly if accepted credentials were acted on, this side exactly if a zero AUTH_ACK was; a connection that skips the handshake has neither |
| `Connection.HandledOutOfPhase` | src/core/protocol.c:37-309 | the handlers in phases the guards exclude: greetings are only answered, credentials still count, an acknowledged MAP without an endpoint is ignored |
| `Handshake.StepsTerminate` | src/core/core_callbacks.c:128-246 | every step, under any verdicts, lowers a measure |
| `Handshake.RunsAreShort` | src/core/core_module.c:81-115 | no run of the two-party system takes more than sixteen steps |
| `Handshake.MutualAuthentication` | src/core/protocol.c:160-309 | under any verdicts a side that counts itself authenticated is so at its peer, and the connector is mapped only if its peer is |
| `Handshake.WakeUpAccounting` | src/core/core_module.c:81-115 | tokens left plus tokens taken are those of the phases reached; after two waits the connection is in MAP; the result is zero exactly if it is mapped |
| `Handshake.NothingIsDiscarded` | src/core/core_callbacks.c:144-177 | in accepting runs no message arrives in a state whose guard discards it |
| `Handshake.AcceptingRunsOnScript` | src/core/core_callbacks.c:128-180 | in every interleaving each side follows its script; HELLO_2 and AUTH_2 are never entered |
| `Handshake.AcceptingRunsEndInAgreement` | src/core/protocol.c:37-428 | the only quiescent state of an accepting run is both sides in MAP with both flags, or, with a MAP asked for, both mapped or both failed as the result says |
| `Handshake.MappingAgreement` | src/core/protocol.c:312-428 | the MAP finds the peer in MAP with the second callback; EXT_MSG here means EXT_MSG there, BAD here means the peer did not map |
| `Handshake.ResultIsVerdict` | src/core/protocol.c:397-421 | when core_map returns, the result is zero exactly if the peer's verdict on the delivered MAP named an endpoint, and then the peer is mapped onto it |
| `Handshake.RunsMapOnce` | src/core/endpoint.c:355-373 | each side is in an endpoint's list once if it is in EXT_MSG and not otherwise |
| `Handshake.FailedCheckStops` | src/core/protocol.c:37-428 | a message that fails its schema or version check maps nobody and moves no connection forward; an answer to MAP that fails it ends in BAD |
| `Handshake.RefusedCredentialsStop` | src/core/protocol.c:243-258 | refused credentials authenticate nobody and are answered with -3, if at all |
| `MapOutcome.FoundIffSuitable` | src/core/endpoint.c:502-528 | a search that can be evaluated finds an endpoint exactly if one is compatible and meets the caller's clauses |
| `MapOutcome.ResultTellsAvailability` | src/core/core_module.c:103-115 | in every accepting run the result of core_map is zero exactly if the peer has such an endpoint registered, and the peer is then mapped onto one |
| `MapOutcome.PlainResultTellsAvailability` | src/core/core_module.c:103-115 | without caller's clauses: zero exactly if a compatible endpoint is registered |
| `CoreMap.WakeUpAccounting` | src/core/core_module.c:81-115 | for bridge and other modules, against any peer, tokens written are one past HELLO, one at MAP and one for the answer |
| `CoreMap.WaitsFindTheirPhase` | src/core/core_module.c:87-104 | after two waits the connection is in MAP exactly if the peer did not map first; after the third it is in EXT_MSG or BAD |
| `CoreMap.ResultTellsOutcome` | src/core/core_module.c:104-115 | a zero result means mapped; mapped means zero exactly if the last MAP of the peer handled before the own one was sent, if any, was not refused |
| `CoreMap.QuietPeer` | src/core/core_module.c:81-115 | against a peer that sends no MAP the result is zero exactly if the connection is mapped |
| `CoreMap.StaleFlag` | src/core/protocol.c:343-353 | a run in which a mapped connection is reported as EP_NO_EXIST |
| `EndpointMatch.TypeTablesAgree` | src/common/endpoint_base.c:103-262 | names are one to one, the matching name is that of the dual type, and dual is an involution |
| `EndpointMatch.TypesAreNamed` | src/common/endpoint_base.h:48-62 | each number has its name, and no other text names a type |
| `EndpointMatch.DualIsPaired` | src/common/endpoint_base.c:158-211 | the type a peer must have, pair by pair: sources and sinks, streams included, requests and responses, and the three kinds that match themselves |
| `EndpointMatch.InitiatedAreWellMade` | src/common/endpoint_base.c:22-85 | accepted endpoints carry both schemas exactly when they answer requests |
| `EndpointMatch.InitAcceptsIff` | src/common/endpoint_base.c:44-84 | which numbers and schemas endpoint_init accepts and what it keeps: a message schema except on streams, a response schema exactly on kinds 3 to 6, 8 and 9 |
| `EndpointMatch.DocumentOf` | src/core/endpoint.c:301-342 | which key of an endpoint's document holds what, that there are no others, and that metadata comes first |
| `EndpointMatch.ClauseReadsBack` | src/common/json_filter.c:22-48 | a printed clause is parsed back as its property, sign and string |
| `EndpointMatch.NumericClauseReadsBack` | src/common/json_filter.c:22-48 | a clause on a number is parsed back as its property, sign and text |
| `EndpointMatch.NumericVerdict` | src/common/json_filter.c:63-78 | any clause text that parses as numeric accepts exactly the equal, greater, smaller or different numbers as its sign says, nothing under another sign; a missing property counts as -13 |
| `EndpointMatch.NameClauseTests` | src/common/json_filter.c:80-86 | a clause on the name accepts exactly the endpoints of that name and cannot be evaluated on one without |
| `EndpointMatch.StringVerdict` | src/common/json_filter.c:61-86 | on which documents the verdict on a string is the one the sign asks for, sign by sign |
| `EndpointMatch.StringClausesIgnoreTheSign` | src/common/json_filter.c:80-86 | the sign is never looked at, so the verdict is the one asked for on every document if and only if the sign starts with the equality sign |
| `EndpointMatch.StringClauseHonouredIff` | src/common/json_filter.c:90-103 | the same of every clause text that parses as a string clause |
| `EndpointMatch.DifferenceAcceptsEqual` | src/common/json_filter.c:80-86 | the failing input: a clause asking for a difference accepts an equal value |
| `EndpointMatch.ValidateArray` | src/common/json_filter.c:106-123 | the loop is the short-circuit conjunction of the clauses |
| `EndpointMatch.OwnClausesDecideCompatibility` | src/core/json_builds.c:119-132 | the generated clauses are evaluable on every endpoint and hold exactly of the compatible ones: dual type and, for request kinds, both schemas |
| `EndpointMatch.HashClauseAloneFails` | src/common/json_filter.c:80-86 | without the type clause in front a response-hash clause fails exactly on endpoints that answer no requests |
| `EndpointMatch.DeclaredMatchIff` | src/core/endpoint.c:64-86 | endpoints declared with any schemas: the query is evaluable and holds exactly if the types are one of the listed pairs and, for the request and response kinds, both schemas hash alike |
| `EndpointMatch.OneEditNeverMatches` | src/core/json_builds.c:119-132 | request kinds whose message schemas differ in one character never match |
| `EndpointMatch.MatchingIsSymmetric` | src/core/json_builds.c:110-143 | one endpoint's query accepts the other exactly if the other's accepts it |
| `EndpointMatch.QueryVersusMatchTests` | src/core/endpoint.c:247-279 | how the query differs from ep_match_type and ep_match_hash: streams, and message schemas of endpoints that answer no requests |
| `EndpointMatch.MatchHashIsEquality` | src/core/endpoint.c:266-279 | ep_match_hash holds exactly if both schemas are the same, or both responses are missing |
| `EndpointMatch.ClausesFit` | src/core/json_builds.c:120-131 | every generated clause fits its buffer of fifty characters |
| `EndpointMatch.FindEndpoint` | src/core/endpoint.c:502-528 | the walk over the table returns the first endpoint whose document satisfies the query |
| `EndpointMatch.FirstMatch` | src/core/endpoint.c:511-524 | first means: it satisfies the query and none before it does |
| `EndpointMatch.MatchedEndpointIsDual` | src/core/protocol.c:399-412 | the endpoint a MAP finds is compatible with the requester's and meets its clauses, and no earlier one does both |
| `EndpointMatch.PlainQueryNeverFails` | src/core/endpoint.c:502-528 | with generated clauses only, the search finds an endpoint exactly if a compatible one is registered |
| `MappingLists.LocalEp.EpMap` | src/core/endpoint.c:355-373 | appends the connection unless it is gone |
| `MappingLists.LocalEp.EpSend` | src/core/endpoint.c:559-571 | sends one copy per element of the list, in order |
| `MappingLists.ReceiptAppends` | src/core/protocol.c:343-412 | a message appends the connection to a list exactly when it maps it |
| `MappingLists.MapToKeepsListsIff` | src/core/protocol.c:312-327 | asking for a mapping keeps the lists exact if and only if the connection is not mapped yet |
| `MappingLists.ListsFollowPhases` | src/core/protocol.c:343-412 | in honest runs a connection is in a list exactly if it is in EXT_MSG, then in its endpoint's only, and once |
| `MappingLists.FanOutIsExact` | src/core/endpoint.c:559-571 | a send reaches each connection mapped to the endpoint once and no other |
| `MappingLists.ListsOnlyGrow` | src/core/endpoint.c:355-373 | in any run a list only grows, and only at its end: sends go out in the order of mapping |
| `MappingLists.ListsAreOfRegistered` | src/core/endpoint.c:559-571 | exactly the registered endpoints have a list |
| `MappingLists.MappingTwiceDuplicates` | src/core/endpoint.c:369-370 | mapped again to the same endpoint, a connection is in its list twice |
| `MqttBridge.Bridge.constructor` | modules/com_modules/mqtt_bridge/com_mqtt_bridge.c:182-246 | an initialised bridge has empty tables and listens on its topic |
| `MqttBridge.Bridge.ChannelNew` | modules/com_modules/mqtt_bridge/com_mqtt_bridge.c:42-69 | the next number, the given topics, one more subscription |
| `MqttBridge.Bridge.ChannelFree` | modules/com_modules/mqtt_bridge/com_mqtt_bridge.c:71-80 | both table entries go, and no table leads to the freed channel, even when topics collide |
| `MqttBridge.Bridge.ComConnect` | modules/com_modules/mqtt_bridge/com_mqtt_bridge.c:249-272 | new state, result and publication of a connect, also when publishing fails |
| `MqttBridge.Bridge.AcceptRequest` | modules/com_modules/mqtt_bridge/com_mqtt_bridge.c:105-131 | a request on the listen topic opens a connected channel and answers with its topic |
| `MqttBridge.Bridge.FinishConnect` | modules/com_modules/mqtt_bridge/com_mqtt_bridge.c:143-151 | the first payload becomes the outgoing topic |
| `MqttBridge.Bridge.MessageCallback` | modules/com_modules/mqtt_bridge/com_mqtt_bridge.c:95-180 | new state, publication and upcall for any message |
| `MqttBridge.Bridge.ComSend` | modules/com_modules/mqtt_bridge/com_mqtt_bridge.c:299-319 | what is published, if anything |
| `MqttBridge.Bridge.ComConnectionClose` | modules/com_modules/mqtt_bridge/com_mqtt_bridge.c:275-289 | frees the channel, or -1 |
| `MqttBridge.ConnectOpensOrLeavesNothing` | modules/com_modules/mqtt_bridge/com_mqtt_bridge.c:249-272 | a connect that publishes leaves one unconnected channel under both keys and returns its number; one that does not returns -1 and leaves no channel |
| `MqttBridge.RequestIsAnswered` | modules/com_modules/mqtt_bridge/com_mqtt_bridge.c:105-131 | a request opens a connected channel on the first five characters of the random name, answers on the first ten of the payload, and is announced only if that was published |
| `MqttBridge.MessageOnChannel` | modules/com_modules/mqtt_bridge/com_mqtt_bridge.c:133-175 | a message elsewhere: ignored on an unknown topic, the partner's topic and an announcement before the channel is connected, data up to the first NUL after |
| `MqttBridge.SentAsItIs` | modules/com_modules/mqtt_bridge/com_mqtt_bridge.c:299-319 | data is published unchanged, on the partner's topic, for any open channel that has one |
| `MqttBridge.ConnectKeepsTablesIff` | modules/com_modules/mqtt_bridge/com_mqtt_bridge.c:249-272 | the tables still agree if and only if the topic was unused |
| `MqttBridge.MessageKeepsTablesIff` | modules/com_modules/mqtt_bridge/com_mqtt_bridge.c:105-160 | likewise for a message |
| `MqttBridge.CloseKeepsTables` | modules/com_modules/mqtt_bridge/com_mqtt_bridge.c:275-289 | closing keeps them in agreement, removes the channel and no other, and returns 0, or -1 without one |
| `MqttNetwork.StepKeepsInv` | modules/com_modules/mqtt_bridge/com_mqtt_bridge.c:95-319 | every connect, delivery, send and close keeps the invariant of the network |
| `MqttNetwork.TablesAlwaysAgree` | modules/com_modules/mqtt_bridge/com_mqtt_bridge.c:21-22 | in every reachable network the two tables of every process agree and each channel is announced exactly once connected |
| `MqttNetwork.CrossLinked` | modules/com_modules/mqtt_bridge/com_mqtt_bridge.c:95-158 | every connected client channel has exactly one server channel, with its topics swapped, at the process it addressed |
| `MqttNetwork.ServersAreNotShared` | modules/com_modules/mqtt_bridge/com_mqtt_bridge.c:105-131 | no two server channels belong to the same client channel |
| `MqttNetwork.OnlyThePartnerIsHeard` | modules/com_modules/mqtt_bridge/com_mqtt_bridge.c:160-175 | what a channel hands up is a prefix of what its partner sent; on an open channel the rest is on its way |
| `MqttNetwork.QuietMeansConnected` | modules/com_modules/mqtt_bridge/com_mqtt_bridge.c:142-158 | when nothing is in flight every open channel to a listened address is connected and both sides have heard everything |
| `MqttNetwork.MessagesCrossTheBridge` | src/core/state.c:129-241 | the framer behind a channel yields the messages its partner sent that have arrived, in order |

## Left out

- Bytes are Dafny characters, a superset; only `SchemaHash` depends on their values, and reads them as signed bytes.
- Buffer capacities, allocation failure and overflow of `int` or `unsigned` sizes in the framer: lengths are unbounded.
- UNMAP, disconnects and teardown of connection states.
- Stream messages and stream commands (descriptor work without a state guard).
- Fetching of queued messages by blocking endpoints.
- Sockets, processes, threads, timeouts, logging, configuration, the other communication modules, Kerberos and OpenSSL.
- CallCodec.CallModuleFunction: with a shorter string the encoder reads past its end; what memory holds there is part of the parameter.
- AppCodec.ApiLink.OnMessage: what the unwritten variables hold, and whether the endpoint of an event is known, are parameters, one per message.
- AppCodec.BlockingCallReturnsItsOwnResult: what a core function returns is a function of the decoded call.
- Connection.State.CoreOnMessage: UNMAP_ACK and stream messages change nothing here (nor does UNMAP, which the code acts on only if `is_mapped`, never set to 1).
- Connection.State.CoreProtoCheckAuth: the schema of an AUTH is not checked, as src/core/json_builds.c:278-280 accepts every message.
- Credential checks and message schemas are verdicts chosen per message; the version check is part of the verdict.
- Reading a number from the text of a numeric clause is a parameter, and comparison is over reals instead of `float`.
- `cpt_query` is sent and extracted but not used by the code, so the model has no such field.
- `EndpointMatch` takes component metadata whose keys are not those of the endpoint document, and clause strings without blanks; other metadata overrides the endpoint's own keys.
- The order in which the endpoint table lists its keys is that of a sequence given as a parameter.
- `Handshake.AcceptingRunsOnScript`: only the connecting side sends MAP, as `core_map` does; `CoreMap` covers peers that send their own.
- Pipes are queues of tokens; concurrent users of the shared pipe are left out.
- `MqttNetwork.OnlyThePartnerIsHeard`: publishing succeeds, the broker neither duplicates nor reorders, and retained messages of earlier runs are absent; `MqttBridge` covers failing publications one call at a time.
- `MqttNetwork`: processes listen on distinct topics, and no address is the topic of a channel.
- RDC registration, manifests and the dispatch tables: lookups that would add only easy members.
