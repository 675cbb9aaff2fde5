# async-rustbus: wire pipeline, signatures, routing and replies

A Dafny model of the parts of async-rustbus that keep state and do arithmetic, with proofs of what they promise.
`dafny verify dfyconfig.toml` checks all of it.

| file | models |
|---|---|
| `Utils.dfy` | u32 encoding and alignment |
| `HeaderCodec.dfy` | marshalling and unmarshalling of message headers |
| `Descriptors.dfy` | positions of file descriptors in a byte stream |
| `Framing.dfy` | reading a whole byte stream at once: the specification of the receiver |
| `Grammar.dfy` | what the parsers accept, exactly, and what the sender writes, byte by byte |
| `Receiver.dfy` | the incremental receiver, a three-state framer with spill-over |
| `Sender.dfy` | the queue of partly written messages and the scatter lists |
| `Pipeline.dfy` | both ends over one socket, with descriptors or without, and `send_msg_loop` among other tasks |
| `Signature.dfy` | the validator of type signatures, an automaton with a bounded stack |
| `Body.dfy` | the message body, pushed to in transactions |
| `Calls.dfy` | `CallHierarchy`, the trie that routes calls, and its two routers |
| `MatchRules.dfy` | signal match rules, their order, and the sorted list of them |
| `Replies.dfy` | serials, reply channels and `queue_msg`, as steps that tasks interleave |
| `Auth.dfy` | the user id in the EXTERNAL mechanism |

How the model is set up:

- The socket is a schedule: each read or write moves any number of bytes from one up, or would block. Every theorem
  holds for all schedules. Descriptors go with the first byte of a write and come with the read that takes that byte.
- The name and body validators and the string reader of the `rustbus` crate are predicates (`Rules`). The theorems hold
  for all of them that are `Coherent`: names are strings the string reader accepts, and a signature's length fits one
  byte. Marshalling of a parameter is a function that only appends (`Body.AppendOnly`).
- Code that changes state in place is a class or a method with loops, proved against a function or a pure step; the
  properties are then proved of that function. `CallHierarchy` is a tree of objects that own each other, and `View` is
  its value.
- What tasks do to the connection between two awaits is one step. The theorems of `Replies` are about all sequences of
  such steps, those of `Pipeline` about all sequences of sends, flushes and reads.

Where the code does less than it seems to promise, the exact condition is proved:

- **Validator stack.** Signatures within the limits of the D-Bus Specification can need more than 64 open containers.
  The validator accepts exactly those that need at most 64 (`ValidateIff`); it panics on 32 dictionaries inside each
  other around a structure (`ValidSignatureOverflows`). Without dict entries it never panics (`NoBraceNoPanic`).
- **Descriptors in the queue.** A new message without descriptors can be written ahead of a queued one that has some.
  A call keeps the order for all short writes exactly if no unstarted message with descriptors is behind the head of the
  queue, or the new message has descriptors itself (`OrderKeptIff`; for one write there is a further exception,
  `OfferInOrderIff`). `Overtake` reaches the failure from a new connection, with any three messages. The end-to-end
  theorems hold for runs in which each message meets that condition (`Orderly`); all runs without descriptors do.
- **Removing a path.** Inserting `Nothing` removes that path and nothing else exactly if the path is a node, or the
  deepest node on the way to it is the root or has a handler (`RemovesExactlyIff`). Otherwise a whole subtree goes:
  with a queue at /a/b only, removing /a/c drops that queue (`RemovalLosesQueue`).
- **Exact paths.** `is_match` also accepts calls strictly below an `Exact` path which the other router drops, in exactly
  one case (`RoutersAgree`, `ExactMatchesWhatItDrops`). A unit test (src/routing.rs:675) endorses the former.
- **Order of match rules.** `cmp` is transitive exactly on sets of namespaces in which none lies inside a second one
  that is unrelated to a third (`TransitiveIff`, `NotTransitive`). Pairwise nested namespaces are such a set. Exactly on
  these sets binary search keeps the list a set of rules in every run (`RunsKeepSetIff`); elsewhere a rule can be
  inserted twice (`ForkDuplicates`).
- **Reset.** `reset` is documented to give the body of a new message. It keeps the descriptors, so it does exactly if
  there were none (`MessageBody.Reset`).
- **Serials.** They repeat after 2^32 - 1 draws. Up to there replies are safe; one draw more can make a waiting call
  panic (`SerialsDistinctIff`, `WrappedSerialPanics`).
- **User ids.** From 10^9 on the multiplication in the digit loop overflows u32 (`LargestOrder`).

## Model

| member | source | states |
|---|---|---|
| Utils.U32RoundTrip | src/utils.rs:21-27 | Reading the four bytes of a u32 in the byte order they were written in gives it back |
| Utils.AlignNumIsLeastMultiple | src/utils.rs:29-34 | `align_num` gives the least multiple of any alignment that is not below the number |
| HeaderCodec.MarshalHeader | src/rustbus_core/message_builder/mod.rs:166-240 | The in-place writer fails exactly for the first field, in the order written, whose name is invalid; otherwise the buffer holds the encoding of the header, with the array length patched in and the end padded |
| HeaderCodec.Unmarshal | src/rustbus_core/message_builder/mod.rs:360-440 | The loop that fills the field array computes the parser that the round trip is proved of, with the same errors |
| HeaderCodec.ParseFieldsBack | src/rustbus_core/message_builder/mod.rs:371-378 | From any field on, parsing the written array restores the rest of the table and ends where the array does |
| HeaderCodec.HeaderRoundTrip | src/rustbus_core/message_builder/mod.rs:166-440 | In both byte orders, parsing a written header gives back the header (signature of a non-empty body, number of descriptors), consumes all of it, and its length is 16 plus the array length, aligned to 8 |
| HeaderCodec.FixedRoundTrip | src/rustbus_core/message_builder/mod.rs:178-195 | The fixed twelve bytes give back byte order, type, flags, body length and serial; an unset type is refused |
| Framing.DecodeExtends | src/conn/recv.rs:88-162 | What follows a message or a fault does not change how it is read |
| Framing.DecodeExact | src/conn/recv.rs:88-162 | A message is determined by exactly its own bytes |
| Framing.FramesAppend | src/conn/recv.rs:176-279 | Framing a stream behind one that ends with a message gives the messages of both |
| Framing.FramesNext | src/conn/recv.rs:258-269 | One more whole message adds exactly that message |
| Framing.FramesStop | src/conn/recv.rs:163-173 | An incomplete or faulty rest leaves the messages before it as they are |
| Framing.NoFdsUnlessNegotiated | src/conn/recv.rs:138-140 | No message is read whose header announces descriptors that were not negotiated |
| Grammar.FieldsBack | src/rustbus_core/message_builder/mod.rs:369-378 | Any header fields, in any order and with repeated codes, are read back; the last field of a code wins |
| Grammar.UnknownCode | src/rustbus_core/message_builder/mod.rs:373 | The first field with a code from ten on ends in the out-of-bounds access |
| Grammar.FieldsIff | src/rustbus_core/message_builder/mod.rs:369-378 | A field array is accepted if and only if it is one of known fields, byte by byte, with zero padding and strings that pass |
| Grammar.HeaderIff | src/rustbus_core/message_builder/mod.rs:379-439 | The fields make up a header if and only if each holds what its code asks for, with a valid name, and a reply serial that is not zero |
| Grammar.HeaderValues | src/rustbus_core/message_builder/mod.rs:379-433 | Which field of the header has the value of which code |
| Grammar.FixedIff | src/conn/recv.rs:95-103 | The first twelve bytes are accepted if and only if they are those of the fixed header, with any version |
| Grammar.FixedFaults | src/conn/recv.rs:100-103 | They are refused exactly for their byte order or their type |
| Grammar.HeadFaults | src/conn/recv.rs:125-140 | Which fault a whole header ends in: its fields, then a zero serial, then descriptors that were not negotiated |
| Grammar.MessageIff | src/conn/recv.rs:88-162 | A message is read from the front of any bytes if and only if it is written there, with any fields that make up its header and a body of the announced length |
| Grammar.FaultIff | src/rustbus_core/message_builder/mod.rs:196-225 | Which invalid name a message is refused for |
| Grammar.HeaderByOffset | src/rustbus_core/message_builder/mod.rs:178-195 | The first sixteen bytes that are written, by offset: byte order, type, flags, version one, body length, serial, array length |
| Grammar.FieldLayout | src/rustbus_core/message_builder/mod.rs:196-235 | A field that is written: code, one-letter signature, value behind its length, NUL |
| Grammar.WrittenFields | src/rustbus_core/message_builder/mod.rs:196-235 | The field array is that of the fields that are set, under their codes, in order |
| Receiver.ExtendMax | src/conn/recv.rs:71-86 | Exactly the bytes between the two cursors are moved, and the result says if the target was reached |
| Receiver.StarvedNeedsMore | src/conn/recv.rs:200-202 | Whenever the receiver reads, the bytes so far are no message and it asks for at least one more |
| Receiver.RequestsStayInMessage | src/conn/recv.rs:47-61 | No request reaches beyond the message being received, and the last one, for the body or for the header of a message without a body, covers all that is left of it |
| Receiver.StateNotBeyond | src/conn/recv.rs:47-61 | In no state was anything taken in that is not part of the current message |
| Receiver.TakeDirectly | src/conn/recv.rs:231-238 | Bytes read directly into the current buffer keep the state that of the bytes taken in |
| Receiver.RecvState.TryGetMsg | src/conn/recv.rs:88-174 | The three states take what the spill-over holds and give a message, a fault or nothing as one-shot decoding does |
| Receiver.RecvState.FromRemaining | src/conn/recv.rs:180-193 | A message found without reading carries no descriptors, and with descriptors negotiated this never happens |
| Receiver.RecvState.Fill | src/conn/recv.rs:195-257 | One read moves bytes and their descriptors from the stream to the receiver, none lost, repeated or reordered, with `rem_loc` at the end of `remaining` and something needed; broken pipe and would-block are told apart exactly by the state of the socket |
| Receiver.RecvState.GetNextMessage | src/conn/recv.rs:176-279 | For every schedule of short reads: the message returned is the next of the one-shot framing of all bytes received, with the announced number of descriptors; on would-block that framing has no more; faults are those of the framing; with descriptors nothing is read ahead, the message carries exactly the descriptors attached to the bytes read for it, and too many or a wrong number are reported only then; broken pipe means that the other side has closed the connection and all was read, would-block that the socket would block or is open with nothing unread; without a message to read, a socket that goes along gives exactly one of these two; the body that is delivered passed its validator; any other error leaves the receiver ready for a new message |
| Sender.Advance | src/conn/sender.rs:55-73 | A message takes what it can of the written count and hands on the rest |
| Sender.GatherHolds | src/conn/sender.rs:79-101 | The scatter list stays within its capacity, is a prefix of the queued bytes up to the first unstarted message with descriptors behind the head, all of them if it is not full, and not empty for a non-empty queue |
| Sender.Populate | src/conn/sender.rs:79-101 | The loop computes the specified scatter list and attaches the descriptors of the head if it is unstarted, no others |
| Sender.WrittenPending | src/conn/sender.rs:102-114 | Marking n bytes as written drops exactly the first n bytes from what is pending |
| Sender.UpdateWritten | src/conn/sender.rs:102-114 | The loop is the specified marking; what exceeds the queue is handed back |
| Sender.QueueWriteInOrder | src/conn/sender.rs:122-134 | Any short write of the queue alone keeps the order of bytes and of the positions of descriptors |
| Sender.OfferKeepsBytes | src/conn/sender.rs:172-199 | So does any short write with a new message behind the queue that may follow it, for bytes |
| Sender.OfferKeepsMarks | src/conn/sender.rs:172-199 | and for descriptors: those of the first message of a write go with it, and no others |
| Sender.OfferInOrderIff | src/conn/sender.rs:88-93 | A write with a new message keeps the order if and only if the message may follow the queue or the queue fills the list |
| Sender.FollowerKeepsOrder | src/conn/sender.rs:172-203 | All writes of a call, on any schedule, keep the bytes in order if the message may follow the queue |
| Sender.OrderKeptIff | src/conn/sender.rs:172-203 | A call keeps the bytes in order on every schedule if and only if the message carries descriptors or no queued message behind the head still has to send some |
| Sender.Overtakes | src/conn/sender.rs:88-93 | Otherwise the given sequence of short writes makes the message overtake, however long the queue |
| Sender.OvertakingOffer | src/conn/sender.rs:88-93 | One write that does so: behind a partly written message and one with descriptors |
| Sender.Overtake | src/conn/sender.rs:141-209 | From a new connection, three calls with any three messages lead to bytes out of order |
| Sender.FlushEmpties | src/conn/sender.rs:120-140 | A flush on a socket that goes along leaves nothing queued |
| Sender.WriteEmpties | src/conn/sender.rs:172-203 | On a socket that goes along a new message is written in full, and the queue before it |
| Sender.SendState.TransmittedIffPassed | src/conn/sender.rs:117-119 | A message with an index is fully transmitted if and only if the current index has passed it |
| Sender.SendState.FinishSendingNext | src/conn/sender.rs:120-140 | Flushing conserves the stream: bytes sent and pending stay what was promised, in order; queue and bytes are those of the run of writes for the schedule; the current index is returned and never decreases |
| Sender.SendState.WriteNextMessage | src/conn/sender.rs:141-209 | Errors exactly for an invalid header or disallowed descriptors, the header first, changing nothing; otherwise header and body are promised, indices are consecutive, nothing is queued if all was written, bytes are always counted, queue and bytes sent are those of the run of writes for the schedule, and order is kept unless the message overtakes one with descriptors |
| Pipeline.MessageRoundTrip | src/conn/recv.rs:88-162 | A message that was accepted for sending is read back from the front of any stream that starts with it, and its body passes |
| Pipeline.StreamRoundTrip | src/conn/recv.rs:176-279 | Framing the bytes of any list of sent messages gives exactly these messages, nothing left over, no fault |
| Pipeline.FramesOfPrefix | src/conn/recv.rs:176-279 | What is read of the start of a clean stream is clean, and its messages are the first ones |
| Pipeline.OrderlyWithoutFds | src/conn/sender.rs:152 | Jobs that send no descriptors never let a message overtake, whatever the socket does |
| Pipeline.SendMsgLoop | src/lib.rs:458-498 | Among any jobs of other tasks, with descriptors or without: in an orderly run success means that the whole message is on the wire, in one piece; without success it was accepted and some of it is still to be written, and the last turn was not on a socket that goes along; an error is the refusal of the message |
| Pipeline.DoneIsEncoded | src/conn/recv.rs:176-279 | The bytes that became messages are exactly those of the first messages sent |
| Pipeline.PartOfNext | src/conn/recv.rs:200-238 | Where nothing is read ahead, what is held is part of the next message sent |
| Pipeline.FdsOfPart | src/conn/recv.rs:240-246 | Of the descriptors on the wire those attached to a part of a message are its own with its first byte, and none otherwise |
| Pipeline.Link.Send | src/conn/sender.rs:141-209 | A message is added to those sent exactly if it is accepted, and the queue is that of the job; the run stays fine exactly if the message may follow the queue |
| Pipeline.Link.Receive | src/conn/recv.rs:176-279 | In a fine run the other side reads the next message or finds nothing more, never a fault; a socket that goes along is read empty |
| Pipeline.Link.AllReceivedIff | src/conn/recv.rs:176-279 | In a fine run all messages sent are received if and only if nothing is queued, nothing is on the wire and the receiver holds no message |
| Pipeline.RunConnection | src/conn/sender.rs:120-209 | End to end over any run of sends, flushes and reads with any short reads and writes, with descriptors or without: if the run is orderly, the messages received are the first of those sent, in order, with equal headers, bodies and descriptors, without a fault, and all of them if and only if the connection is quiet |
| Pipeline.RunToTheEnd | src/conn/recv.rs:176-279 | Any orderly run, continued on a socket that goes along, delivers exactly the messages sent |
| Pipeline.RunsWithoutFds | src/conn/sender.rs:152-157 | Every run without descriptors is orderly, and every run on a connection without them |
| Signature.ValidateSigStr | src/rustbus_core/message_builder/body.rs:61-130 | The in-place loop computes the verdict of the automaton, with the same error |
| Signature.TakeChar | src/rustbus_core/message_builder/body.rs:73-118 | One round of the loop is one step of the automaton |
| Signature.StepFaults | src/rustbus_core/message_builder/body.rs:74-107 | Which error a character ends in, by what is open before it |
| Signature.VerdictFaults | src/rustbus_core/message_builder/body.rs:62-129 | The error is that of the length, of the first character refused, or of what is open at the end |
| Signature.RunType | src/rustbus_core/message_builder/body.rs:73-118 | From any reachable stack, the printing of any type is taken and completed within the limits, or refused for the limit it exceeds |
| Signature.ValidatePrinted | src/rustbus_core/message_builder/body.rs:61-130 | A printed list of types that is not too long is accepted, or refused for nesting, or overflows the stack; no other error is possible |
| Signature.AcceptedIsDescribed | src/rustbus_core/message_builder/body.rs:61-130 | Everything accepted is a printed list of single complete types within the limits |
| Signature.ValidateIff | src/rustbus_core/message_builder/body.rs:61-130 | Accepted if and only if it is the printing of a list of single complete types, at most 255 long, at most 32 arrays and 32 structures deep, needing at most 64 open frames |
| Signature.ReachableStates | src/rustbus_core/message_builder/body.rs:70-118 | The counters are always the open arrays and structures, a dict entry sits directly on an array, and there are at most twice the arrays plus the structures frames |
| Signature.NoBraceNoPanic | src/rustbus_core/message_builder/body.rs:70-101 | On no text without dict entries, valid or not, does the stack overflow |
| Signature.NoDictFits | src/rustbus_core/message_builder/body.rs:70 | Types without dictionaries within the nesting limits fit the stack |
| Signature.ValidSignatureOverflows | src/rustbus_core/message_builder/body.rs:70 | A valid signature makes the stack overflow |
| Body.ValidJoined | src/rustbus_core/message_builder/body.rs:237-243 | Two valid signatures in a row are one, if not too long |
| Body.PushKeepsSignature | src/rustbus_core/message_builder/body.rs:231-257 | Looking only at the new segment suffices: the whole signature stays valid |
| Body.JudgeType | src/rustbus_core/message_builder/body.rs:237-256 | The verdict on one segment: which error when; the panic on an invalid segment is unreachable for types that fit the stack |
| Body.PushVerdict | src/rustbus_core/message_builder/body.rs:231-338 | A push of several values succeeds if and only if all marshal, the signature is not too long, and all types are within the limits; it panics only on a type too deep for the stack |
| Body.NoDictNoPanic | src/rustbus_core/message_builder/body.rs:239-253 | A push of values without dictionaries in their types never panics, however deep they are |
| Body.PushMarshals | src/rustbus_core/message_builder/body.rs:231-338 | After a push each value was marshalled behind the one before, from the old buffer and descriptors to the new ones |
| Body.PushFails | src/rustbus_core/message_builder/body.rs:231-256 | A refused push names the first value that fails and the first test it does not pass |
| Body.MessageBody.PushParams | src/rustbus_core/message_builder/body.rs:213-338 | Success if and only if all values marshal and fit: then buffer and descriptors are those after marshalling every value behind the one before, and the signature grows by their types. Otherwise buffer, signature and descriptors are exactly as before, and the error is that of the first value that fails |
| Body.MessageBody.PushVariant | src/rustbus_core/message_builder/body.rs:341-354 | The same for a variant, whose signature is always `v`, with the error of the test that fails |
| Body.MessageBody.Reset | src/rustbus_core/message_builder/body.rs:190-196 | Signature and buffer are empty, descriptors are kept: a new body if and only if there were none |
| Calls.InsertHandler | src/routing.rs:174-211 | Inserting a handler changes the lookup of that path and of no other, and the node is kept |
| Calls.RemoveHandler | src/routing.rs:174-211 | The lookup of every path after inserting `Nothing`, and when the parent keeps the node |
| Calls.RemovesExactlyIff | src/routing.rs:174-211 | Inserting `Nothing` removes that path alone if and only if it is a node or the deepest node towards it is the root or has a handler |
| Calls.RemovalLosesQueue | src/routing.rs:185-197 | A trie in which removing an unregistered path drops the queue of its sibling |
| Calls.MapAfterInsert | src/routing.rs:174-211 | On the flat map an insertion is an update, the removal of one path, or the removal of a subtree |
| Calls.InsertKeepsPruned | src/routing.rs:174-211 | No node below the root is left without handler and children |
| Calls.InsertKeepsQueues | src/routing.rs:72-82 | Queues stay distinct |
| Calls.BuildRefinesFlat | src/routing.rs:128-215 | Over any run of insertions the trie is pruned, its queues are distinct, and, while removals are of paths that drop out alone, it is the flat map of the same updates |
| Calls.ActionActs | src/routing.rs:72-173 | After an insertion calls for the path, and below it up to the next registered path, are handled as the action is documented: queued, queued for the path itself only, answered with the children, or dropped |
| Calls.ActionRoundTrip | src/routing.rs:117-126 | `get_action` gives the action that was inserted |
| Calls.ActionIff | src/routing.rs:216-233 | `get_action` gives nothing exactly where there is no node, and the action that does nothing exactly for nodes that are not registered; the nodes are the root and what leads to a registered path |
| Calls.CallHierarchy.Insert | src/routing.rs:174-211 | The recursion in place, over nodes that own their children, does what the specification does to the value |
| Calls.CallHierarchy.InsertPath | src/routing.rs:212-215 | One insertion as an operation on the flat map, with what the action means for calls and for `get_action`, keeping the trie pruned and its queues distinct |
| Calls.SendIsDecided | src/routing.rs:146-173 | The recursive router equals: find the longest existing prefix, then the nearest registered path at or above it, and decide by its handler, by exactness, and for introspection by whether that is the deepest node; the children given are those of the target, or none |
| Calls.MatchIsNearest | src/routing.rs:234-264 | A path matches a call if and only if it is the nearest registered one and its handler is a queue, or an exact queue for the path itself or with a node below it on the way |
| Calls.RoutesIff | src/routing.rs:146-173 | A queue gets a call if and only if its path is the nearest registered one, for an exact queue only the path itself |
| Calls.RoutersAgree | src/routing.rs:146-269 | The two routers agree if and only if the call does not pass an exact path, that is lie strictly below it with the next child existing and leaving it unhandled |
| Calls.MatchesOnePath | src/routing.rs:234-269 | No call matches two paths |
| Calls.ExactMatchesWhatItDrops | src/routing.rs:234-264 | A trie in which a call matches an exact path and is dropped |
| MatchRules.PathSubset | src/routing.rs:529-552 | The loop over both component lists decides by strict containment of the namespaces |
| MatchRules.CmpOrder | src/routing.rs:490-602 | `cmp` is Equal if and only if the rules are equal, and swapping the arguments reverses it |
| MatchRules.CmpByWeight | src/routing.rs:577-602 | The order by another definition: what the rules set, weighed, decides, except that behind sender and path the inner of two nested namespaces comes first; equal weights are decided by the values |
| MatchRules.StrCmpIff | src/routing.rs:596-601 | Strings are compared lexicographically |
| MatchRules.TiesIff | src/routing.rs:596-601 | Among rules that set the same fields the first that differs decides: sender, path, namespace, interface, member |
| MatchRules.NamespaceIff | src/routing.rs:429-437 | On valid object paths a namespace holds the path itself and exactly what continues it after a slash |
| MatchRules.MatchesIff | src/routing.rs:407-457 | A rule matches exactly the signals that have the values it sets and whose path is in its namespace, on the strings; nothing but signals |
| MatchRules.TransitiveIff | src/routing.rs:577-602 | `cmp` is transitive on the rules with given namespaces if and only if none is strictly inside another that is unrelated to a third |
| MatchRules.ForkCycle | src/routing.rs:587-595 | Any such three namespaces give three rules each less than the next |
| MatchRules.NotTransitive | src/routing.rs:587-595 | /a/b, /a and /c are such namespaces, and valid object paths |
| MatchRules.CmpChain | src/routing.rs:577-602 | Without such a fork `cmp` chains like a weak order, steps 1 to 11 together |
| MatchRules.MatchingHaveNoFork | src/routing.rs:407-457 | The rules that match one signal have no fork among their namespaces |
| MatchRules.MatchingAreOrdered | src/routing.rs:407-602 | Among the rules that match one signal `cmp` is a strict total order |
| MatchRules.SpecificFirst | src/routing.rs:555-576 | A rule whose signals are all matched by another equals it or comes before it |
| MatchRules.RenderComponents | src/routing.rs:430-438 | An object path has the components it was rendered from |
| MatchRules.Search | src/lib.rs:591-599 | The loop of binary search is the specified probing, on any list |
| MatchRules.ProbeFinds | src/lib.rs:591-599 | On a sorted list without a fork it finds the rule, or the place that keeps the list sorted |
| MatchRules.InsertRefines | src/lib.rs:588-602 | There an insertion adds the rule with an empty queue, or is refused if the rule is there |
| MatchRules.RemoveRefines | src/lib.rs:634-647 | And a removal takes out the rule and its queue if there, and nothing else |
| MatchRules.SigRefines | src/routing.rs:610-617 | On a sorted list a signal goes to the queue of the least matching rule, and to none if none matches |
| MatchRules.RunStaysSorted | src/lib.rs:588-662 | In every run over namespaces without a fork the list stays strictly sorted, and every operation is one on the rules as a map |
| MatchRules.ForkDuplicates | src/lib.rs:588-602 | Over any fork five insertions put a rule into the list twice |
| MatchRules.RunsKeepSetIff | src/lib.rs:588-662 | The list has no rule twice in any run over given namespaces if and only if they have no fork |
| MatchRules.SigMatches.Insert | src/lib.rs:588-602 | The insertion in place, for any list and rule |
| MatchRules.SigMatches.Remove | src/lib.rs:634-647 | The removal in place, for any list and rule |
| MatchRules.SigMatches.QueueSig | src/routing.rs:610-617 | The loop puts the signal at the end of the queue of the first rule that takes it, by its strings, and of no other; a message that is no signal goes nowhere |
| Replies.SerialsDistinctIff | src/lib.rs:427-433 | Serials are distinct if and only if at most 2^32 - 1 are drawn |
| Replies.RpcConn.AllocateIdx | src/lib.rs:427-433 | The wrapping counter skips zero and gives the n-th serial |
| Replies.ApplyKeepsInv | src/lib.rs:520-552 | Every step of any task keeps the invariant: a waiting, unanswered call has its sender registered under its serial; registered senders belong to their own calls and are unused; removals left behind are of dropped calls; no panic |
| Replies.RunIsSafe | src/lib.rs:663-697 | In every interleaving: the invariant holds, a call gets only replies with its serial, and one that waits has its answer as soon as one was read by anyone |
| Replies.AnsweredOnce | src/lib.rs:663-697 | If one reply to a call was read, then that is its answer while it lives, the only thing it can have returned, and it never finds its channel closed |
| Replies.PollReturns | src/lib.rs:699-716 | Over any run, a call that waits returns a reply it was sent the next time it is polled, if one was read by anyone, and with one reply that one; otherwise it goes on waiting |
| Replies.OwnReadReturns | src/lib.rs:676-678 | A call that reads its own reply returns it at once |
| Replies.DropRemoves | src/lib.rs:909-926 | A drop takes the sender out of the map, at once or by the task it leaves behind |
| Replies.RunLeaksNothing | src/lib.rs:909-926 | No sender stays in the map of a call that is gone, but one whose removal is under way, unless sending was abandoned |
| Replies.RpcConn.PollFuture | src/lib.rs:705-715 | A poll returns exactly what the channel holds; otherwise the call still waits, and it panics only on a closed channel |
| Replies.ReturnsOnce | src/lib.rs:520-546 | What a call has returned does not change |
| Replies.WrappedSerialPanics | src/lib.rs:547-552 | With one draw more than there are serials a waiting call can find its channel closed |
| Replies.RpcConn.QueueMsg | src/lib.rs:663-697 | The loop reads up to the first message for the waiter or call to refuse, dispatching every reply before it as the protocol's step does; it panics exactly if a reply without a reply serial comes before that |
| Replies.RpcConn.GetRecvAndInsertSender | src/lib.rs:547-552 | Registering a sender is the protocol's step; one it displaces is dropped |
| Replies.RpcConn.DropFuture | src/lib.rs:909-926 | Dropping a future removes its sender, or leaves the removal to a task if the lock is taken |
| Auth.ExternalAuth | src/conn/mod.rs:325-350 | For every user id below 10^9, and for no other, a line results: the hex form of the id's decimal form without leading zeros, which decodes to the id |
| Auth.LargestOrder | src/conn/mod.rs:331-338 | The first loop ends with the largest power of ten that fits, and overflows u32 exactly from 10^9 on |
| Auth.DecimalUnique | src/conn/mod.rs:339-346 | There is one decimal form of a number |

## Left out

- Raw file descriptors: duplication, closing, `conn/ancillary.rs`. Descriptors are numbers attached to bytes of the stream; a failing `dup` is not modelled.
- I/O errors other than would-block and hang-up, and shutting the stream down. After an error other than would-block and hang-up the receiver is ready for a new message; further calls on that stream are not modelled.
- Connecting, address parsing, the lines of the SASL exchange, environment variables.
- Wakers, fairness and liveness of `get_msg` and `send_msg_loop`: only safety of the steps taken under the locks.
- The order in which several `get_call` waiters are served, and signals that a waiting `get_signal` picks up by its own predicate: the claim about the least rule is for `queue_sig`.
- Validators, string reader and value marshalling of the `rustbus` crate: predicates and append-only functions. Its fixed-header reader and its variants for header fields are modelled from the D-Bus Specification, sections "Message Format" and "Marshaling (Wire Format)".
- Header fields with codes from ten on: the source indexes out of bounds there, the model has an error of its own (`Grammar.UnknownCode`). Field variants of other types end in an error.
- `u64` overflow of the send index.
- `with_capacity` and `reserve`: the spill-over buffer has any fixed capacity.
- Calls.CallHierarchy: the readers (`send_inner`, `find_inner`, `is_match_inner`) are functions of the trie's value, since they change nothing; the queues are identities, not their contents.
- MatchRules.SigMatches.Insert: the calls to the bus are left out; the undoing of an insertion the bus refuses is `Remove`.
- MatchRules.RenderComponents: `std::path::Path` is modelled for paths with slashes, empty parts and single dots.
- Replies.RpcConn.AllocateIdx: skipping zero is one step with the draw; before the counter wraps there is nothing to skip.
- Auth.ExternalAuth: arithmetic is checked, as in a debug build; the wrapped results of a release build for ids from 10^9 on are not described.
- Signature strings outside ASCII: lengths are counted in characters.
- Introspection XML, `match_string`, `ObjectPath`, standard messages and message builders: no state, or text only.
