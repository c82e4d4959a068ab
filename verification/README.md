# Verification of the SNMP manager library

A Dafny 4.11 model of an SNMPv1/v2c manager for microcontrollers, and proofs about it: the bounded BER codec, the
cooperative request client, the table join built on the client, and the low-level tracked dispatch. `dafny verify
dfyconfig.toml` checks everything. Capacities (OID text, payloads, packets, slots, rows) are symbolic; `unsigned long`
is 32 bits wide, as on the ESP targets.

## Reading order

- `Bytes`, `Header`, `Integers`, `Oids`, `OidCodec`, `OidOrder`: octets, framing, integers, names. Functions say what
  octets mean; the methods beside them are the library's loops, proved against those functions.
- `Trees`, `Serialiser`, `Messages`, `Response`, `Values`: value trees, the two-pass serialiser and the decoder over
  byte arrays, messages, and the response object. `Framing` and `Datagrams` say exactly which octets are accepted.
- `Packing`, `Requests`, `Outgoing`, `Informs`: the second, in-place encoder (wrap, append, two memmoves in one fixed
  buffer), that it agrees with the tree encoder, and the notifications that are acknowledged. `Capacity` and
  `Wire` say how many bindings a request takes and what it contains.
- `Operations` is the specification of one operation, `Engine` of the whole client: a transition system over slots,
  request IDs, the clock, logs of the datagrams sent and of the runs completed, and user code that runs inside
  callbacks and completion handlers and may start, cancel and configure anything. `OperationLaws`, `ReplyLaws`,
  `EngineLaws`, `StepLaws`, `RunLaws` and `Runs` prove one invariant over all of it, and `Reentrancy` that it
  holds wherever user code runs.
- `Acceptance` and `Starts` (configuration and scheduling), `Outcomes` (replies) and `Timing` (the clock) say exactly
  what each step does, in terms of its inputs. `Pacing`, `Termination`, `Guarantees`, `Correlation`, `Traffic`,
  `Agents`, `WalkSteps`, `Walks`, `Endings`, `Consequences` and `Refusals` draw the results for whole runs; `Scenarios`
  steps through two short ones.
- `Operation` and `Client` are the objects themselves: fields, slots and buffer updated in place, each method proved
  to do what the transition system says.
- `Joins` defines the table that a set of column walks stands for; `Table` is the object that builds it value by value,
  and `Fallbacks` tells which walks it makes. `TableWalks` puts it on top of the client, `TableHistory` replays it from
  the completion log, `TableRuns` shows that runs with the table's handler make such logs, and `AgentTables` compares
  the table with the agent.
- `Registrations` treats pending requests as bounded sets, `Deliveries` says where a reply's values go,
  `Dispatches` treats whole runs of sends and replies; `Tracking` and `Routing` are the objects.

## What is assumed about the outside

The network delivers any packets in any order, loses and repeats them. Loop calls happen at any time; only the
theorems on deadlines ask for calls less than 2^32 - 60000 ms, or at most 2^31 ms, apart, and the one on retransmissions
for a clock that does not go back. Agents may answer anything, except in the theorems on complete walks and tables,
where the packets that a walk takes are honest answers to some datagram sent under the same ID: successors in order
(none, some or more than requested) with values the agent may have, endOfMibView behind the last name, any error status
at any time, and v1 noSuchName only at the end. A dutiful agent also has no errors but that one and tooBig, and answers
a request for one successor with at least one binding.

## Where the code does not do what its interface suggests

These are stated for all inputs with the exact condition under which the promise holds.

- `Consequences.RestartedSetSendsTheEcho`: a reply to a SET overwrites the configured values, so starting the same SET
  again sends what the agent echoed; it sends what was configured exactly when the echo was that. Failing run:
  `Scenarios.RestartedSetWritesAnother`.
- `Refusals.RefusalEndsTheRunShown`: a streaming callback that returns false ends the run it was shown exactly when its
  own calls, and the handlers they set off, reach no cancellation of that walk while it is pending. Otherwise the run is
  completed a second time, CapacityExceeded over Cancelled (`Refusals.RefusalAfterCancel`), or the run that the callback
  has started instead ends unsent (`Refusals.RefusalEndsTheNextRun`).
- `Informs.SameButForTheType`: only the response parser looks at the outermost tag octet, so an INFORM under another tag
  than 0x30 is taken and acknowledged under 0x30. Acknowledgement and request differ in the PDU type alone exactly when
  the request's tag is 0x30. Failing input: any INFORM with that octet replaced (`Informs.AnyOuterTagIsAcknowledged`).
- `Consequences.RootKeepsResults`: configuring a new root overwrites the first retained result of a completed walk unless
  that result is an unstarted entry of the same spelling. Failing run: `Scenarios.RootOverwritesTheResult`.

## Model

| member | source | states |
|---|---|---|
| `Header.ReadBERHeader` | src/BER.cpp:598-618 | the byte loop, which gives up early, reports what the octets spell (`Framing.HeaderExact` says what that is) |
| `Framing.HeaderExact` | src/BER.cpp:596-618 | a header is reported exactly when the octets are a tag, a length up to 65535 in the short form below 128 or in 1 to 126 length octets with any zeros in front, and at least that many contents octets; nothing else reads |
| `Header.HeaderRoundTrip` | src/BER.cpp:598-618 | reading the header of any shortest-form encoding gives its size and content length, whatever follows |
| `Header.HeaderIsShortest` | src/BER.cpp:598-618 | every accepted header is at least as long as the one the library would write for the same length |
| `Integers.IntegerContents` | src/BER.cpp:44-75 | the stripping loop emits the shortest two's complement (signed tags) or non-negative (unsigned tags) contents of a 32-bit value |
| `Integers.IntegerValue` | src/BER.cpp:76-99 | the decoding loop accepts exactly the contents whose value fits the tag's range, padded or not, and stores its 32 bits |
| `Integers.ShortestIsUnique` | src/BER.cpp:44-75 | there is only one shortest contents for a value (X.690 section 8.3.2), so the encoder's choice is the canonical one |
| `Integers.AcceptedInteger` | src/BER.cpp:76-99 | decoding returns the value denoted by any accepted sign- or zero-padded form |
| `Integers.IntegerRoundTrip` | src/BER.cpp:44-99 | decoding what was encoded returns the same bits, for every tag and every 32-bit value |
| `Integers.Counter64Contents` | src/BER.cpp:372-400 | the Counter64 loop emits the shortest contents of every 64-bit value |
| `Integers.AcceptedCounter64` | src/BER.cpp:401-422 | every accepted Counter64 contents denotes the number stored, leading zeros included |
| `Integers.Counter64RoundTrip` | src/BER.cpp:372-422 | encoding and decoding a 64-bit value returns it |
| `OidCodec.ContentsOfText` | src/BER.cpp:210-295 | the text parser with its base-128 writer produces exactly the contents octets of the arcs, or refuses the text, arc by arc and with the same limits |
| `OidCodec.TextOfContents` | src/BER.cpp:296-341 | the base-128 reader with its decimal writer produces exactly the canonical text of the subidentifiers, or refuses the octets |
| `Oids.TextRoundTrip` | src/BER.cpp:210-341 | text to wire to text yields the canonical text of the same arcs |
| `Oids.WireRoundTrip` | src/BER.cpp:210-341 | wire to text to wire returns identical contents octets; everything decoded can be encoded again |
| `Oids.SubidentifiersHalf` | src/BER.cpp:210-295 | contents octets never exceed half of the canonical text |
| `Oids.ContentsFit` | src/BER.cpp:210-295 | so the overflow guard on the contents array cannot fire and a name always fits the caller's scratch buffer |
| `Oids.CanonicalFormIs` | src/SNMPClient.cpp:339-348 | the spelling kept for a dotted text exists exactly when the text can be encoded; it is canonical, denotes the same arcs, fits the text capacity and has the same contents octets |
| `OidOrder.CompareOID` | src/SNMPClient.cpp:134-151 | on canonical texts the digit loops compute the lexicographic order of the arcs |
| `OidOrder.UnderIsPrefix` | src/SNMPClient.cpp:734-738 | the text-prefix-plus-dot test holds exactly when the root's arcs are a strict prefix of the name's arcs |
| `OidOrder.SubtreeContiguous` | src/SNMPClient.cpp:734-738 | nothing outside a subtree lies between its root and one of its members |
| `Serialiser.Serialise` | src/BER.cpp:535-575 | measure-then-write returns the encoded size and writes exactly the encoding, or returns -1 and leaves the buffer untouched; the failure return between two children is not reachable |
| `Serialiser.Measure` | src/BER.cpp:535-575 | the measuring pass returns the size that the writing pass will write |
| `Serialiser.DecodeBuffer` | src/BER.cpp:440-519 | the offset-advancing decoder returns the tree that the octets denote, with the same depth and bounds checks |
| `Trees.TreeRoundTrip` | src/BER.cpp:440-575 | decoding the serialisation of a well-formed tree gives the tree back, whatever follows it, if and only if it has at most 32 levels |
| `Trees.ReencodeNeverGrows` | src/BER.cpp:440-618 | anything decoded, however wastefully it was encoded, is well formed, encodes in no more octets than were received, and decodes to the same tree again |
| `Trees.EncodeInjective` | src/BER.cpp:535-575 | two decodable trees with the same octets are the same tree |
| `Framing.LeafExact` | src/BER.cpp:76-422 | a leaf is decoded from exactly these contents: for a number, 1 to 4, 5 or 9 octets (INTEGER, unsigned, Counter64) whose two's complement is its value; for a name, the subidentifiers of 2 to 128 legal 32-bit arcs of which it is the text; strings and addresses within their sizes; nothing for NULL and the exceptions |
| `Framing.TextExact` | src/BER.cpp:210-295 | a dotted text is encoded exactly when it joins decimal numerals, leading zeros allowed, of legal arcs, and then to their subidentifiers |
| `Framing.DecodeExact` | src/BER.cpp:440-618 | octets decode to a tree exactly when they begin with a spelling of it, each length in any form and each leaf in any contents that stand for it, and it has at most 32 levels |
| `Messages.ParseTreeExact` | src/SNMPGetResponse.cpp:31-110 | a tree yields a message exactly when it is that message's tree and the message is valid: nothing is lost or invented |
| `Messages.MessageRoundTrip` | src/SNMPGetResponse.cpp:31-110 | parsing a message's own serialisation recovers every field and every binding in order |
| `Messages.AcceptedIsSendable` | src/SNMPGetResponse.cpp:31-110 | whatever packet is accepted, its names and payloads lie within the limits and its tree is the message's tree |
| `Datagrams.ParseExact` | src/SNMPGetResponse.cpp:31-110 | a datagram parses to a message exactly when it begins, under the tag 0x30, with a spelling of it and the message is proper: version, PDU type, integer ranges and binding types, each condition written out |
| `Response.SNMPGetResponse.ReadFields` | src/SNMPGetResponse.cpp:43-87 | the shape checks accept exactly the right message and PDU shapes and fill the scalar fields |
| `Response.SNMPGetResponse.ReadBindings` | src/SNMPGetResponse.cpp:88-106 | the loop appends every binding in order, or fails on the first bad entry |
| `Response.SNMPGetResponse.ParseFrom` | src/SNMPGetResponse.cpp:31-110 | on any octets the fields afterwards are the parsed message, or the call fails; nothing survives from an earlier packet |
| `Values.CopyThenSend` | src/SNMPClient.cpp:78-202 | a value copied out of a reply is sent back as the very container it was read from |
| `Acceptance.CopyExact` | src/SNMPClient.cpp:155-202 | which status a decoded value is copied with and what the copy holds, for every container; exceptions are Missing, long payloads CapacityExceeded |
| `Values.ValueOctetsEncode` | src/SNMPClient.cpp:78-132 | within the decoder's limits the direct encoding of strings equals the container's own serialisation |
| `Packing.Wrap` | src/SNMPClient.cpp:41-69 | succeeds exactly when header and contents fit, shifts the contents right by the header and otherwise changes nothing |
| `Packing.Append` | src/SNMPClient.cpp:70-77 | appends the serialisation behind what is there, or leaves everything in front of the end as it was |
| `Packing.AppendValue` | src/SNMPClient.cpp:78-132 | appends the value's octets, or fails without touching what is there |
| `Packing.PackBindings` | src/SNMPClient.cpp:532-549 | the filling loop packs as many whole bindings as the specification counts, and the buffer holds exactly their octets |
| `Packing.PackCursor` | src/SNMPClient.cpp:519-531 | a walk packs its cursor with NULL, or reports that it does not fit |
| `Packing.Envelop` | src/SNMPClient.cpp:570-604 | both prefixes, both memmoves and all later wraps stay inside their buffers and cannot fail; the result is the whole datagram around the packed bindings |
| `Requests.DatagramIsTree` | src/SNMPClient.cpp:570-604 | the datagram built in place is byte for byte the serialised message tree |
| `Requests.RequestRecovered` | src/SNMPClient.cpp:508-604 | parsing the datagram recovers version, community, PDU type, request ID and exactly the requested names and values in order; an OID payload written with leading zeros comes back in canonical form |
| `Requests.CheckedIsConfigured` | src/SNMPClient.cpp:350-386 | every SET value that add accepts can be sent and read back so, if a string fits the container it is read into |
| `Requests.ReadsAlwaysPack` | src/SNMPClient.cpp:513-549 | with the default OID capacity and packets of at least 237 octets a read always packs at least one binding |
| `Requests.WalksAlwaysPack` | src/SNMPClient.cpp:513-531 | under the same capacities a walk request always fits |
| `Outgoing.FillBody` | src/SNMPClient.cpp:532-549 | whatever the filling loop counts has an encoding that fits the room left beside the envelope |
| `Outgoing.PendingPacks` | src/SNMPClient.cpp:513-554 | so a pending read or walk of the client can always be sent: it is never refused for lack of packing space, whatever it has read so far |
| `Outgoing.RequestOnWire` | src/SNMPClient.cpp:508-614 | while an operation waits, a datagram is on the wire under its ID, and every such datagram parses to its own request; a SET carries all of its bindings |
| `Wire.RequestFields` | src/SNMPClient.cpp:508-614 | field by field: what is on the wire under the ID of a request in flight has the operation's version, community, PDU type and ID, no error, 4 repetitions if in bulk, and exactly the cursor, the batch of names, or the names and values of the SET |
| `Capacity.RequestTakes` | src/SNMPClient.cpp:532-549 | a read or write packs as many bindings as fit, each but the last leaving 16 octets for it and every one before it, and stops only for a stated reason |
| `Capacity.SetSendsWhole` | src/SNMPClient.cpp:513-554 | a SET can be sent exactly when all of its bindings fit so |
| `Informs.ReadInformExact` | src/SNMPClient.cpp:911-988 | a datagram is taken for an INFORM exactly when it decodes, under any outermost tag octet, to the tree of a valid message that announces one |
| `Datagrams.InformExact` | src/SNMPClient.cpp:911-988 | so exactly when it begins with a spelling of an SNMPv2 INFORM of the registered community with zero error fields, led by sysUpTime.0 as TimeTicks and snmpTrapOID.0 as an object identifier, each condition written out |
| `Informs.AcknowledgementFits` | src/SNMPClient.cpp:996-1006 | the acknowledgement of any INFORM that notify decodes, however wastefully encoded and under whatever outermost tag, fits the octets received, parses to the same message with another PDU type, and differs in one octet from the shortest encoding of the request |
| `Informs.SameButForTheType` | src/SNMPClient.cpp:996-1006 | acknowledgement and request differ in the PDU type alone exactly when the request's outermost tag is 0x30, which is exactly when the request parses as a message itself |
| `Informs.AnyOuterTagIsAcknowledged` | src/SNMPClient.cpp:635-646 | for every INFORM and every other outermost tag, the datagram with that tag is refused by the response parser, taken for the same INFORM and acknowledged under 0x30 |
| `Informs.Acknowledge` | src/SNMPClient.cpp:996-1006 | decode, retag and re-encode over the shared buffer leaves exactly that acknowledgement in it |
| `Informs.Notify` | src/SNMPClient.cpp:911-1008 | the checks in order, with their loops: a datagram is answered exactly when it is an INFORM for the community and the application accepts it; otherwise the buffer stays as it is |
| `OperationLaws.AddKeeps` | src/SNMPClient.cpp:333-394 | earlier results stay, the new one carries the kept spelling of a name not there yet, and a failure changes nothing |
| `Acceptance.ValueExact` | src/SNMPClient.cpp:350-386 | for each type exactly which SET values are accepted, and why others are refused: numbers above 32 bits, strings that are too long, texts that spell no object identifier, addresses that are not four octets, Counter64 under SNMPv1 only, and every other type |
| `Acceptance.AddExact` | src/SNMPClient.cpp:333-394 | a name is added exactly when the operation is idle and has room, the text spells an object identifier that it does not have yet, and the value, if any, may be set; it becomes one unstarted result and nothing else changes |
| `Acceptance.AddRefused` | src/SNMPClient.cpp:333-394 | the answers to a refused addition: Busy before CapacityExceeded before InvalidOID, exactly when their conditions hold |
| `OperationLaws.AddBufferSuffices` | src/SNMPClient.cpp:339-348 | the scratch buffer in which a name is encoded always suffices |
| `OperationLaws.ScheduledKeeps` | src/SNMPClient.cpp:450-497 | an accepted start establishes the operation's invariant: everything pending, nothing sent, no ID |
| `Starts.StartExact` | src/SNMPClient.cpp:450-497 | a start succeeds exactly when the operation is idle and can be asked, the client has begun and a slot is free; it takes the first one and resets the operation field by field; otherwise nothing changes and the answer names the first thing that was wrong |
| `Starts.CancelExact` | src/SNMPClient.cpp:411-429 | cancelling ends a pending operation as Cancelled, open results included, and leaves any other alone |
| `OperationLaws.FinishedKeeps` | src/SNMPClient.cpp:416-429 | finishing settles every pending result, leaves every settled one as it is, and establishes what the completion handler may rely on: for a read or write, Success exactly when all results are usable |
| `OperationLaws.TickKeeps` | src/SNMPClient.cpp:833-878 | every clock decision keeps the invariant: a retry spends an attempt, a shorter batch pays for an unanswered ID, a SET is never retried |
| `Timing.WaitingStep` | src/SNMPClient.cpp:852-877 | an operation in flight, inside its walk deadline, is left exactly as it is while less than its timeout has passed since its last datagram; then that datagram is repeated byte for byte, unless it was a SET or no attempt is left; then a bulk walk asks for single successors and a read of several names for half of them; anything else times out |
| `Timing.UnsentStep` | src/SNMPClient.cpp:846-851 | an operation with nothing in flight sends at once, under the next ID, and a run's first datagram starts its deadline; it ends if nothing fits, no ID is left or the transport refuses |
| `Timing.DeadlineStep` | src/SNMPClient.cpp:841-845 | a walk whose first datagram is 60000 ms old times out, whatever it waits for |
| `Pacing.RetransmissionsKeepTheirDistance` | src/SNMPClient.cpp:852-877 | in every run whose clock does not go back, datagrams of one request leave at least its timeout apart, and a read ends with Timeout only when the timeout of its last datagram has passed, in true time |
| `Pacing.NothingIsOverdue` | src/SNMPClient.cpp:833-878 | with loop calls at most 2^31 ms apart, after every loop call each request that still waits was last sent less than its timeout ago, and the clock reading kept for it is of that datagram |
| `Termination.ReadsEnd` | src/SNMPClient.cpp:833-878 | every read and write ends, whatever is received or lost: with loop calls at most g ms apart, one of n names is over with the first loop call more than (n + floor(log2 n)) * (retries + 1) * (timeout + 2g) ms after its first datagram |
| `OperationLaws.TransmittedKeeps` | src/SNMPClient.cpp:560-613 | a transmission keeps the traffic measure and marks the request as sent |
| `ReplyLaws.ReplyHeadKeeps` | src/SNMPClient.cpp:661-714 | every error status leads to a legal finish, a legal new request, or the bindings |
| `Outcomes.MalformedReply` | src/SNMPClient.cpp:661-666 | an undefined error status or a negative index ends any operation with ProtocolError |
| `Outcomes.ErrorToWrite` | src/SNMPClient.cpp:687-714 | every error ends a SET at once: tooBig with CapacityExceeded, others with ProtocolError |
| `Outcomes.ErrorToRead` | src/SNMPClient.cpp:667-695 | the noSuchName of SNMPv1 splits a batch into single names, marks a single name Missing and goes on behind it, or ends the read as Missing or Partial; tooBig halves a batch; everything else ends the read |
| `Outcomes.ErrorToWalk` | src/SNMPClient.cpp:696-714 | the noSuchName of SNMPv1 completes a walk with Success, tooBig turns bulk into single successors, everything else ends it |
| `ReplyLaws.CommitKeeps` | src/SNMPClient.cpp:784-823 | a batch is committed all or nothing from a complete, ordered reply, and every usable cell is backed by a matched reply |
| `Outcomes.ReadAnswered` | src/SNMPClient.cpp:784-823 | a complete, ordered answer stores the copy of each value in its result, which is usable exactly when the value can be copied and is of an expected type, a TypeMismatch exactly when it can be copied and is not, and otherwise has the copy's status; other results stay; behind the last batch the run ends, with Success exactly when all are usable; any other answer ends it with ProtocolError and stores nothing |
| `ReplyLaws.DeliverKeeps` | src/SNMPClient.cpp:716-757 | a delivered binding is greater than everything before it, strictly below the root, and taken with the value the reply gave |
| `ReplyLaws.WalkEndKeeps` | src/SNMPClient.cpp:758-783 | an empty bulk reply falls back to single successors, an empty single reply ends the walk |
| `Outcomes.WalkAnswered` | src/SNMPClient.cpp:716-783 | exactly how far an answer takes a walk whose callback makes no calls, collecting or streaming, and why not further: the end of the names and a name outside the subtree complete it, a name that is not later is an error, a full list or a refusal ends it; behind the last binding it asks again, in single steps after an empty bulk reply, and ends after an empty single one |
| `EngineLaws.ReleaseKeeps` | src/SNMPClient.cpp:416-429 | freeing the slot before the handler keeps the scheduler, ID, wire and completion-log invariants |
| `EngineLaws.ScheduleKeeps` | src/SNMPClient.cpp:450-497 | a start, accepted or rejected, keeps the invariant of the whole client |
| `EngineLaws.FinishOpKeeps` | src/SNMPClient.cpp:416-429 | completion keeps the invariant although the handler may start, cancel and configure anything, recursively |
| `StepLaws.WalkLoopKeeps` | src/SNMPClient.cpp:716-783 | the binding loop keeps the invariant although the streaming callback may do the same between any two bindings |
| `RunLaws.ReceiveKeeps` | src/SNMPClient.cpp:615-824 | handling any parsed reply keeps the invariant, sends nothing and allocates no ID |
| `RunLaws.SendOpKeeps` | src/SNMPClient.cpp:508-614 | a transmission opens the next ID or repeats its own, logs at most one datagram, and every refusal ends the operation |
| `RunLaws.TickSlotKeeps` | src/SNMPClient.cpp:833-878 | one visit of the loop keeps the invariant |
| `RunLaws.WrappedElapsed` | src/SNMPClient.cpp:828-845 | the 32-bit difference of two clock readings is their true distance, wrap or no wrap, when that is below 2^32 |
| `Runs.RunKeeps` | src/SNMPClient.cpp:615-878 | the invariant holds after every sequence of packets, clock readings and reentrant user code |
| `Runs.WalkDeadline` | src/SNMPClient.cpp:828-845 | with loop calls less than 2^32 - 60000 ms apart no walk datagram leaves 60000 ms or more after the first of its walk, and no loop call leaves such a walk waiting |
| `Reentrancy.SchedulerInvariant` | src/SNMPClient.cpp:419-503 | an operation is pending exactly when it occupies exactly one slot: between events, and in every state in which user code runs, that is in every streaming callback, in every completion handler, and after each call that these make, at any depth |
| `Guarantees.ResultIntegrity` | src/SNMPClient.cpp:784-823 | when a read or write has ended nothing is pending, Success means every result is usable, and usable results hold values that matched replies bound to their names; between events, and in every state that a completion handler is called in, whatever the handler then does |
| `Guarantees.ProgressIsAPrefix` | src/SNMPClient.cpp:784-823 | while a read is under way exactly the results in front of the offset are settled |
| `Guarantees.SettledStays` | src/SNMPClient.cpp:810-823 | settled results and delivered names stay as they are until the next accepted start |
| `Guarantees.WalkSafety` | src/SNMPClient.cpp:727-757 | against any agent the names a walk has taken increase strictly, are strict descendants of the root and carry values that replies bound to them; while it runs, afterwards, and in its completion handler |
| `Guarantees.IdsAscend` | src/SNMPClient.cpp:560-569 | a transmission carries an ID above all earlier ones or repeats an earlier datagram byte for byte |
| `Correlation.ReplyFindsItsRequest` | src/SNMPClient.cpp:649-660 | at most one waiting operation matches a reply, and the scan finds it wherever it is |
| `Outcomes.AddressedIsTaken` | src/SNMPClient.cpp:649-660 | a packet with the ID, peer, port, version and community of a request in flight is given to that operation |
| `Starts.UnaddressedIgnored` | src/SNMPClient.cpp:649-660 | and a packet for which no request has all of these changes nothing |
| `Correlation.UnexpectedIgnored` | src/SNMPClient.cpp:649-660 | a reply that no waiting operation matches changes nothing |
| `Correlation.AnsweredAtMostOnce` | src/SNMPClient.cpp:615-824 | after a reply was taken, no later packet under the same ID changes anything, in any continuation |
| `Traffic.RunTallied` | src/SNMPClient.cpp:558-614 | the counters of request IDs and datagrams equal what the wire log shows for the current run |
| `Traffic.TrafficBound` | src/SNMPClient.cpp:669-695 | n names take at most n + floor(log2 n) request IDs and retries + 1 datagrams for each; a SET is transmitted at most once per run |
| `Traffic.ReadsGoOut` | src/SNMPClient.cpp:508-614 | when the time of a pending read or walk has come, exactly one datagram of its run is handed to the transport, under the next ID or its own |
| `Walks.WalkComplete` | src/SNMPClient.cpp:696-783 | against an honest agent, with packets lost, repeated, delayed and reordered, a walk that ends with Success has taken exactly the strict descendants of its root, in order, each once, with values the agent may answer; a collecting walk has exactly these as results; between events and in every completion handler, even if the handler restarts the walk |
| `Walks.WholeOfConstants` | src/SNMPClient.cpp:739-757 | if the agent's values do not change, each cell is the copy of the value under its name |
| `Walks.WalksAgree` | src/SNMPClient.cpp:859-866 | so GetNext and GetBulk walks of the same subtree deliver the same names |
| `Endings.EndOfNames` | src/SNMPClient.cpp:696-701 | in any run against an honest agent, the noSuchName that an SNMPv1 agent sends behind its last name completes the walk with Success, and its handler finds the whole subtree |
| `Endings.DutifulWalksEndWell` | src/SNMPClient.cpp:661-783 | if the agent's only errors are tooBig and that noSuchName and it answers single requests with something, every walk ends with Success, CapacityExceeded, TransportError, Timeout or Cancelled and never with ProtocolError, between events and in every handler |
| `Endings.AgentIsDutiful` | tests/native/support/mock_agent.cpp:171-232 | the simulated agent is such an agent |
| `Agents.MembersExact` | src/SNMPClient.cpp:727-738 | the expected list holds the names strictly below the root, all of them and no other, increasing |
| `Agents.AgentIsHonest` | tests/native/support/mock_agent.cpp:171-232 | the simulated agent answers every walk request honestly, so the assumption of the completeness theorem can be met |
| `Consequences.HandlerFindsASlot` | src/SNMPClient.cpp:416-429 | in a completion handler the invariant holds and a start is decided by admission alone: a chained start never lacks a slot |
| `Consequences.HandlerCanRestart` | src/SNMPClient.cpp:416-503 | in its completion handler the operation that has just finished can always be started again |
| `Refusals.RefusalEndsTheRunShown` | src/SNMPClient.cpp:741-754 | in the loop over a reply's bindings a callback that returns false completes the run it was shown, once and as CapacityExceeded, exactly when it reached no cancellation of the pending walk at any depth of handlers; otherwise that run was completed as Cancelled and is completed again, or a later run is ended instead |
| `Refusals.RefusalAfterCancel` | src/SNMPClient.cpp:741-754 | a callback that cancels the walk and returns false has Cancelled overwritten by CapacityExceeded and the run completed twice |
| `Refusals.RefusalEndsTheNextRun` | src/SNMPClient.cpp:741-754 | a callback that cancels, restarts and then refuses has its new run ended before anything was sent |
| `Consequences.RootAccepted` | src/SNMPClient.cpp:395-406 | a root is accepted exactly when the walk is idle, has a result slot and a spelling of the root can be kept |
| `Consequences.RootKeepsResults` | src/SNMPClient.cpp:395-406 | an accepted root keeps the retained results exactly when there are none or the first is an unstarted entry under the root's kept spelling; a usable first result is always lost while the status stays |
| `Scenarios.RootOverwritesTheResult` | src/SNMPClient.cpp:395-406 | a whole run from a new client in which a walk completes with one usable result and a new root destroys it |
| `Consequences.RestartedSetSendsTheEcho` | src/SNMPClient.cpp:488-493 | a restarted SET sends the values echoed by the previous reply; they are the configured ones exactly when the echo was |
| `Scenarios.RestartedSetWritesAnother` | src/SNMPClient.cpp:488-493 | a whole run from a new client in which a SET of 1 is echoed as 2 and started again: the second datagram writes 2 |
| `Operation.SNMPOperation.Add` | src/SNMPClient.cpp:333-394 | validation, duplicate scan and append, in place, as specified |
| `Operation.SNMPOperation.AddRange` | src/SNMPClient.h:396-419 | consecutive instances are appended all or none |
| `Operation.RangeAppends` | src/SNMPClient.h:396-419 | an accepted range appends exactly the instances first, first+1 and so on of the arcs that the column text spells, in canonical text and in order |
| `Starts.RangeExact` | src/SNMPClient.h:396-419 | a range is accepted exactly when it fits the operation and 32-bit arcs and each of its instances has a name that the operation does not have yet |
| `Operation.SNMPOperation.SetRoot` | src/SNMPClient.cpp:395-406 | the root is checked in the first result slot, in place, as specified |
| `Operation.SNMPOperation.Reset` | src/SNMPClient.cpp:460-493 | the reset of an accepted start, in place |
| `Operation.SNMPOperation.Settle` | src/SNMPClient.cpp:416-425 | the settling loop of finish, in place |
| `Operation.SNMPOperation.Answers` | src/SNMPClient.cpp:784-800 | the completeness check walks the bindings and accepts exactly the requested names in order |
| `Operation.SNMPOperation.Copy` | src/SNMPClient.cpp:801-809 | the commit loop replaces exactly the batch |
| `Operation.SNMPOperation.Judge` | src/SNMPClient.cpp:813-821 | the verdict loop |
| `Client.NewIsFresh` | src/SNMPClient.h:334-352 | a new operation is one that a client may start from |
| `Client.ConfiguredStaysFresh` | src/SNMPClient.cpp:333-406 | and stays so through any configuration |
| `Client.SNMPClient.NewIsInitial` | src/SNMPClient.h:627-635 | a new client of such operations is in an initial world, and the invariant that every loop call relies on holds |
| `Client.SNMPClient.Begin` | src/SNMPClient.cpp:440-446 | the transport is opened once; later calls succeed and change nothing, and the invariant stays |
| `Client.SNMPClient.Schedule` | src/SNMPClient.cpp:450-497 | admission, slot search and reset change the object as the transition system says |
| `Client.SNMPClient.Remove` | src/SNMPClient.cpp:498-503 | the operation leaves every slot and nothing else moves |
| `Client.SNMPClient.Finish` | src/SNMPClient.cpp:416-429 | settle, free, then call the handler |
| `Client.SNMPClient.Pack` | src/SNMPClient.cpp:508-549 | the buffer holds the bindings that the specification says fit |
| `Client.SNMPClient.Send` | src/SNMPClient.cpp:508-614 | the object sends, refuses or fails as the transition system says, and the logged octets are those in the buffer |
| `Client.SNMPClient.HandleError` | src/SNMPClient.cpp:661-714 | the branches on the error status, in place, in the order that `Outcomes.ErrorToWrite`, `Outcomes.ErrorToRead` and `Outcomes.ErrorToWalk` account for |
| `Client.SNMPClient.CommitReply` | src/SNMPClient.cpp:784-823 | check, commit, advance and judge, in place (`Outcomes.ReadAnswered` says with what result) |
| `Client.SNMPClient.ReadWalk` | src/SNMPClient.cpp:696-783 | the binding loop of a walk with callbacks between the bindings |
| `Client.SNMPClient.Find` | src/SNMPClient.cpp:649-660 | the slot scan stops at the first operation whose whole context matches |
| `Client.SNMPClient.Take` | src/SNMPClient.cpp:615-660 | a datagram is taken only if it is one complete response that matches |
| `Client.SNMPClient.Tick` | src/SNMPClient.cpp:839-877 | deadline, first transmission, retry, fallback, shrink or timeout, in place (`Timing` says when each) |
| `Client.SNMPClient.Loop` | src/SNMPClient.cpp:833-878 | one loop call on the object is one step of the transition system and keeps its invariant |
| `Joins.JoinIndices` | src/SNMPTable.h:207-242 | row indices are distinct and are exactly the suffixes that some walk of some column delivered |
| `Joins.ConsumeJoins` | src/SNMPTable.h:210-242 | consuming one value turns the join of everything before it into the join with it |
| `Joins.FirstSeenOrder` | src/SNMPTable.h:219-230 | rows appear in the order in which their index was first delivered |
| `Table.TableRead.AddColumn` | src/SNMPTable.h:70-103 | a column is added exactly when all checks pass, under canonical names that denote the arcs written; otherwise nothing changes |
| `Table.TableRead.Start` | src/SNMPTable.h:111-132 | a rejected start preserves the rows, an accepted one clears them and walks the first column |
| `Table.TableRead.Consume` | src/SNMPTable.h:210-242 | a value is stored in its row and column, filling gaps only from a fallback; it is refused exactly when index or rows are full |
| `Table.TableRead.Advance` | src/SNMPTable.h:246-293 | cancellation and exhaustion end the table; otherwise the fallback is walked exactly when the rows leave something to fill, then the next column, then the verdict |
| `Table.TableIsOuterJoin` | src/SNMPTable.h:207-293 | a table that ended with Success or Partial is the outer join of its columns, every cell primary, fallback or failure, and Success means nothing failed |
| `Fallbacks.FallbackExactly` | src/SNMPTable.h:255-272 | such a table has walked the fallback of a column exactly when one is configured and no walk so far had delivered any index, or the column's walk failed, or its value under some index delivered so far was unusable |
| `TableWalks.RestartStarts` | src/SNMPTable.h:262-286 | giving the idle walk a column's root and starting it always succeeds, on any client that could start it before; the walk then stands at that root with nothing taken |
| `TableWalks.StartCouples` | src/SNMPTable.h:111-132 | an accepted start of the table leaves its walk standing where the table's history does |
| `TableWalks.ShowCouples` | src/SNMPTable.h:210-242 | whatever value the client shows, it continues the open walk's names below its root, which is what consume relies on, and if it is taken client and table agree again |
| `TableWalks.NextColumnCouples` | src/SNMPTable.h:275-286 | in the completion handler the walk of the next column always starts, the log shows the walk that ended, and client and table agree again |
| `TableWalks.FallbackCouples` | src/SNMPTable.h:255-272 | so does the walk of a fallback column |
| `TableWalks.QuietCouples` | src/SNMPTable.h:243-246 | anything that leaves the walk's root and takings alone leaves the agreement alone |
| `TableHistory.DeliveredIsFilled` | src/SNMPTable.h:210-242 | consuming a walk's values one by one gives the history that replaying its completion gives |
| `TableHistory.ReplaySound` | src/SNMPTable.h:246-293 | replaying the logged completions of a walk that the table drives: while it reads, its rows are the join of what the log shows; when it is finished it meets its contract and every walk it was built from is in the log |
| `TableRuns.TableDrives` | src/SNMPTable.h:111-293 | in every run in which the walk's completion handler is the table's own, its callback makes no calls and nobody else starts or configures it, each of the walk's runs is made below the root that the table reads next, whatever else happens |
| `AgentTables.TableOfAgent` | src/SNMPTable.h:207-293 | in every such run against an honest agent, when the table is over and its walks have succeeded, it has a row for every index under which the agent has an object and no other, each once, every cell is the agent's object, and Success means no cell is unusable; a fallback counts exactly when the agent's own objects left something to fill |
| `AgentTables.FallbacksOfAgent` | src/SNMPTable.h:255-272 | that condition on the agent's objects decides which fallbacks are walked |
| `Registrations.KeysCount` | src/ValueCallbacks.cpp:3-38 | the slots hold at most as many distinct keys as there are slots, and all of them exactly when no slot is free |
| `Registrations.DispatchAccounted` | src/Arduino_SNMP_Manager.cpp:136-225 | no reply, error or duplicate makes the updates since tracking began outnumber the requests tracked; a request listed twice counts once |
| `Registrations.DispatchAnswered` | src/Arduino_SNMP_Manager.cpp:165-225 | a tracked registration without the reply's key is left as it was; one with it is written at most once and gives the key up |
| `Registrations.NotRerouted` | src/Arduino_SNMP_Manager.cpp:186-217 | a late reply for a tracked name never reaches an untracked registration |
| `Deliveries.DispatchHandles` | src/Arduino_SNMP_Manager.cpp:136-365 | every parsed packet does to the registrations exactly what a relation written without the dispatch says: other PDU types are accepted and ignored, another community refused, an error status releases the request everywhere, and a reply is handled binding by binding up to a value of a wrong type |
| `Deliveries.HandledUpTo` | src/Arduino_SNMP_Manager.cpp:165-245 | a reply with different names is handled up to the first binding whose type is not that of the registration it is for, judged before the reply, and accepted exactly when there is none |
| `Deliveries.ReplyArrives` | src/Arduino_SNMP_Manager.cpp:165-365 | in such a reply each binding up to there reaches the first registration that waits for it, or the first untracked one if none is tracked: its request is used up, and its value, serial and count of updates change exactly when the value is no exception and fits; what lies behind is not touched |
| `Deliveries.SentThenAnswered` | src/Arduino_SNMP_Manager.cpp:165-365 | a successful send followed by its reply leaves the value where it was asked for |
| `Dispatches.UpdatesNeverExceedSends` | src/Arduino_SNMP_Manager.cpp:136-225 | over every interleaving of sends, replies, duplicates, error PDUs and cancellations, a registration is updated since tracking began at most as often as it was successfully sent, counting its pending requests as used; it is tracked exactly from its first successful send on |
| `Tracking.ValueCallback.CanTrack` | src/ValueCallbacks.cpp:3-9 | there is room for the key or it is there already |
| `Tracking.ValueCallback.Track` | src/ValueCallbacks.cpp:14-38 | the key joins the set and the summary, or a full registration stays untouched |
| `Tracking.ValueCallback.Consume` | src/ValueCallbacks.cpp:40-53 | the key leaves the set; the answer says whether it was there and the summary whether anything is left |
| `Tracking.ValueCallback.ClearPendingRequests` | src/ValueCallbacks.cpp:58-63 | nothing is pending afterwards and tracking stays enabled |
| `Tracking.ValueCallback.Matches` | src/ValueCallbacks.cpp:78-84 | membership in the set |
| `Routing.Get.Build` | src/SNMPGet.cpp:102-132 | the packet is the tree of a GET with one NULL binding for each registration in order |
| `Routing.Get.SendTo` | src/SNMPGet.cpp:31-84 | succeeds exactly when every registration has room, the packet fits and the transport takes it; then every registration of the list has tracked the request exactly once, however often it is listed, otherwise none changes |
| `Routing.Manager.AddHandler` | src/Arduino_SNMP_Manager.cpp:644-662 | registering the same object twice changes nothing |
| `Routing.Manager.Choose` | src/Arduino_SNMP_Manager.cpp:186-211 | the scan picks the registration that sent the request, or the first untracked one if the name is tracked nowhere |
| `Routing.Manager.ParsePacket` | src/Arduino_SNMP_Manager.cpp:136-365 | a datagram does to all registrations exactly what `Deliveries.Handled` says, value, serial and pending requests included |

## Left out

- UDP input and output, board clocks, `stop`, discarding datagrams: a transport answers yes or no, a complete datagram arrives or does not, and time is a parameter.
- Heap allocation failure, destructors, move constructors and the sharing of value payloads: allocation succeeds and values are immutable octets.
- `Client.SNMPClient`: an operation is named by its position in a fixed table instead of by its address, and user code in callbacks is a finite script of starts, cancellations and configuration calls; the slot array, the result arrays and the registrations' slots are embedded arrays in the original and sequence fields here, while the packet buffer is an array.
- `Engine.Receive`: takes packets that parsed as responses; what does not is `Informs.Notify`, which models what is answered and not what the application is shown: the fields of v1 traps and of unacknowledged notifications are left out.
- `OidOrder.CompareOID`: requires canonical texts, which is all the client ever stores; on other texts the original loop need not terminate.
- `Table.TableRead.Start`, `Table.TableRead.Advance`: the answer of the walk's start is a parameter of the object; `TableWalks.StartCouples`, `TableWalks.NextColumnCouples` and `TableWalks.FallbackCouples` show that the client answers Success. In `TableRuns` the table is its replay of the log (`TableHistory.DeliveredIsFilled`), and which values its callback takes is left open.
- `Tracking.ValueCallback.Write`: records the value written instead of converting it, so the float destinations (tenths) and the raw memory of the caller are not modelled; the size checks are.
- `Routing.Manager.ParsePacket`: a packet whose allocation fails is dropped by the original; here every packet is handled.
- The ten `add*Handler` factories, `SNMPMIB` and float or double conversions, `SNMPInterfaceRead`, `Polling.h`, printing and diagnostics: single-branch or boilerplate code.
- Switching a walk between streaming and collecting while it is idle, and `takeCompleted`: one assignment each.
- Success under a responsive agent: that operations end is proved (`Termination.ReadsEnd`, `Runs.WalkDeadline`); that they end well when every request is answered in time is stated step by step (`Outcomes.ReadAnswered`, `Outcomes.WalkAnswered`, `Timing.WaitingStep`) and for walks by exclusion (`Endings.DutifulWalksEndWell`).
