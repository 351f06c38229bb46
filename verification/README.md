# Verification model of the MQTT client, the JSON library and the event loop

The project models the three algorithms the agent is built on and proves what they promise.

**The MQTT client (`src/mqtt.c`).** `Wire` says what the packers put on the wire and what the unpackers make of it;
`WireProofs` relates the two, and `Brokers` reads what is packed as a broker does, after the layout of MQTT 3.1.1. `Packers` and `Unpackers` are the same as code on byte arrays. `QueueMemory` is the memory of
the send queue, one byte array in which packets grow up from the start and 40-byte headers grow down from the end, and
`MessageQueues` is the queue object on it. `Lfsr`, `LfsrWords` and `LfsrPeriod` are the linear
feedback shift register behind packet identifiers, with its full period, and `PacketId` the identifiers and the search for one. `Protocol` is the client as a state machine on values, with a history of what was issued, sent, acknowledged
and delivered; the broker is an arbitrary stream of bytes that arrives in arbitrary pieces, the transport may fail at any
packet after any number of its bytes, and every clock reading is arbitrary. `Invariants` and `Steps` show what each step
keeps, `Receive` treats one call of `__mqtt_recv` on the received stream, `Handshakes`
what the client owes its broker, and `Runs` draws the conclusions for whole runs, `Streams` those about the broker's stream over any number
of calls, and `Acknowledgements` those about which packet finishes which PUBLISH. `Calls`, `Responses` and `Sends` say exactly what a call queues,
what a response does and what an `mqtt_sync` sends, in terms of the queue and of bytes alone. `Clients` is
`struct mqtt_client` with its functions as an object on the real buffers; each of its methods is proved to do what
`Protocol` says, over the transport of `Transport`, so what `Runs` proves applies to it (`Runs.ReachesThen` extends a run by one call). `Transport` is the BIO transport:
`mqtt_pal_sendall` and `mqtt_pal_recvall` over arbitrary results of `BIO_write` and `BIO_read`.

**The JSON library (`src/cJSON.c`).** `JsonStrings`, `Json` and `JsonMinify` give the printed forms, the parser and the
minifier on values; `JsonTexts` says which texts are parsed as which trees and proves the round trips, `JsonLayout` where the printed forms have white space; `JsonPrinter`, `JsonParser` and the second half of `JsonMinify` are the code with
its buffers and positions.

**The timers (`src/eloop.c`).** `EventLoop` has the timeout list, its state machine with handlers that act while the loop
runs, the invariants over runs, and the code: the linked list of nodes and the loop as objects.

Reading guide for the results: a method whose third column says "as specified" is proved equal to a function whose own
properties are the subject of other rows (`Clients` against `Protocol` and `Runs`, `JsonParser` and `JsonPrinter` against
`Json`, `Eloop` against the state machine of `EventLoop`).

Where the code does not give what one might expect, the exact condition is proved:

- A PUBLISH with remaining length below 4 (a one-byte topic without payload at QoS 0, say) is legal on the wire but is
  refused by the unpacker: `WireProofs.PublishRoundTrip` gives both sides.
- A packet is as long as it declares exactly when no string is longer than 65535 bytes, because the length of a string is
  stored in 16 bits: `WireProofs.BodyLength`, `WireProofs.PackedLength`.
- A PINGRESP is consumed up to its fixed header only: `WireProofs.DecodedIsComplete`.
- A complete PUBREC that is still queued also suppresses a later PUBLISH with its identifier, so the result is that nothing is
  delivered twice before a PUBREL, not that everything is delivered once: `Runs.NoDuplicateDelivery`. A QoS 2 PUBLISH is delivered and
  answered exactly when no PUBREC with its identifier is queued (`Handshakes.PublishAnswered`); `Handshakes.NewPublishLost` is the
  run in which a new one is lost, and `Acknowledgements.AfterConnect` a state it can start from.
- A PUBLISH ought to be finished by a PUBACK at QoS 1, by a PUBREC at QoS 2 and by being sent at QoS 0. This is not so: the code never
  looks at the QoS of what it completes (src/mqtt.c:762-795), and `Acknowledgements.PubackOfAnyQos` gives the input: a PUBACK for any PUBLISH
  just queued.
  `Acknowledgements.AckFits` gives the exact condition for one packet: the first queued PUBLISH with its identifier has its QoS.
  `Acknowledgements.PublishFinished` says it for whole runs: a PUBLISH is finished otherwise only by a packet of the wrong kind
  with its identifier that the client handles after it was queued, so it is as it ought to be whenever the broker sends none then.
- A CONNECT with a password and no user name and a subscription to no topic or with a QoS above 2 are packed although sections
  3.1.2.9, 3.8.3 and 3.10.3 of MQTT 3.1.1 forbid them: `Brokers.PackedMeaning` gives both sides.
- The JSON parser also takes a number with one leading zero too many, and a lone minus for 0: `JsonTexts.ValueAccepted`.
- The comment at src/mqtt.c:601-606 cites the duplicate flag rule for all retransmissions; the code sets the flag for QoS 1
  only, and `Runs.SentIsIssued` says so.
- The two passes of `parse_string` can disagree about where a literal ends. They agree exactly when the literal, cut into the turns of
  the second pass, comes out even: `JsonStrings.StringFits`, both directions; `JsonStrings.CutShort` is a literal on which they do not.
  They agree on every literal of section 7 of RFC 8259: `JsonStrings.LiteralParsed`.

Conventions. Bytes are integers from 0 to 255; the bytes of a C string exclude 0, and a C string is the sequence in front of its
NUL. What lies in memory before it is written (the time, type and identifier of a fresh header, the keep-alive and the time of the last send) is
arbitrary. `OVERRUN` and `Outside` are not results of the source: the model stops there, at the point where the source would
read or write outside its buffers (or, for JSON numbers, leave the integers).

## Model

| member | source | states |
|---|---|---|
| `WireProofs.LengthRoundTrip` | src/mqtt.c:1003-1018 | for every n below 2^28 the variable-length encoding of a remaining length decodes to n, consuming exactly its own bytes, whatever follows |
| `WireProofs.LengthMinimal` | src/mqtt.c:1068-1082 | no sequence of length bytes that decodes to n is shorter than the one that is packed for n |
| `WireProofs.LengthBytes` | src/mqtt.c:1062-1083 | the encoding takes 1 to 4 bytes for n below 2^28; which of these follows the ranges of section 2.2.3 of MQTT 3.1.1 |
| `WireProofs.UnpackExtends` | src/mqtt.c:1694-1734 | the decoding of a complete packet is unchanged by any bytes behind it |
| `WireProofs.UnpackPrefix` | src/mqtt.c:1021-1036 | every strict prefix of a complete packet is reported as incomplete, never as malformed or decoded |
| `WireProofs.DecodedIsComplete` | src/mqtt.c:1724-1725 | the bytes consumed for a decoded response form a complete packet, with the one exact exception of a PINGRESP whose remaining length is not 0 |
| `WireProofs.BodyLength` | src/mqtt.c:1750-1762 | what a packer writes behind its fixed header is never longer than the declared remaining length, and has exactly that length if and only if every string fits its 16-bit length field |
| `WireProofs.PackedLength` | src/mqtt.c:1094-1213 | a packed request fits the room, starts with its fixed header and is header plus declared remaining length long if and only if its strings fit (all request types, CONNECT with all optional fields included) |
| `WireProofs.HeaderRoundTrip` | src/mqtt.c:981-1091 | unpacking the fixed header packed for a valid type, flags and length gives these back, finds the body behind it and ignores what follows |
| `WireProofs.AckRoundTrip` | src/mqtt.c:1376-1436 | PUBACK, PUBREC, PUBREL and PUBCOMP: decoding the packed bytes recovers type and identifier and consumes exactly them |
| `WireProofs.PublishRoundTrip` | src/mqtt.c:1262-1374 | PUBLISH: decoding the packed bytes recovers topic, identifier, payload and flags and consumes exactly them if the remaining length is at least 4, and reports a malformed response exactly if it is not |
| `Brokers.PackedMeaning` | src/mqtt.c:1094-1610 | whatever is packed is read by a reader written from sections 2.2 and 3.1 to 3.14 of MQTT 3.1.1 as exactly what was asked for, whatever follows, if its strings fit their lengths: protocol name and level, clean session, will with its QoS and retain flag, keep-alive, client identifier, user name and password of a CONNECT; flags, topic, identifier and payload of a PUBLISH; identifier and topics with their QoS, in order, of a SUBSCRIBE or UNSUBSCRIBE. It is not accepted exactly if it has a password without a user name, no topic, or a requested QoS above 2 |
| `Brokers.PackDecided` | src/mqtt.c:1118-1150 | a request is packed exactly if it is none of those the standard or the client forbids, its declared length is below 2^28 and header and declared length fit the room; otherwise the error says which, in the order of the source |
| `Packers.PutLength` | src/mqtt.c:1068-1078 | the loop writes the length encoding in place, or reports that it does not fit; in either case nothing outside the room changes |
| `Packers.PutString` | src/mqtt.c:1750-1762 | the length of the string modulo 65536 and that many of its bytes are written in place, nothing else changes |
| `Packers.PutHeader` | src/mqtt.c:1039-1091 | the fixed header packer in place: outcome and bytes as specified, error order included, and no byte outside bufsz is touched on any path |
| `Packers.PutPublishBody` | src/mqtt.c:1319-1327 | topic, identifier (only for QoS 1 and 2) and payload are written in place |
| `Packers.PutSubscribeBody` | src/mqtt.c:1514-1522 | identifier and topics with their QoS are written in place by the loop over the topics |
| `Packers.PutUnsubscribeBody` | src/mqtt.c:1592-1599 | identifier and topics are written in place by the loop over the topics |
| `Packers.PutConnectBody` | src/mqtt.c:1185-1209 | protocol name and level, flags, keep-alive and the optional strings are written in place, in this order |
| `Packers.PutRequest` | src/mqtt.c:1094-1213 | every packer: outcome and bytes as specified; on refusal, on lack of room and on success no byte outside the free space changes |
| `Unpackers.GetLength` | src/mqtt.c:1000-1018 | the loop over the length bytes computes the specified length, or finds it too long or incomplete |
| `Unpackers.GetHeader` | src/mqtt.c:981-1037 | the fixed header unpacker on a buffer returns what is specified for its first bufsz bytes |
| `Unpackers.GetPublish` | src/mqtt.c:1332-1374 | the PUBLISH unpacker returns flags, topic, identifier and payload as specified |
| `Unpackers.GetResponse` | src/mqtt.c:1694-1734 | mqtt_unpack_response on a buffer returns what is specified for its first bufsz bytes, for every content of the buffer |
| `QueueMemory.LeRoundTrip` | include/mqtt.h:927-963 | the fields of a header survive being stored in memory as little-endian integers of their widths |
| `QueueMemory.RegisteredMessages` | src/mqtt.c:1617-1630 | writing the new header below the others keeps the layout and appends exactly the new message to the messages the memory stands for |
| `QueueMemory.SetFieldMessages` | include/mqtt.h:1071-1083 | writing one field of header k changes that field of message k and no packet, no other message and no layout |
| `QueueMemory.ByteChanged` | src/mqtt.c:603 | overwriting one byte of packet k changes that byte of message k and nothing else: packets do not overlap each other or the headers |
| `QueueMemory.Shifted` | src/mqtt.c:1651-1672 | after both memmoves and the rebasing loop the memory is again a layout, and it stands for exactly the messages behind the removed ones |
| `MessageQueues.CompletePrefix` | src/mqtt.c:1635-1637 | the number of messages removed is the longest run of complete messages at the front |
| `MessageQueues.MessageQueue.constructor` | src/mqtt.c:1605-1615 | a fresh queue is valid and empty |
| `MessageQueues.MessageQueue.Pack` | src/mqtt.c:202-217 | a packing attempt on the free space never harms the queue, even when it returns 0 after writing scratch bytes; on success the packet lies at curr |
| `MessageQueues.MessageQueue.Register` | src/mqtt.c:1617-1630 | appends one unsent message with the packed bytes; its time, type and identifier are what lay in memory |
| `MessageQueues.MessageQueue.Find` | src/mqtt.c:1678-1691 | the first message of the type that is not complete, or, with an identifier, the first with that identifier in any state |
| `MessageQueues.MessageQueue.InUse` | src/mqtt.c:93-99 | whether a queued message carries the identifier |
| `MessageQueues.MessageQueue.FirstIncomplete` | src/mqtt.c:1635-1637 | the first loop finds the length of the longest complete prefix |
| `MessageQueues.MessageQueue.Clean` | src/mqtt.c:1632-1676 | removes exactly the longest complete prefix and keeps every remaining message's bytes, size, type, identifier, state and time |
| `MessageQueues.Rebase` | src/mqtt.c:1666-1671 | the loop bumps back the start of every remaining header and moves no packet |
| `MessageQueues.MessageQueue.SetDup` | src/mqtt.c:603 | marks the packet of one message as a duplicate and changes nothing else in the queue |
| `LfsrWords.FixedAtPeriod` | src/mqtt.c:86-90 | 65535 steps of the register with taps 0xB400 lead back to every state |
| `LfsrWords.NoShortPeriod` | src/mqtt.c:86-90 | no nonzero state comes back after 65535/3, 65535/5, 65535/17 or 65535/257 steps |
| `LfsrPeriod.FullPeriod` | src/mqtt.c:86-90 | no nonzero state comes back before 65535 steps |
| `LfsrWords.FromBvStep` | src/mqtt.c:86-90 | the statements that shift the 16-bit word and flip its taps are the step of the register |
| `PacketId.OrbitDistinct` | src/mqtt.c:86-90 | 65535 consecutive registers from a nonzero state are pairwise distinct |
| `PacketId.OrbitNonzero` | src/mqtt.c:80-90 | the register never becomes 0, so an identifier is never 0 |
| `PacketId.OrbitCovers` | src/mqtt.c:86-90 | every identifier from 1 to 65535 is met within 65535 steps from any nonzero state |
| `PacketId.NextIdUnused` | src/mqtt.c:77-103 | if some identifier is available the search ends within 65535 turns at a nonzero identifier carried by no queued message, and every identifier met before was in use |
| `PacketId.SearchEnds` | src/mqtt.c:84-101 | the search meets an unused identifier if and only if one is available |
| `PacketId.FewInUse` | src/mqtt.c:77-103 | with fewer than 65535 identifiers in use one is available |
| `Clients.SearchPid` | src/mqtt.c:77-103 | the two nested loops terminate under that condition and return the specified register |
| `PacketId.FirstId` | src/mqtt.c:77-103 | the first identifier of a fresh client is 46161 |
| `Calls.QueueingHolds` | src/mqtt.c:198-221 | MQTT_CLIENT_TRY_PACK in full: nothing with an error set, the error for what is forbidden, the packet queued last without cleaning if it and its 40-byte header have the room, else behind what cleaning leaves if they have it then, and else SEND_BUFFER_IS_FULL; only complete messages at the front leave |
| `Calls.CallQueues` | src/mqtt.c:224-496 | every call of the application queues the one packet that a broker reads as what it asks for, with an identifier that no queued message has, under exactly the conditions of QueueingHolds; mqtt_connect sets the keep-alive and ends the state before it, mqtt_reconnect leaves its error |
| `Protocol.Consume` | src/mqtt.c:875-883 | handling a response leaves the receive side alone; then exactly the consumed bytes leave the front of the buffer |
| `Receive.RecvFraming` | src/mqtt.c:646-681 | one call, however its reads cut up a stream of complete packets: the packets consumed are the next ones of the stream, bytes received equal consumed packets plus buffer contents (unless a read failed), and on success no complete packet is left in the buffer |
| `Receive.RecvIsHandleAll` | src/mqtt.c:713-884 | one successful call has the effect of handling the consumed packets one by one, independently of the buffer |
| `Streams.CallsFollow` | src/mqtt.c:640-889 | any number of calls, each with what has arrived by then and its own reads, on the front of a stream of complete packets, cut anywhere, inside packets too: the packets consumed are the next ones of the stream, the bytes received are these and the buffer, no complete packet is left behind, and the calls have the effect of handling the packets one by one |
| `Streams.SegmentationIrrelevant` | src/mqtt.c:646-684 | two sequences of calls that succeed and have received the same bytes of one stream leave the same client, wherever calls and reads cut the stream, inside packets included |
| `Streams.StreamInRun` | src/mqtt.c:35-75 | in every run, with any calls, sends and errors in between, as long as no read fails: the packets consumed are the first ones the broker sent, and what it has sent is exactly these, the receive buffer and what is unread |
| `Receive.TooSmall` | src/mqtt.c:670-680 | unless that error was set before the call, RECV_BUFFER_TOO_SMALL is reported on a stream of complete packets only when the next packet is larger than the buffer, or the buffer has size 0 |
| `Receive.RecvStops` | src/mqtt.c:640-889 | why __mqtt_recv returns, for every stream, well formed or not: with success only when nothing is left to unpack and the buffer has room, with an error only for a failed read, malformed bytes, a PUBLISH that overruns its packet, a full buffer without a complete packet, or a response that is refused |
| `Receive.RecvTakesAll` | src/mqtt.c:651-681 | if every read brings what has arrived, a successful __mqtt_recv leaves nothing unread, so with RecvFraming every complete packet that has arrived is consumed |
| `Steps.TryPackAdvances` | src/mqtt.c:198-221 | MQTT_CLIENT_TRY_PACK keeps the invariants of the queue and the history on every path, cleaning included |
| `Steps.PerformAdvances` | src/mqtt.c:224-496 | every call of the application keeps the invariants and puts nothing on the wire |
| `Steps.SendAdvances` | src/mqtt.c:498-638 | __mqtt_send keeps the invariants, for every transport and clock, and sends nothing behind a cut-off packet |
| `Steps.HandleHandled` | src/mqtt.c:713-874 | every response, expected or not, keeps the invariants |
| `Runs.RecvAdvances` | src/mqtt.c:640-889 | __mqtt_recv keeps the invariants for every stream of bytes and every way it arrives, well formed or not |
| `Runs.SyncOk` | src/mqtt.c:35-75 | mqtt_sync keeps the invariants |
| `Runs.ReachesOk` | src/mqtt.c:35-889 | every run of calls and syncs from a state in the invariants stays in them and only adds to the history |
| `Runs.ReachesThen` | src/mqtt.c:35-889 | a run can be continued by any enabled operation, so the contracts of the client class apply along a run |
| `Sends.SyncSends` | src/mqtt.c:498-638 | what an mqtt_sync sends: after a failed receive, or with an error other than a full send buffer, nothing; otherwise exactly the messages that are unsent or overdue, but for QoS 2 PUBLISHes behind another that is not complete, each once, in queue order, with their bytes, the new state, time and DUP bit of each, up to the first message the transport fails to take, of which a proper prefix goes out and SOCKET_ERROR is returned; and then a PINGREQ is queued exactly if the last clock reading is more than three quarters of the keep-alive after the last transmission |
| `Sends.SentSays` | src/mqtt.c:547-607 | whatever is sent in any run is read by a broker as what was asked for when it was queued, with the duplicate flag when a QoS 1 PUBLISH is sent again |
| `Sends.BeforeConnect` | src/mqtt.c:105-142 | after mqtt_init every call but mqtt_connect is refused, and mqtt_sync sends nothing and returns an error |
| `Runs.IdsExclusive` | src/mqtt.c:77-103 | in every reachable state at most one PUBLISH, SUBSCRIBE or UNSUBSCRIBE, one PUBREL and one PUBREC hold an identifier, and a PUBREL sharing one with a PUBLISH is behind it and that PUBLISH is complete (section 2.3.1 of MQTT 3.1.1) |
| `Runs.CallsReturn` | src/mqtt.c:77-103 | with fewer than 65535 messages queued every call of the application returns |
| `Runs.OneQos2InFlight` | src/mqtt.c:529-540 | in every reachable state at most one QoS 2 PUBLISH awaits its acknowledgement and all QoS 2 PUBLISHes ahead of it are complete |
| `Runs.NoDuplicateDelivery` | src/mqtt.c:746-760 | between two QoS 2 deliveries with one identifier, in any run, a PUBREL with that identifier has been processed, queue cleaning in between included (section 4.3.3 of MQTT 3.1.1) |
| `Runs.FirstSendsInOrder` | src/mqtt.c:513-545 | first transmissions are in queue order among QoS 2 PUBLISHes and in queue order among everything else |
| `Runs.SentIsIssued` | src/mqtt.c:596-607 | every packet sent is the packet queued, except that a retransmitted QoS 1 PUBLISH has its DUP bit set, and only that differs |
| `Runs.NothingAfterCut` | src/mqtt.c:549-556 | nothing is sent behind a packet cut off by the transport |
| `Runs.WireIsPackets` | src/mqtt.c:547-570 | the bytes sent in any run are whole queued packets one after the other, followed at most by one cut-off packet at an error that ends sending |
| `Runs.CutOffIsPrefix` | src/mqtt.c:549-556 | what is sent of a cut-off packet is a proper prefix of a queued packet |
| `Runs.SentIsFramed` | src/mqtt.c:547-570 | a packet sent for a request whose strings fit ends where its own fixed header says, whatever follows on the wire |
| `Runs.CompleteMeansAcked` | src/mqtt.c:713-869 | a QoS 1 or 2 PUBLISH, PUBREC, PUBREL, CONNECT, SUBSCRIBE, UNSUBSCRIBE or PINGREQ is complete, or gone, only through a response that acknowledges its type and carries its identifier; for a PUBLISH a PUBACK and a PUBREC both do, see Acknowledgements.PublishFinished |
| `Acknowledgements.AckHeard` | src/mqtt.c:713-884 | in every run between two states each acknowledgement recorded in it came in as a packet of that type and identifier that the client consumed in it |
| `Acknowledgements.AckFits` | src/mqtt.c:762-795 | a handled PUBACK or PUBREC finishes the first queued PUBLISH with its identifier, and is the event the QoS asks for if and only if that PUBLISH has QoS 1 or 2 respectively |
| `Acknowledgements.PublishFinished` | src/mqtt.c:762-795 | in every run from any state: a PUBLISH queued in it and finished by its end was first finished by being sent (QoS 0), a PUBACK (QoS 1) or a PUBREC (QoS 2), or else by a PUBACK or PUBREC of the wrong kind with its identifier, and then such a packet was consumed in that run; without one the first holds. The run may begin with the call that queues the PUBLISH, so packets from before it do not matter |
| `Acknowledgements.PubackOfAnyQos` | src/mqtt.c:762-772 | after any successful call of mqtt_publish in a state within the invariants, whatever its QoS, a PUBACK with its identifier handled before the next send is accepted and finishes it: it has not been sent, and __mqtt_send leaves it unsent for every transport and clock |
| `Acknowledgements.AfterConnect` | src/mqtt.c:105-260 | the client behind mqtt_init and a successful mqtt_connect is reachable, in the invariants and without error, with the CONNECT as its only message, so the states asked for by PubackOfAnyQos and, with a send buffer that has the room, NewPublishLost occur |
| `Runs.NotSentAfterAck` | src/mqtt.c:514-545 | a message is never sent after its acknowledgement |
| `Runs.UnacknowledgedSentOnce` | src/mqtt.c:590-600 | a message that is complete once sent is sent at most once |
| `Runs.MessagesMoveForward` | src/mqtt.c:1632-1648 | along any run messages move only from unsent to awaiting to complete, and leave the queue only as complete ones |
| `Responses.ResponseRead` | src/mqtt.c:1216-1734 | every response as a broker writes it (sections 3.2 to 3.13 of MQTT 3.1.1) is decoded as just that, whatever follows |
| `Responses.RefusedExactly` | src/mqtt.c:981-1037 | which bytes are refused, with which error, and which are waited for: types, flags, remaining length and the bodies of each type |
| `Responses.ResponseHandled` | src/mqtt.c:713-874 | what every response does, success and error: the first message it is meant for by type and identifier (for CONNACK and PINGRESP: the first not complete) is completed and recorded, answers are queued as QueueingHolds says, a PUBLISH is delivered once its answer is queued, an acknowledgement of nothing is ACK_OF_UNKNOWN, and nothing else of the client changes |
| `Responses.ConnackDecides` | src/mqtt.c:714-736 | from the four bytes of a CONNACK: the CONNECT is completed, and the client is connected if and only if the return code is 0, refused with CONNECT_CLIENT_ID_REFUSED if and only if it is 2 and with CONNECTION_REFUSED if and only if it is 1, 3, 4 or 5 |
| `Responses.SubackDecides` | src/mqtt.c:828-845 | from the bytes of a SUBACK: the SUBSCRIBE is completed, and SUBSCRIBE_FAILED results if and only if the first return code is 0x80 |
| `Handshakes.PublishAnswered` | src/mqtt.c:737-761 | a handled PUBLISH of QoS 1 leaves a PUBACK behind the queue and is delivered, one of QoS 2 a PUBREC and is delivered unless a PUBREC with its identifier is queued, any other, both QoS bits set included, is delivered; a broker decodes the answer as just that |
| `Handshakes.NewPublishLost` | src/mqtt.c:737-806 | the loss in a run: in every state without error, without a queued PUBREC of that identifier and with room for the answers, a QoS 2 PUBLISH, the PUBREL for it and a new QoS 2 PUBLISH with the same identifier are all handled without error, and the third changes nothing, so it is neither answered nor delivered |
| `Handshakes.AckedWhileQueued` | src/mqtt.c:713-869 | a response records an acknowledgement only of a message that is queued at that moment and that it names by type and identifier |
| `Handshakes.AckAnswered` | src/mqtt.c:762-868 | an acknowledgement handled without error names a queued message, and that one is recorded as acknowledged and is complete or has left the queue complete; a PUBREC leaves a PUBREL behind, a PUBREL a PUBCOMP, and PUBACK, PUBCOMP and UNSUBACK change nothing else; only a PUBREC whose PUBREL is queued changes nothing |
| `Handshakes.NothingHeldBack` | src/mqtt.c:513-619 | if the loop of __mqtt_send meets no error it leaves unsent only QoS 2 PUBLISHes behind another that was not complete, and has sent anew everything overdue except such PUBLISHes |
| `Clients.MqttClient.constructor` | src/mqtt.c:105-142 | the object after mqtt_init is an initial state of the runs, whatever lay in the fields that are not set |
| `Clients.MqttClient.TryPack` | src/mqtt.c:198-221 | the macro on the real queue does what is specified on the value of the client |
| `Clients.MqttClient.NextPid` | src/mqtt.c:77-103 | draws the specified identifier |
| `Clients.MqttClient.Connect` | src/mqtt.c:224-260 | mqtt_connect as specified |
| `Clients.MqttClient.Publish` | src/mqtt.c:262-294 | mqtt_publish as specified |
| `Clients.MqttClient.Subscribe` | src/mqtt.c:380-408 | mqtt_subscribe as specified |
| `Clients.MqttClient.Unsubscribe` | src/mqtt.c:410-435 | mqtt_unsubscribe as specified |
| `Clients.MqttClient.Ping` | src/mqtt.c:437-463 | mqtt_ping as specified |
| `Clients.MqttClient.Disconnect` | src/mqtt.c:477-496 | mqtt_disconnect as specified |
| `Clients.MqttClient.Reconnect` | src/mqtt.c:465-475 | mqtt_reconnect as specified |
| `Clients.MqttClient.HandOver` | src/mqtt.c:547-565 | the packet goes from its place in the send buffer through mqtt_pal_sendall; the bytes that BIO_write took are the bytes the history records, and send_offset is 0 again |
| `Clients.MqttClient.SendAll` | src/mqtt.c:513-619 | the loop over the queue sends through mqtt_pal_sendall, gates, counts timeouts and changes states as specified, in place in the queue's memory |
| `Clients.MqttClient.Send` | src/mqtt.c:498-638 | __mqtt_send with its keep-alive check as specified |
| `Clients.MqttClient.Release` | src/mqtt.c:714-722 | finds and completes the acknowledged message or reports an unknown acknowledgement |
| `Clients.MqttClient.HandlePublish` | src/mqtt.c:737-761 | stages PUBACK or PUBREC and calls the callback, or drops a duplicate, as specified |
| `Clients.MqttClient.HandleAck` | src/mqtt.c:762-868 | the handshake responses as specified |
| `Clients.MqttClient.Handle` | src/mqtt.c:713-874 | the switch over the response as specified |
| `Clients.MqttClient.FillBuffer` | src/mqtt.c:651-662 | one mqtt_pal_recvall into the free part of the receive buffer brings the next bytes of the stream, as one read of the protocol model |
| `Clients.MqttClient.Discard` | src/mqtt.c:875-883 | the memmove removes exactly the consumed packet from the receive buffer |
| `Clients.MqttClient.Recv` | src/mqtt.c:640-889 | the receive loop on the real buffers, reading with mqtt_pal_recvall, ends in the specified client, unread bytes and error for every stream and all results of BIO_read |
| `Clients.MqttClient.Synchronize` | src/mqtt.c:35-75 | mqtt_sync as specified, over whatever BIO_read and BIO_write do |
| `Transport.SendAll` | src/mqtt_pal.c:286-298 | mqtt_pal_sendall sends the whole buffer in order, or returns an error after a strict prefix of it, for every sequence of BIO_write results that decides it |
| `Transport.SendDecided` | src/mqtt_pal.c:286-298 | mqtt_pal_sendall fails exactly at the first write that takes nothing and is not to be tried again, unless everything has been taken before |
| `Transport.RecvDecided` | src/mqtt_pal.c:300-317 | mqtt_pal_recvall ends at the first read that is the last one or fills the room, or fails at one that brings nothing and is not to be tried again, with everything that has come until then |
| `Transport.RecvAll` | src/mqtt_pal.c:300-317 | mqtt_pal_recvall puts the next bytes of the stream into the buffer, in order and never beyond its size, for every sequence of BIO_read results that decides it |
| `Transport.RecvAllIsRead` | src/mqtt_pal.c:300-317 | whatever BIO_read does, one mqtt_pal_recvall is one read in the sense of the protocol model |
| `JsonStrings.PrintedSize` | src/cJSON.c:220-223 | the first pass over a string is exact: text and NUL fill the len + 3 bytes allocated |
| `JsonStrings.StringRoundTrip` | src/cJSON.c:155-248 | parse_string undoes print_string_ptr on every NUL-free byte string and stops right behind the closing quote, whatever follows |
| `JsonStrings.StringFits` | src/cJSON.c:160-212 | for every text on which the first pass stops: both passes stop at the same place if and only if the bytes up to there, cut into turns of 1, 2, 6 or 12 bytes, come out even with no turn at a quote; and then the string and its NUL fit the bytes counted and parsing goes on behind the closing quote |
| `JsonStrings.LiteralParsed` | src/cJSON.c:155-212 | every string literal of section 7 of RFC 8259, its characters being bytes from 32 up, two-byte escapes and \u with four hexadecimal digits, is parsed up to its own closing quote, and the string and its NUL fit the bytes counted |
| `JsonTexts.StringRead` | src/cJSON.c:155-212 | every literal for a string, made of bytes as they are, short escapes and code points in hexadecimal digits of either case, surrogate pairs included, is read as the bytes of its characters, code points in UTF-8; escapes for zero and for unpaired surrogates are dropped |
| `JsonTexts.PrintedShortest` | src/cJSON.c:215-248 | no literal for a string is shorter than the one that is printed |
| `JsonStrings.TurnBudget` | src/cJSON.c:166-206 | what one turn of the second pass writes is covered by what the first pass counts for its bytes, also where the two passes disagree about which backslash starts an escape |
| `JsonStrings.CutShort` | src/cJSON.c:160-212 | a witness: a literal with the quote directly behind \u makes the second pass run on and write more than was counted |
| `JsonStrings.CodePointRead` | src/cJSON.c:179-201 | every spelling of a nonzero non-surrogate code point, as one escape or a surrogate pair in digits of any case, is read as its UTF-8 encoding |
| `JsonStrings.Utf8RoundTrip` | src/cJSON.c:194-201 | the bytes written for a code point are a well-formed UTF-8 sequence (section 3 of RFC 3629) that decodes to it |
| `JsonStrings.Utf8Unique` | src/cJSON.c:194-201 | a well-formed UTF-8 sequence for a code point is the one that is written for it, and only code points have one |
| `JsonStrings.Hex4RoundTrip` | src/cJSON.c:140-151 | parse_hex4 inverts printing 16 bits as four hexadecimal digits |
| `JsonTexts.NumberRead` | src/cJSON.c:96-116 | every decimal integer, as section 6 of RFC 8259 writes it, is read as its value where that is an int, up to where it ends |
| `JsonTexts.PrintedNumber` | src/cJSON.c:118-126 | an int is printed in its decimal form, without leading zeros |
| `JsonTexts.TextRead` | src/cJSON.c:264-439 | every text of a tree, with any run of bytes 1 to 32 in front of and behind every value, key, bracket, brace, comma and colon and any literals for its strings, is parsed as that tree, with the end required or not; the texts are defined without the parser |
| `JsonTexts.ValueAccepted` | src/cJSON.c:287-439 | nothing else is parsed: what the parser accepts is a text of the tree it returns with all its brackets, commas and colons, up to what it leaves; only its numbers may have one more leading zero or no digits, and its strings are what parse_string takes |
| `JsonTexts.TextAccepted` | src/cJSON.c:264-278 | a successful parse is of blanks, such a text and, where the end is required, blanks up to the end |
| `JsonTexts.PrintIsText` | src/cJSON.c:302-507 | either print of a tree, at any depth, is a text of it |
| `JsonLayout.PrintIsLayout` | src/cJSON.c:348-507 | the layout of both prints token by token: keys on lines of their own indented by the nesting depth, a tabulator behind the colon, a space behind the comma of an array, a closing brace on a line of its own indented by one less; unformatted no white space at all |
| `JsonTexts.ValueRoundTrip` | src/cJSON.c:287-507 | parsing either print of a tree, at any depth and with anything behind it, gives back the tree and stops where the print ends |
| `JsonTexts.TreeRoundTrip` | src/cJSON.c:264-284 | parsing the formatted or the unformatted print of a tree gives back the tree and consumes the whole text |
| `JsonMinify.Minified` | src/cJSON.c:581-596 | minifying any text takes out all white space, line comments and block comments and leaves string literals and everything else as they are and in order |
| `JsonMinify.MinifyTree` | src/cJSON.c:581-596 | minifying any print of a tree in any context gives its unformatted print |
| `JsonMinify.MinifyPrinted` | src/cJSON.c:581-596 | minifying the formatted print of a tree gives exactly its unformatted print, which minifying leaves alone |
| `JsonMinify.CopyLiteral` | src/cJSON.c:593-593 | the loop over a string literal moves it unchanged, escaped quotes included |
| `JsonMinify.MinifyInPlace` | src/cJSON.c:581-596 | in place, with the write position never passing the read position, the buffer becomes the minified C string, for every text the source does not read past |
| `JsonPrinter.ArrayFits` | src/cJSON.c:351-379 | an array and its NUL fit the length accumulated in the first pass, for every tree, depth and mode |
| `JsonPrinter.ObjectFits` | src/cJSON.c:445-486 | an object and its NUL fit the length accumulated in the first pass, for every tree, depth and mode, the empty object included |
| `Json.NumberSize` | src/cJSON.c:117-126 | the text of an int and its NUL take at most 12 of the 21 bytes allocated |
| `JsonPrinter.PrintStringPtr` | src/cJSON.c:215-248 | the two passes of print_string_ptr render the string and fill the buffer exactly |
| `JsonPrinter.FillArray` | src/cJSON.c:391-402 | the second pass of print_array stays inside the buffer and writes the printed elements with their separators |
| `JsonPrinter.PrintArray` | src/cJSON.c:348-403 | print_array renders the specified text |
| `JsonPrinter.PutField` | src/cJSON.c:492-501 | one member with its indentation, separators and line end is written in place |
| `JsonPrinter.FillObject` | src/cJSON.c:490-506 | the second pass of print_object stays inside the buffer and writes the members and the closing brace |
| `JsonPrinter.PrintObject` | src/cJSON.c:442-507 | print_object renders the specified text |
| `JsonPrinter.PrintInt` | src/cJSON.c:118-126 | print_number renders an int in the 21 bytes allocated |
| `JsonPrinter.PrintValue` | src/cJSON.c:302-317 | print_value renders the specified text |
| `JsonParser.SkipBlanks` | src/cJSON.c:261-261 | skip stops at the first byte above 32 or at the end |
| `JsonParser.ReadHex4` | src/cJSON.c:140-151 | parse_hex4 reads four hexadecimal digits of either case, or yields 0 |
| `JsonParser.PutUtf8` | src/cJSON.c:194-201 | the fall-through switch writes the UTF-8 encoding backwards into its place |
| `JsonParser.CountString` | src/cJSON.c:160-160 | the first pass of parse_string as specified |
| `JsonParser.UnescapeInto` | src/cJSON.c:166-206 | the second pass writes the unescaped string into the buffer it was given |
| `JsonParser.ParseStringAt` | src/cJSON.c:155-212 | parse_string as specified, with every write inside the allocated buffer |
| `JsonParser.ParseNumberAt` | src/cJSON.c:96-116 | parse_number as specified for ints |
| `JsonParser.ParseItemsAt` | src/cJSON.c:328-345 | the loop of parse_array as specified |
| `JsonParser.ParseMembersAt` | src/cJSON.c:414-439 | the loop of parse_object as specified |
| `JsonParser.ParseValueAt` | src/cJSON.c:287-299 | parse_value as specified |
| `JsonParser.Parse` | src/cJSON.c:264-278 | cJSON_ParseWithOpts as specified |
| `EventLoop.InsertSplits` | src/eloop.c:171-191 | a new timer goes behind every entry that is not later and in front of the first later one |
| `EventLoop.RegisterExact` | src/eloop.c:142-194 | a registration puts one timer with the deadline asked for behind all that are not later and in front of all that are, and changes nothing else |
| `EventLoop.CancelActs` | src/eloop.c:197-229 | a cancellation removes exactly the timers with the handler and the data asked for, all where ELOOP_ALL_CTX is, keeps the others in order and changes nothing else |
| `EventLoop.TurnExact` | src/eloop.c:343-389 | behind select the signal handlers act; then the head fires at the second clock reading if and only if its deadline is not later, out of the list and before its handler acts; then the socket handlers act; nothing else fires |
| `EventLoop.LoopEnds` | src/eloop.c:327-345 | the loop ends if and only if it is to terminate, nothing is left to wait for or select fails, and goes through another turn otherwise |
| `EventLoop.AllFire` | src/eloop.c:327-390 | once the clock is past all deadlines, as many turns as there are timers, with idle handlers, fire them all in the order of the list |
| `EventLoop.RegisterInv` | src/eloop.c:142-194 | registering keeps the list sorted and stable, and behind everything that has fired |
| `EventLoop.CancelExact` | src/eloop.c:197-229 | a cancellation removes exactly the matching timers, keeps the order of the rest and counts them |
| `EventLoop.CancelInv` | src/eloop.c:197-229 | a cancellation keeps every invariant |
| `EventLoop.FireInv` | src/eloop.c:359-373 | unlinking and firing a due head keeps every invariant |
| `EventLoop.RunInv` | src/eloop.c:327-390 | every turn of the loop, with handlers that register, cancel and terminate arbitrarily, keeps every invariant |
| `EventLoop.FiredInOrder` | src/eloop.c:327-373 | over a whole run the deadlines fired are nondecreasing, equal deadlines fire in order of registration, and no timer fires early |
| `EventLoop.PendingSorted` | src/eloop.c:142-194 | in every reachable state the list is sorted, stable for equal deadlines, and behind everything that has fired |
| `EventLoop.TimerAccounted` | src/eloop.c:142-373 | every timer registered is pending, has fired once or has been cancelled once, and only one of these |
| `EventLoop.Deadline` | src/eloop.c:148-159 | the normalization loop yields now plus the delay, with microseconds below a million |
| `EventLoop.TimeoutList.Search` | src/eloop.c:171-180 | the search yields the node behind which the new one belongs: all up to it are not later and the one behind it, if any, is later; no node if the list is empty or its head is later |
| `EventLoop.TimeoutList.Splice` | src/eloop.c:182-191 | the new node is linked in behind that node, or at the head, and the chain from the head passes through the old nodes in order with it at that place |
| `EventLoop.TimeoutList.Cancel` | src/eloop.c:197-229 | the walk over the chain unlinks exactly the selected nodes, keeps the others in order and counts the unlinked ones |
| `EventLoop.Eloop.RegisterTimeout` | src/eloop.c:142-194 | eloop_register_timeout links a node with the deadline into the list, and the list is as specified |
| `EventLoop.Eloop.CancelTimeout` | src/eloop.c:197-229 | eloop_cancel_timeout leaves the list as specified and returns the number removed |
| `EventLoop.Eloop.SelectTimeout` | src/eloop.c:329-341 | select is given exactly the time left to the first deadline, 0 if it has passed, none if there is no timer |
| `EventLoop.Eloop.EloopRun` | src/eloop.c:314-393 | eloop_run as specified, the head unlinked before its handler runs |

## Left out

- Receive.RecvFraming: after a failed read (and in Streams.StreamInRun: in a run with one) only the bytes consumed and the buffer are accounted for, because the bytes the failing read had already taken from the connection are lost in the source.
- JsonParser.ParseNumberAt: fractions, exponents and numbers beyond the range of int are `Outside`, because they are floating point in the source.
- EventLoop.Eloop.EloopRun: the socket table is reduced to whether there are sockets to wait for and what their handlers do to timers; select and signals are parameters of a turn.
- Clients.MqttClient.Send: the time stored for a message must fit the 64 bits of its field.
- Clients.MqttClient.SendAll: likewise; the branch for a packet sent in part (src/mqtt.c:556-558) has no code in the model, because mqtt_pal_sendall over a BIO sends all or fails.
- Transport.SendAll: a transport that asks for retries forever never returns; the contract is for sequences of results that decide the call, and the methods of the client require that every call be decided.
- The transports of `src/mqtt_pal.c` other than BIO, and OpenSSL itself.
- Mutexes, the inspector callback, the reconnect callback with `mqtt_init_reconnect` and `mqtt_reinit`: the agent is single threaded and leaves the callbacks unset.
- `typical_response_time` and `number_of_keep_alives`: statistics that no decision depends on.
- NULL arguments and failure of malloc.
- Sizes near the limits of size_t and uint32_t: integers are unbounded, so a remaining length that wraps around at 4 GiB is not modelled.
- The alignment of the send buffer and other sizes of `struct mqtt_queued_message` than the 40 bytes it has with 64-bit pointers.
- The order of bytes of 16-bit numbers on hosts where `MQTT_PAL_HTONS` is not a swap to network order.
- `cJSON_Delete`, `cJSON_Duplicate`, references, constructors and accessors, and the error pointer `ep`: they would add easy members.
- The prev and next pointers of JSON items: children are inductive lists.
- Printing of numbers that are no ints: they are floating point in the source.
- Printing of objects whose key is NULL and of items of unknown type.
- The freeing of list nodes: a node that is unlinked is only no longer in the list.
- `eloop_destroy` and the signal table: they do not touch the order of timers.
- The agent itself (`admlink_*.c`, `admlink-ctrl`): sockets, TLS, command line, message handling.
