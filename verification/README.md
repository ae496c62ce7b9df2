# Verification models of the MQTT client and the JSON library

A Dafny model of two libraries that the application is built on: the MQTT client under
`src/protocal/mqtt/external` and cJSON under `src/utils/json`, with proofs of what they promise.
Each module models one source component in the source's own form: classes with the fields the
source updates, arrays written through moving indices, loops with invariants; every such method is
proved against a specification function, and the lemmas prove what the source promises about it.

| part | modules |
|---|---|
| decisions of the QoS 1/2 handlers, retries, message ids | `Exchange`, `AsyncIds` |
| sender, receiver and two lossy channels, over every run | `Qos2System`, `Qos2Flights`, `Qos2Invariant`, `Qos2Steps`, `Qos2Safety` |
| one client below version 5: handlers, stored publications, store | `ClientState`, `Client`, `Ownership`, `ClientRun`, `Refinement` |
| two such clients joined by channels, over every run with crashes | `TwoClients`, `TwoClientsSteps`, `TwoClientsCrash`, `TwoClientsSafety` |
| records, keys and the restart from the store | `Keys`, `Packets`, `Bytes`, `Mirror`, `MirrorSteps`, `Restore`, `CrashRestore`, `SendOrder` |
| the doubly linked list with its cached cursor | `LinkedList` |
| MQTT 5 properties; CONNECT, SUBSCRIBE, UNSUBSCRIBE | `Properties`, `PacketOut` |
| asynchronous commands and connect attempts | `CommandQueue`, `ConnectAttempts` |
| JSON: trees and text, printer, strings, parser, minifier, comparison | `JsonTree`, `JsonPrint`, `JsonStrings`, `JsonParse`, `JsonParser`, `JsonMinify`, `JsonMinifyPrint`, `JsonCompare` |
| SHA-1 and Base64 of the websocket handshake | `Sha1`, `Base64` |

`Sequences` and `Wrappers` hold what several modules share. `dafny verify dfyconfig.toml` verifies the project.

## How the parts fit together

The handlers' decisions (which in-flight entry a packet concerns, and whether it is ignored, removed
or moved on) are functions in `Exchange`, generic in what a message carries. `Qos2System` composes them
into two endpoints and two FIFO channels that may lose everything in flight; a message there carries the
number of the application message, so exactly-once delivery can be stated. `ClientState` uses the same
decisions with references to stored publications, reference counts and a store of bytes; `Client` is the
imperative form, `Ownership` and `Mirror` its two invariants, and `ClientRun` closes them over every run,
crashes included. `TwoClients` joins two such clients, one publishing and one receiving, and the modules
beside it prove that each of their steps, a crash and restart from the store among them, is a step of the
two-endpoint system; so exactly-once delivery holds of the bytes handed on
(`TwoClientsSafety.ExactlyOnceInBytes`). `Refinement` (arriving packets), `ClientRun.AcknowledgedLists` (a
bridge: both sides use the same decisions) and `ClientRun.RetryAgrees` are the lemmas that this rests on. A
publish of the system takes any id that is not in flight, so the results cover the search of the synchronous
client and, where `AsyncIds.AvoidsInFlight` says that it avoids such ids, that of the asynchronous one.

## Modelling choices

- Each handler is one step. What the socket does (a send completes, is interrupted or fails; writes are
  pending; a connection drops) and the time are inputs, so every theorem holds for all of them.
- The store is a map from keys to bytes that never fails; the order in which it lists its keys is arbitrary.
- A JSON string is what C reads at its pointer: bytes up to the first NUL. A finite number is kept as a text
  that `strtod` turns into its double: the parser keeps the text it took, and a number about to be printed is
  the text that `sprintf` gives for it; NaN and the infinities are values of their own. `strtod` is modelled by
  how much of a text it takes and by the decimal number that this is; how it rounds is a parameter, and the
  comparison, which goes by doubles, is proved for every rounding.
- C arithmetic is written out where it matters: truncating division and casts in `writeInt`, `unsigned int`
  lengths in Base64 and SHA-1, the `size_t` parameter of `MQTTPacket_encode`, `INT_MAX` in the printer.

## Where a promise does not hold as stated

Each of these is proved with a concrete input or as an exact condition.

- The send order after a restart is lost when the ids in flight have a wider gap than the one before the
  first message (`SendOrder.OrderLost`, exact condition in `SendOrder.SendOrderRestored`).
- The asynchronous client can assign an id that a restored message holds (`AsyncIds.CollidesAfterRestart`).
- Negative two- and four-byte property values do not survive (`Bytes.ShortRoundTrip`, `Bytes.Int4RoundTrip`,
  `Properties.SameListBack`).
- `cJSON_Minify` runs past a string that ends in a backslash (`JsonMinifyPrint.MinifyMeetsPrinter`).
- `cJSON_PrintPreallocated` needs two bytes more than the text, where one would hold it
  (`JsonPrint.PrintPreallocated`).
- A tree need not compare equal to a copy of itself: it does exactly when it holds no NaN and no invalid value
  and no member of an object contradicts the first with its key (`JsonCompare.EqualsItself`; `null` and `true`
  under one key are an input that fails, `null` and `null` one that does not: `JsonCompare.DuplicateKey`).
- Base64 encoding into a buffer whose size is a smaller multiple of four returns that size instead of 0, for
  the groups that fit (`Base64.Encode`).
- A reconnect does not return to the first server: it tries every server exactly when the last attempt was on
  the first (`ConnectAttempts.ReconnectOrder`).
- The SHA-1 length field is right only below 2^29 bytes (`Sha1.LengthField`), `Base64_encodeLength` only below
  2^30 (`Base64.EncodeLengthExact`), `MQTTPacket_VBIlen` only below 2^28 (`Bytes.VbiLenExact`).

## Model

| member | source | states |
|---|---|---|
| Exchange.RetriesInOrder | src/protocal/mqtt/external/MQTTProtocolClient.c:651-714 | for every list and every outcome of the sends: a retry changes nothing but times, and sends each entry at most once, in list order |
| Exchange.ReconnectResendsAll | src/protocal/mqtt/external/MQTTProtocolClient.c:651-714 | on a reconnect with a working connection every in-flight entry goes out again, in order |
| Exchange.FreeIdExists | src/protocal/mqtt/external/MQTTProtocolClient.c:78-98 | fewer than 65535 messages in flight leave an id free (pigeonhole), so the search for an id ends |
| Qos2Safety.ExactlyOnce | src/protocal/mqtt/external/MQTTProtocolClient.c:271-347 | over every run of sender and receiver with losses, retries, reconnects, restarts and reuse of ids, whatever unused id a publish takes: a QoS 2 message is handed on at most once, and exactly once when the sender has removed it on PUBCOMP |
| Qos2Safety.StoredOrDelivered | src/protocal/mqtt/external/MQTTProtocolClient.c:401-597 | in every run, a QoS 2 message whose PUBREC was handled is handed on or held by the receiver; none is lost between the two lists |
| Qos2Safety.NothingLost | src/protocal/mqtt/external/MQTTProtocolClient.c:355-597 | in every run of a session that is never cleaned, a QoS 2 message is still with the sender or was handed on exactly once |
| Qos2Safety.NeverResentAfterPubrec | src/protocal/mqtt/external/MQTTProtocolClient.c:651-714 | section 4.3.3 of MQTT 3.1.1: once PUBREC has been handled no step sends the PUBLISH again |
| Qos2Safety.RetryInOriginalOrder | src/protocal/mqtt/external/MQTTProtocolClient.c:651-714 | section 4.6 of MQTT 3.1.1: in every run without a shuffled restart, a retry sends the PUBLISH packets in the order in which they were first sent |
| Qos2Safety.ExchangeCompletes | src/protocal/mqtt/external/MQTTProtocolClient.c:129-597 | from every reachable state, once the connection is new and nothing more is lost, the next QoS 2 message with any unused id is handed on once and completed, and both in-flight lists are as before |
| Qos2Steps.RunKeepsInv | src/protocal/mqtt/external/MQTTProtocolClient.c:271-714 | the invariant that ties both endpoints, both channels, ids in use and deliveries holds in every reachable state |
| Qos2Steps.StepKeepsInv | src/protocal/mqtt/external/MQTTProtocolClient.c:271-714 | each single step keeps that invariant |
| Client.Client.AssignMsgId | src/protocal/mqtt/external/MQTTProtocolClient.c:78-98 | returns the first id after msgID round the circle 1..65535 that is not outbound; 0 exactly when msgID is nonzero and every other id is in use; ends whenever msgID is nonzero or an id is free |
| AsyncIds.AsyncClient.AssignMsgId | src/protocal/mqtt/external/MQTTAsync.c:3144-3178 | the asynchronous search: the first id after msgID that is no token of a queued or waiting command; 0 exactly when all others are tokens |
| AsyncIds.AvoidsInFlight | src/protocal/mqtt/external/MQTTAsync.c:3144-3178 | false in general that it avoids ids in flight: it does, from every start, exactly when each in-flight id is the token of a queued or waiting command |
| AsyncIds.CollidesAfterRestart | src/protocal/mqtt/external/MQTTAsync.c:3144-3178 | the concrete failure: a restored message holds id 1, no command is left, and the first id assigned is 1 |
| Client.Client.StorePublication | src/protocal/mqtt/external/MQTTProtocolClient.c:220-247 | a new publication with one reference joins the stored ones |
| Client.Client.RemovePublication | src/protocal/mqtt/external/MQTTProtocolClient.c:253-263 | one reference less; the publication goes with its last reference |
| Client.Client.CreateMessage | src/protocal/mqtt/external/MQTTProtocolClient.c:182-211 | a new message refers to a fresh copy or shares a stored one; QoS 2 awaits PUBREC |
| Client.Client.StartPublish | src/protocal/mqtt/external/MQTTProtocolClient.c:129-171 | QoS 1 and 2: the message is in flight and its record put before the bytes go out; QoS 0: a copy is kept only for an interrupted write |
| Client.Client.HandlePubacks | src/protocal/mqtt/external/MQTTProtocolClient.c:355-392 | a PUBACK completes a QoS 1 entry with its id and touches nothing else |
| Client.Client.HandlePubrecs | src/protocal/mqtt/external/MQTTProtocolClient.c:401-461 | a PUBREC moves a waiting QoS 2 entry on: PUBREL recorded, then sent, even when the send fails |
| Client.Client.HandlePubcomps | src/protocal/mqtt/external/MQTTProtocolClient.c:549-597 | a PUBCOMP completes a QoS 2 entry whose PUBREC was handled: both records, reference and entry go |
| Client.Client.Receive | src/protocal/mqtt/external/MQTTPacket.c:102-166 | a QoS 2 PUBLISH is recorded before its handler runs |
| Client.Client.HandlePublishes | src/protocal/mqtt/external/MQTTProtocolClient.c:271-347 | QoS 1 is acknowledged and handed on; QoS 2 is queued in place of one with the same id and answered with PUBREC; pending writes refuse both |
| Client.Client.HandlePubrels | src/protocal/mqtt/external/MQTTProtocolClient.c:470-540 | a queued message is answered, handed on, unrecorded and dropped; an unknown id is answered only with DUP set |
| Client.Client.Retries | src/protocal/mqtt/external/MQTTProtocolClient.c:651-714 | the loop over the in-flight list does what the recursive specification of retries says, whatever the socket does |
| Client.Client.CheckPendingWrites | src/protocal/mqtt/external/MQTTAsync.c:1136-1156 | completed QoS 0 writes give their copy back |
| Client.Client.CleanSession | src/protocal/mqtt/external/MQTTAsync.c:2611-2634 | store, lists and next id are reset; every reference of both lists is given back |
| Client.Client.Unpersist | src/protocal/mqtt/external/MQTTPersistence.c:468-501 | removing a sent message deletes all four keys it may have |
| Client.Client.RestoreKey | src/protocal/mqtt/external/MQTTPersistence.c:189-299 | one key of the store: skipped, restored, deleted as bad or orphaned, or refused as version 5 |
| Client.Client.RestoreAll | src/protocal/mqtt/external/MQTTPersistence.c:175-313 | the loop over the listed keys and the final cut do what the specification of a restart says |
| Refinement.PublishRefines | src/protocal/mqtt/external/MQTTProtocolClient.c:271-347 | an arriving PUBLISH: the byte-level receiver and the two-endpoint system end with the same list, acknowledgement and delivery |
| Refinement.PubrelRefines | src/protocal/mqtt/external/MQTTProtocolClient.c:470-540 | an arriving PUBREL likewise: what is handed on has the text of the message whose number the system hands on |
| ClientRun.RetryAgrees | src/protocal/mqtt/external/MQTTProtocolClient.c:651-714 | the byte-level retry touches and sends exactly what the decision shared with the two-endpoint system says, packet for packet |
| TwoClientsSafety.ExactlyOnceInBytes | src/protocal/mqtt/external/MQTTProtocolClient.c:129-714 | two clients with bytes, shared publications and stores, over every run with losses, retries and crashes of either side: each text handed on is one that was published; no QoS 2 publish call is handed on twice; one completed on PUBCOMP was handed on; one not handed on is still held by the sender with its text |
| TwoClientsSafety.StepSim | src/protocal/mqtt/external/MQTTProtocolClient.c:129-714 | each step of the two clients is a step of the two-endpoint system that keeps lists, records, channels and deliveries in agreement |
| TwoClientsSteps.AtReceiverSim | src/protocal/mqtt/external/MQTTProtocolClient.c:271-540 | a packet at the receiver: its record, list, answer and delivery change as the system says, in bytes |
| TwoClientsSteps.AtSenderSim | src/protocal/mqtt/external/MQTTProtocolClient.c:355-597 | an acknowledgement at the sender: the list, the PUBREL and the completion are those of the system |
| TwoClientsSteps.RetrySim | src/protocal/mqtt/external/MQTTProtocolClient.c:651-714 | a retry sends, packet for packet, what the system sends |
| TwoClientsSteps.PublishSim | src/protocal/mqtt/external/MQTTProtocolClient.c:129-211 | a publish call, of a fresh text or one shared with a message in flight, is one of the system |
| TwoClientsCrash.SenderCrashSim | src/protocal/mqtt/external/MQTTPersistence.c:175-313 | a crash and restart of the sender, for every order of keys, leaves the entries of the system in some order with new times |
| TwoClientsCrash.ReceiverCrashSim | src/protocal/mqtt/external/MQTTPersistence.c:189-249 | a crash and restart of the receiver gives one message for each record, with the text that was recorded last |
| Ownership.StartPublishOwned | src/protocal/mqtt/external/MQTTProtocolClient.c:151-247 | publishing keeps: every stored publication has as many references as owners, none dangles, none leaks |
| Ownership.StartPublish0Owned | src/protocal/mqtt/external/MQTTProtocolClient.c:101-118 | so does a QoS 0 publish with an interrupted write |
| Ownership.OnPubackOwned | src/protocal/mqtt/external/MQTTProtocolClient.c:355-392 | so does a PUBACK |
| Ownership.OnPubrecOwned | src/protocal/mqtt/external/MQTTProtocolClient.c:401-461 | so does a PUBREC |
| Ownership.OnPubcompOwned | src/protocal/mqtt/external/MQTTProtocolClient.c:549-597 | so does a PUBCOMP |
| Ownership.OnPublishOwned | src/protocal/mqtt/external/MQTTProtocolClient.c:271-347 | so does an arriving PUBLISH, also when it replaces a queued one |
| Ownership.OnPubrelOwned | src/protocal/mqtt/external/MQTTProtocolClient.c:515-531 | so does a PUBREL, although it drops the publication whatever its count: an inbound message is its only owner |
| Ownership.RetryOwned | src/protocal/mqtt/external/MQTTProtocolClient.c:651-714 | so do retries |
| Ownership.CheckPendingOwned | src/protocal/mqtt/external/MQTTAsync.c:1136-1156 | so does the clearing of completed writes |
| Ownership.CleanOwned | src/protocal/mqtt/external/MQTTProtocolClient.c:805-819 | so does emptying both lists |
| MirrorSteps.StartPublishMirrored | src/protocal/mqtt/external/MQTTPacket.c:231-268 | publishing keeps the store a mirror: a PUBLISH record for every outbound message and no other, a PUBREL record for exactly those awaiting PUBCOMP, a record for every inbound message |
| MirrorSteps.OnPubackMirrored | src/protocal/mqtt/external/MQTTPersistence.c:468-501 | a PUBACK keeps the mirror |
| MirrorSteps.OnPubrecMirrored | src/protocal/mqtt/external/MQTTPacket.c:178-218 | a PUBREC keeps the mirror: the PUBREL record appears as the entry advances |
| MirrorSteps.OnPubcompMirrored | src/protocal/mqtt/external/MQTTPersistence.c:468-501 | a PUBCOMP keeps the mirror |
| MirrorSteps.StoreReceivedMirrored | src/protocal/mqtt/external/MQTTPacket.c:102-166 | recording a received PUBLISH keeps the mirror |
| MirrorSteps.OnPublishMirrored | src/protocal/mqtt/external/MQTTProtocolClient.c:271-347 | handling it keeps the mirror, even when the handler refuses |
| MirrorSteps.OnPubrelMirrored | src/protocal/mqtt/external/MQTTProtocolClient.c:470-540 | a PUBREL keeps the mirror |
| MirrorSteps.RetryMirrored | src/protocal/mqtt/external/MQTTProtocolClient.c:651-714 | retries rewrite records, with DUP set, and keep the mirror, also when a send fails |
| Keys.KeysDiffer | src/protocal/mqtt/external/MQTTPersistence.c:413-444 | keys of different kinds, or of different ids, never coincide |
| Keys.BranchOfKeys | src/protocal/mqtt/external/MQTTPersistence.c:191-290 | each key is recognised as what it was written as |
| Packets.Sends | src/protocal/mqtt/external/MQTTPacket.c:231-268 | header byte, encoded length and buffers, with the length added up first |
| Packets.SendPublish | src/protocal/mqtt/external/MQTTPacket.c:785-837 | the frame of a PUBLISH: topic length, topic, id for QoS 1 and 2, payload |
| Packets.PublishRestored | src/protocal/mqtt/external/MQTTPersistence.c:321-350 | the record of a PUBLISH is read back as that PUBLISH, for every topic and payload |
| Packets.AckRestored | src/protocal/mqtt/external/MQTTPersistence.c:321-350 | the record of a PUBREL is read back as that PUBREL |
| Bytes.ShortRoundTrip | src/protocal/mqtt/external/MQTTPacket.c:425-431 | writeInt then readInt gives a short back exactly when it is not negative or a multiple of 256 |
| Bytes.Int4RoundTrip | src/protocal/mqtt/external/MQTTPacket.c:864-890 | writeInt4 then readInt4 gives an int back exactly when it is not negative or a multiple of 2^24 |
| Bytes.VbiLenExact | src/protocal/mqtt/external/MQTTPacket.c:929-942 | the computed length of a variable byte integer is the encoded length exactly below 2^28 |
| Bytes.VbiRoundTrip | src/protocal/mqtt/external/MQTTPacket.c:951-976 | decoding inverts encoding, whatever follows, exactly below 2^28 |
| Bytes.Encode | src/protocal/mqtt/external/MQTTPacket.c:277-293 | the encoding loop writes the bytes of the specification and nothing else |
| CrashRestore.CrashRestored | src/protocal/mqtt/external/MQTTPersistence.c:175-313 | for every order of keys, a restart after any handler gives back the same in-flight messages (id, QoS, retain, next type, topic, payload), and for every record received the message that it holds |
| CrashRestore.CrashKeepsOrder | src/protocal/mqtt/external/MQTTPersistence.c:359-373 | the restored list equals the list before the crash exactly when the cyclic gap before the first message is the widest |
| CrashRestore.KeysRestored | src/protocal/mqtt/external/MQTTPersistence.c:189-299 | the loop over the keys inserts exactly the messages whose records it meets |
| CrashRestore.InboundRestored | src/protocal/mqtt/external/MQTTPersistence.c:232-249 | the loop over the keys adds for every record received the message that it holds, each id once |
| ClientRun.RunSane | src/protocal/mqtt/external/MQTTProtocolClient.c:151-714 | in every run, over any number of crashes: references match owners, the store mirrors the lists, ids are distinct |
| ClientRun.RunSurvivesCrash | src/protocal/mqtt/external/MQTTPersistence.c:175-313 | after any run from a fresh client, a crash and restart loses nothing in flight |
| SendOrder.InsertInOrder | src/protocal/mqtt/external/MQTTPersistence.c:359-373 | on the linked list: the message is inserted in front of the first larger id |
| SendOrder.WrapMsgId | src/protocal/mqtt/external/MQTTPersistence.c:509-546 | on the linked list: rotated to start behind the widest computed gap; still well formed |
| SendOrder.SendOrderRestored | src/protocal/mqtt/external/MQTTPersistence.c:509-546 | section 4.6 of MQTT 3.1.1: for every enumeration of the store the send order comes back exactly when the gap before the first id is the widest, ties counted |
| SendOrder.StrictlyWidestCutRestores | src/protocal/mqtt/external/MQTTPersistence.c:509-546 | in particular when that gap is strictly wider than every other |
| SendOrder.OrderLost | src/protocal/mqtt/external/MQTTPersistence.c:509-546 | the concrete failure: ids 1 and 40000 in flight come back in the wrong order |
| SendOrder.InsertAllSorts | src/protocal/mqtt/external/MQTTPersistence.c:359-373 | inserting in any order gives the list sorted by id with the same members |
| LinkedList.List.Append | src/protocal/mqtt/external/LinkedList.c:72-84 | the list is well formed, with the element at its end |
| LinkedList.List.Insert | src/protocal/mqtt/external/LinkedList.c:108-129 | the element stands before the given one, or at the end |
| LinkedList.List.FindItem | src/protocal/mqtt/external/LinkedList.c:152-187 | searching from the cached cursor: null exactly when nothing matches, a match otherwise, and the first match exactly when the cursor does not hide it; the cursor is the result |
| LinkedList.List.Scan | src/protocal/mqtt/external/LinkedList.c:152-187 | the plain scan finds the first match |
| LinkedList.List.Unlink | src/protocal/mqtt/external/LinkedList.c:199-234 | the first match goes, everything else stays in order, and the cursor stays a member or null |
| LinkedList.List.DetachHead | src/protocal/mqtt/external/LinkedList.c:266-284 | the first element is taken off |
| LinkedList.List.PopTail | src/protocal/mqtt/external/LinkedList.c:304-322 | the last element is taken off |
| LinkedList.List.Empty | src/protocal/mqtt/external/LinkedList.c:357-373 | nothing is left, the cursor included |
| LinkedList.List.WalkForward | src/protocal/mqtt/external/LinkedList.c:409-412 | following next from first visits the contents in order |
| LinkedList.List.WalkBackward | src/protocal/mqtt/external/LinkedList.c:422-425 | following prev from last visits them in reverse |
| JsonPrint.PrintBuffer.Ensure | src/utils/json/cJSON.c:383-468 | room for n bytes and one more exactly when the limit allows; what was written survives the move |
| JsonPrint.PrintBuffer.UpdateOffset | src/utils/json/cJSON.c:471-481 | the offset ends at the NUL of what was printed |
| JsonPrint.PrintBuffer.CountEscapes | src/utils/json/cJSON.c:865-892 | the first pass over a string counts exactly the characters that escaping adds |
| JsonPrint.PrintBuffer.WriteEscaped | src/utils/json/cJSON.c:907-951 | the second pass writes the escaped text, inside the span reserved |
| JsonPrint.PrintBuffer.PrintString | src/utils/json/cJSON.c:837-956 | a string is printed exactly when its text, NUL and one byte fit |
| JsonPrint.PrintBuffer.PrintValue | src/utils/json/cJSON.c:1277-1348 | any value: success exactly when it is printable and text plus two bytes fit; then the buffer holds old text, rendering and NUL, across every reallocation |
| JsonPrint.PrintBuffer.PrintArray | src/utils/json/cJSON.c:1445-1504 | arrays, element by element, with the same exact bound |
| JsonPrint.PrintBuffer.PrintObject | src/utils/json/cJSON.c:1616-1727 | objects, member by member, with the same exact bound |
| JsonPrint.PrintPreallocated | src/utils/json/cJSON.c:1202-1219 | succeeds exactly when the buffer has two bytes more than the text, and then holds the text that the growing printer gives |
| JsonPrint.PrintBuffered | src/utils/json/cJSON.c:1172-1200 | succeeds exactly when the text stays two bytes below INT_MAX, whatever the first size |
| JsonPrint.Print | src/utils/json/cJSON.c:1097-1159 | the rendering and its NUL in a block of exactly that size |
| JsonTree.RenderText | src/utils/json/cJSON.c:1277-1348 | rendered text holds no NUL, so the end found is the end |
| JsonStrings.EscapeRead | src/utils/json/cJSON.c:587-705 | for every code point but a surrogate, the one or two escapes of section 7 of RFC 8259 are read as its UTF-8 form, which decodes to it |
| JsonStrings.Utf8Decodes | src/utils/json/cJSON.c:660-697 | the written form is well formed and the shortest one of section 3 of RFC 3629 |
| JsonStrings.QuotedRead | src/utils/json/cJSON.c:708-834 | a printed string is read back, whatever follows it |
| JsonStrings.SixChars | src/utils/json/cJSON.c:721-748 | six characters hold at most three escapes of the first pass, wherever the passes stand |
| JsonParser.DecodedFits | src/utils/json/cJSON.c:721-812 | for every text, malformed escapes included: the second pass yields no more bytes than the first allows for |
| JsonParser.ParseBuffer.DecodeInto | src/utils/json/cJSON.c:755-812 | every byte of the second pass is written inside the block allocated, and the bytes are those of the specification |
| JsonParser.ParseBuffer.FindEnd | src/utils/json/cJSON.c:721-748 | the first pass finds the closing quote and counts the escapes |
| JsonParser.ParseBuffer.WriteUtf8 | src/utils/json/cJSON.c:683-700 | the bytes written from the last to the first are the UTF-8 form |
| JsonParser.ParseBuffer.ParseString | src/utils/json/cJSON.c:708-834 | a literal is read as specified, or fails as specified |
| JsonParser.ParseBuffer.ParseNumber | src/utils/json/cJSON.c:276-350 | at most 63 characters are copied, the longest number at their front is taken and kept as text, and that text has the decimal value of all that strtod was given |
| JsonParse.ValueOfTaken | src/utils/json/cJSON.c:324-330 | for every text: the part that strtod takes is read again as a whole and has the same decimal value |
| JsonParse.PointExample | src/utils/json/cJSON.c:324-330 | 1.0 and 1 are one number |
| JsonParse.ExponentExample | src/utils/json/cJSON.c:324-330 | 1e2 and 100 are one number |
| JsonParser.ParseBuffer.SkipWhitespace | src/utils/json/cJSON.c:973-991 | the offset ends at the next solid character or steps back to the NUL |
| JsonParser.ParseBuffer.ParseValue | src/utils/json/cJSON.c:1222-1274 | any value is read as specified: result, offset and depth |
| JsonParser.ParseBuffer.ParseArray | src/utils/json/cJSON.c:1351-1442 | arrays likewise, at most 1000 deep |
| JsonParser.ParseBuffer.ParseObject | src/utils/json/cJSON.c:1507-1613 | objects likewise |
| JsonParser.ParseWithOpts | src/utils/json/cJSON.c:1010-1087 | a whole text, byte order mark and end check included |
| JsonParse.PrintedIsRead | src/utils/json/cJSON.c:1010-1087 | for every readable tree, formatted or not: parsing its print gives the same tree, key order and duplicate keys included, exactly when it is nested at most 1000 deep, and fails otherwise |
| JsonParse.ValueRead | src/utils/json/cJSON.c:1222-1274 | the same for a value anywhere in a text at any depth |
| JsonMinify.Minify | src/utils/json/cJSON.c:2692-2738 | in place: the text before the NUL becomes its minified form, and nothing behind the NUL is touched |
| JsonMinify.Text.MinifyString | src/utils/json/cJSON.c:2670-2690 | a string is copied up to what is taken for its closing quote; writing never passes reading |
| JsonMinify.Text.SkipBlock | src/utils/json/cJSON.c:2656-2668 | a block comment is skipped, or the rest of the text |
| JsonMinify.Idempotent | src/utils/json/cJSON.c:2692-2738 | minifying twice is minifying once, for every text |
| JsonMinifyPrint.MinifyMeetsPrinter | src/utils/json/cJSON.c:2670-2738 | minifying the formatted print gives the unformatted print exactly for the trees in which a string ending in a backslash is followed by closing brackets only |
| JsonMinifyPrint.NoTrapIsOk | src/utils/json/cJSON.c:2670-2690 | in particular for every tree in which no string and no key ends in a backslash |
| JsonMinifyPrint.QuotedKept | src/utils/json/cJSON.c:2670-2690 | a printed string comes through unchanged; after one that ends in a backslash the minifier is still inside a string |
| JsonCompare.Compare | src/utils/json/cJSON.c:2840-2963 | the loops over elements and members, with numbers compared as doubles and keys with or without case, compute the specified comparison |
| JsonCompare.ComparesValues | src/utils/json/cJSON.c:2840-2963 | for all pairs of trees, both case modes and every rounding of strtod: equal exactly when both trees are good (no invalid value, no NaN, no member that contradicts the first with its key) and stand for the same value, objects as maps and arrays as sequences |
| JsonCompare.IncludesValues | src/utils/json/cJSON.c:2924-2958 | one loop says yes only if every member stands for what the other object has under its key, and does so if the other object is good |
| JsonCompare.ComparesMembers | src/utils/json/cJSON.c:2922-2958 | both loops say yes exactly when both objects are good and the same map |
| JsonCompare.EqualsItself | src/utils/json/cJSON.c:2840-2963 | that a tree equals a copy of itself holds exactly for the good trees |
| JsonCompare.ShortcutAgrees | src/utils/json/cJSON.c:2864-2868 | the pointer shortcut gives the answer for a copy exactly for the good trees and for an invalid one |
| JsonCompare.DuplicateKey | src/utils/json/cJSON.c:2924-2958 | a key twice in an object: equal to its copy exactly when both members are good and stand for one value, so null and true under one key are not |
| JsonCompare.GetObjectItem | src/utils/json/cJSON.c:1782-1812 | the first member with the key, with or without case |
| JsonCompare.SameLowered | src/utils/json/cJSON.c:105-124 | the loop over both strings decides equality of the lower-cased strings |
| Properties.MQTTProperties.Add | src/protocal/mqtt/external/MQTTProperties.c:95-153 | the property joins the list and the kept length stays the sum of the sizes; an unknown identifier is refused |
| Properties.SizeExact | src/protocal/mqtt/external/MQTTProperties.c:95-153 | the size added is the size written, unless a variable byte integer is out of range; then it is smaller |
| Properties.PropertiesLenExact | src/protocal/mqtt/external/MQTTProperties.c:88-92 | MQTTProperties_len is the number of bytes written exactly when all variable byte integers and the list length are below 2^28 |
| Properties.WriteProperties | src/protocal/mqtt/external/MQTTProperties.c:199-226 | the bytes written are length and properties in order, and the pointer ends behind them |
| Properties.WriteProperty | src/protocal/mqtt/external/MQTTProperties.c:156-196 | one property: identifier and value by type |
| Properties.Reader.Read | src/protocal/mqtt/external/MQTTProperties.c:273-309 | the reading loop computes the specified list, end pointer and return code |
| Properties.PropertiesRead | src/protocal/mqtt/external/MQTTProperties.c:229-309 | reading what was written returns 1, the same end pointer and the list with each number as two unsigned bytes change it |
| Properties.SameListBack | src/protocal/mqtt/external/MQTTProperties.c:229-309 | the same list exactly when every short and int in it is not negative or has zero low bytes |
| PacketOut.ConnectLenExact | src/protocal/mqtt/external/MQTTPacketOut.c:48-118 | the length computed for CONNECT equals the bytes written exactly when the property lengths are right, for each version and each choice of fields |
| PacketOut.SubscribeLenExact | src/protocal/mqtt/external/MQTTPacketOut.c:217-260 | the same for SUBSCRIBE |
| PacketOut.UnsubscribeLenExact | src/protocal/mqtt/external/MQTTPacketOut.c:321-349 | the same for UNSUBSCRIBE |
| PacketOut.SendConnect | src/protocal/mqtt/external/MQTTPacketOut.c:48-118 | every write stays in the block allocated and the frame is the specified one; no frame for an unknown version |
| PacketOut.SendSubscribe | src/protocal/mqtt/external/MQTTPacketOut.c:217-267 | every write stays in the block allocated and the frame is the specified one |
| PacketOut.SendUnsubscribe | src/protocal/mqtt/external/MQTTPacketOut.c:321-356 | the same for UNSUBSCRIBE |
| PacketOut.ConnectFlagsRead | src/protocal/mqtt/external/MQTTPacketOut.c:83-103 | which fields follow can be read back from the flags (section 3.1.2.3 of MQTT 3.1.1) |
| PacketOut.SubByteRead | src/protocal/mqtt/external/MQTTPacketOut.c:240-256 | QoS and options can be read back from the options byte (section 3.8.3.1 of MQTT 5.0) |
| CommandQueue.Queue.AddCommand | src/protocal/mqtt/external/MQTTAsync.c:980-1010 | CONNECT and internal DISCONNECT go to the head unless one of their kind and client is there; everything else goes to the end |
| CommandQueue.Queue.TakeCommand | src/protocal/mqtt/external/MQTTAsync.c:1328-1374 | with one list of ignored clients: the earliest command that is first of its client and eligible is taken, or there is none |
| CommandQueue.Queue.RemoveCommands | src/protocal/mqtt/external/MQTTAsync.c:1885-1927 | exactly the commands of the client go, the others keep their order |
| CommandQueue.NothingChosen | src/protocal/mqtt/external/MQTTAsync.c:1328-1374 | nothing is chosen exactly when no client's first command is eligible |
| CommandQueue.SomethingGoes | src/protocal/mqtt/external/MQTTAsync.c:1328-1374 | an eligible first command is chosen, unless an earlier one is |
| CommandQueue.RunInOrder | src/protocal/mqtt/external/MQTTAsync.c:980-1374 | in every run, what left and what is queued of one client's requests is what was added, in that order |
| CommandQueue.RequestsFifo | src/protocal/mqtt/external/MQTTAsync.c:980-1374 | the PUBLISH, SUBSCRIBE and UNSUBSCRIBE commands of a client leave in the order they were added |
| ConnectAttempts.Connector.ConnectFailing | src/protocal/mqtt/external/MQTTAsync.c:1597-1718 | when every attempt fails, each at once or later: the attempts are the specified ones, then exactly one report; a decreasing measure covers both failure paths |
| ConnectAttempts.FreshConnectOrder | src/protocal/mqtt/external/MQTTAsync.c:1414-1422 | from a fresh connect: (0,4), (0,3), (1,4) up to the last server for the default version, else every server once |
| ConnectAttempts.ReconnectOrder | src/protocal/mqtt/external/MQTTAsync.c:1062-1070 | a reconnect resets the version of a default client but not the server: exactly the servers from the last one on are tried, so all of them exactly when that was the first |
| ConnectAttempts.AttemptsStep | src/protocal/mqtt/external/MQTTAsync.c:1597-1653 | one failed attempt: the next one, with fewer left, or the end |
| Sha1.WindowMoves | src/protocal/mqtt/external/SHA1.c:114-115 | overwriting one of sixteen words keeps the last sixteen of the 80-word schedule (section 6.1.3 of FIPS 180-4 against 6.1.2) |
| Sha1.Context.ProcessBlock | src/protocal/mqtt/external/SHA1.c:95-137 | one block: the compression of section 6.1.2 |
| Sha1.Context.Update | src/protocal/mqtt/external/SHA1.c:173-196 | for every split of the data: the state stands for the whole message so far |
| Sha1.Final | src/protocal/mqtt/external/SHA1.c:139-171 | the digest of the message padded with the length that 32-bit arithmetic gives |
| Sha1.LengthField | src/protocal/mqtt/external/SHA1.c:146-147 | that length is the right one exactly below 2^29 bytes |
| Sha1.HashParts | src/protocal/mqtt/external/SHA1.c:77-196 | Init, any Updates, Final: the digest of FIPS 180-4 for messages below 2^29 bytes |
| Sha1.CodeFIs | src/protocal/mqtt/external/SHA1.c:117-124 | parts joined with OR are the choice and majority of section 4.1.1 |
| Base64.RoundTrip | src/protocal/mqtt/external/Base64.c:100-235 | decoding the encoding gives the bytes back, for all byte sequences |
| Base64.CodeIsGroup | src/protocal/mqtt/external/Base64.c:192-224 | the masks and shifts are the 24-bit groups of section 4 of RFC 4648 |
| Base64.Encode | src/protocal/mqtt/external/Base64.c:179-235 | the encoding if there is room; otherwise 0, or the whole groups when the room is a multiple of four |
| Base64.Decode | src/protocal/mqtt/external/Base64.c:100-177 | as much of the decoding as there is room for |
| Base64.EncodeLengthExact | src/protocal/mqtt/external/Base64.c:250-253 | the computed length is 4 * ceil(n / 3) exactly below 2^30 |
| Base64.EncodedLength | src/protocal/mqtt/external/Base64.c:179-235 | the encoded length is 4 * ceil(n / 3) |
| Base64.DecodeLengthExact | src/protocal/mqtt/external/Base64.c:239-248 | the length computed from an encoding is the number of bytes encoded |
| Base64.EncodeThenDecode | src/protocal/mqtt/external/Base64.c:100-253 | with buffers of the computed sizes the two calls give the bytes back |

## Left out

- Sockets, TLS, WebSocket framing, threads, mutexes, semaphores and clocks: their outcomes are inputs of the model.
- Allocation failure: every `malloc` succeeds; freeing is not modelled except for stored publications and list elements.
- The file-system store: an abstract map stands for it, and a configured store is assumed.
- Restart of a version 5 client: its PUBREL records carry the 3.1.1 key while the restart looks for the version 5 key.
- A crash in the middle of a handler, and liveness between two copies of this client (a PUBREL retry carries no DUP and an unknown PUBREL without DUP is not answered): only safety at handler boundaries is claimed.
- Restart of queued asynchronous commands, whose ordering helper reads fields of another structure.
- `Qos2System` has one sender and one receiver, and a QoS 1 message of it is only followed to delivery.
- CrashRestore.CrashRestored: topics of 65536 bytes and more, whose length does not fit the two bytes of a PUBLISH, are outside the invariant; of an inbound message the text recorded last comes back, which a refused PUBLISH can have replaced.
- TwoClientsSafety.ExactlyOnceInBytes: QoS 0 publishing, traffic in the other direction and a clean session are not among its steps.
- Client.Client.CleanSession: the queue of received messages, the responses and the commands, which the source also removes, are not part of this state; removing the commands of a client is `CommandQueue.Queue.RemoveCommands`.
- Client.Client.RestoreKey: a record read past its end, or taken for another kind, is an outcome without a state, as for the whole restart.
- Client.Client.RestoreAll: a record whose parsing reads past its end, or whose packet type does not fit its key, is an outcome without a state, since the source then reads foreign memory.
- `List.size`, from which removals never subtract, and the return value of `MQTTProperties_write`, which counts one length byte whatever the size.
- Properties.Reader.Read: lists with strings of 65536 bytes and more are read as the code reads them, but no round trip is claimed for them; `length` is not bounded by 32 bits.
- Floating point: the rounding of `strtod` is a parameter, and `sprintf` is modelled by the text it gives; printing a parsed tree whose number texts are not the ones that `sprintf` would give, `valueint`, and locales with another decimal point or other lower-case letters are not modelled.
- JSON nodes are immutable values: the `prev` pointers, references and constant strings of cJSON nodes are not modelled, nor a null `valuestring`; the position reported after a parse error is not modelled.
- The Windows and OpenSSL branches of SHA-1 and Base64.
- Sha1.Context.ProcessBlock: the block buffer and the schedule, one union in C, are two arrays; the overlay is written back for a little-endian machine.
- The message and name tables, tracing, heap tracking, and the application code on top.
