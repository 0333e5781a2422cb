# A model of the wire protocols vendored with WOI

The iOS app WOI carries two C and C++ code bases that do its hard work on the wire: nanopb, the Protocol
Buffers codec, and the TLS and DTLS code of BoringSSL. These Dafny modules model four of their components and
prove what they promise. Each component has a specification (functions and predicates on values), the code as
methods and classes that change state where the source does, and theorems over all inputs or all runs.

**DTLS handshake transport** (sections 4.1.2.6, 4.2.2, 4.2.3 and 4.2.4 of RFC 6347).
`Wire` holds fragments as bytes, `ReplayWindow` the 64-bit replay map, `DtlsRecord` sealing and opening with
epochs, `Reassembly` the byte mask changed in place, `Inbox` what the receiver holds as a table by message
number, `Receiver` the ring of slots that implements the table for any ring size below 256, `ReadSide` the
record layer in front of it, `Flight` and `Sender` the packing of a flight with a resumable cursor.
`Outbox` is the sending side as a value: messages, flight, epochs, counters and every record sealed. `EndToEnd`
joins it to the receiving side, replay window and ring, by a channel that loses, repeats and reorders records;
`Delivery` is about what arrives, up to a whole flight across a change of cipher; `Bounds` has the runs that
show why the bounds of the theorems are needed; and `Session` shows that each operation of the sender and reader
objects, epoch changes included, is a step of that system or none.

**nanopb** (static allocation). `Descriptor`, `EncodeSpec` and `DecodeSpec` say what the bytes of a message
are and what any bytes decode to; `Varint`, `ScalarRoundTrip`, `Equality` and `RoundTrip` prove the round
trip from bytes up; `Soundness`, `Leftovers` and `Clearing` are about arbitrary input bytes and what was in
memory before, and `Reach` about a bound they need. `WireFormat` is the format itself, read without a descriptor
by the wire types 0, 1, 2 and 5; `Spelling` proves that an encoding is exactly the records of the fields written,
and `Merge`, with `Overlong`, that decoding merges any records into the message one by one, whoever wrote them;
`Unknown` is about fields that the descriptor does not have and `Missing` about those that do not come.
`OutputStream`, `Encoder`, `InputStream`,
`FieldIter` and `Decoder` are the streams, the two-pass encoder, the cyclic iterator, the word-packed set
of seen fields and the decode loop, each proved against the specification. `Limits` shows the two places
where the encoder accepts what the decoder refuses.

**TLS writing and framing**. `SslBuffer`, `TlsWriter` and `Framing`: the write buffer in memory, the pending
flight, pending writes with their retries, early data, alerts, and the handshake buffer that joins messages
cut by records. The transport may take any part of a write or refuse it.

**State machines and selection**. `Client` and `Server` run the handshakes of TLS 1.2 and below against an
arbitrary peer: any message may come at any time. `Handshake` is the connection they share, with a record of what
was taken, checked and sent. `ClientCourse` and `ServerCourse` say, state by state, what the record of a handshake
that follows RFC 5246 holds; every state function is proved to keep to it or to fail for a reason that is named, and
the theorems about finished handshakes are about the record alone. `CipherChoice` is the one-pass choice with
groups of equal preference; `RefCount` is the reference count under any number of threads.

## What does not hold as it stands

The models keep the code as it is. Where a natural promise fails, a lemma gives the input and the theorems
carry the exact condition.

- A string slot without a terminator, and a packed array or submessage of 2^32 bytes or more, are encoded but
  not decoded (`Limits.UnterminatedString`, `Limits.WideArray`); round trips hold exactly for `Decodable`
  messages.
- The wire type of a known field is not looked at: a string in place of an int32 is read as its length and then as
  more records (`Unknown.WrongType`). `Merge` says what any input decodes to in which fixed and length-delimited
  fields come with the wire type of their type.
- Handshake message numbers are 16 bits wide, and nothing below the handshake keeps the sender from running
  ahead: when every flight is sent, lost and dropped, 2^16 + 1 messages ahead of a receiver that got none, its last
  message is delivered as the first (`Bounds.Laps`). Up to 2^16 messages ahead the end-to-end theorems hold, for
  any number of messages in all, because the replay window drops what is old (`EndToEnd.OldIsStale`); a handshake
  that answers the peer's flights is never more than one flight ahead (`EndToEnd.LockStep`).
- Record numbers are unique only while an epoch takes at most 2^48 of them: the counter then starts again at
  zero with an error and the next record reuses number 0 (`DtlsRecord.NumberReused`, exact condition in
  `DtlsRecord.RecordWriter.Seal`). The reader accepts a number twice when the 16-bit epoch comes round
  (`DtlsRecord.EpochComesRound`; `DtlsRecord.NoNumberTwice` below that). Past 2^48 numbers a message can be
  delivered twice, however close the two sides stay (`Bounds.ComesRound`).
- When sealing fails in the middle of a packet, send_flight does not put the cursor back, unlike after a
  refused write, and the records before it in that packet are never written in this pass
  (`Sender.SkipsARecord`). `Sender.FlightSender.SendFlight` says exactly when, in terms of the cipher, the room
  and the next number, and which records; without such a failure what was written is what the cursor passed.
- For a message without a body the sender asks for one byte of room more than its record can need, and turns it
  away exactly at that byte (`Sender.FlightSender.NeededOneTooMany`).
- The receiver's test for fragments too far ahead lets one number too many through, which breaks off the
  connection instead of being ignored (`Inbox.BehindTheWindow`).
- The offset of an SSLBuffer is 16 bits wide. The order of the bytes is kept, however the transport takes them,
  exactly while offset and size are at most 2^16 together (`SslBuffer.InOrderExactly`), which holds for requests
  below 65,530 bytes. With 65,529 bytes of flight in front of a record of six and a short write the wire is not a
  prefix of what was sealed (`TlsWriter.Misorders`).
- The count of early data is 16 bits wide and enforces the ticket's limit exactly when the limit is below 2^16
  (`TlsWriter.EarlyLimitHolds`); `TlsWriter.EarlyPastLimit` writes past one of 65,536.
- An array without a count that does not occur in the input keeps what its memory held but for its first four
  bytes, over which a count of zero is written, and the message may then not be encodable
  (`Leftovers.UncountedGarbage`). What pb_decode accepts can always be encoded if and only if every entry of every
  such array outside unions could be before (`Leftovers.EncodesExactly`), where nested messages can be short enough
  to be read at all (`Compact`; `Reach.OutOfReach`); all other memory may hold anything (`Soundness.DecodeTidy`).
- A last group of cipher suites that is never closed is passed over (`CipherChoice.Choose`); lists made by the
  library close every group.

## Conditions the code relies on

Descriptors satisfy `WellFormed`: distinct non-zero numbers below 2^29, one size offset for all members of a
union, counts within their arrays, strings terminated, no default pointer on proto3 singular fields and no
fixed-count array inside a proto3 singular submessage. Encodings stay below 2^63 bytes, the address space.
Ciphers are abstract functions with a bound on their overhead (`Bounded`); what one opens under a number was
sealed under it in the same epoch (`Session.Link.Intact`), and the peer's TLS record layer gives back the texts
it is sent (`Framing.OpensAll`). The build is the 64-bit one with 32-bit field sizes. Two messages are equal
(`Same`) when they agree on everything but the payload of absent optional and unselected oneof fields.

## Model

| member | source | states |
|---|---|---|
| EndToEnd.DeliveredIsPrefix | WOI/Pods/BoringSSL-GRPC/ssl/d1_both.cc:297-438 | over every run of adding, sending with any MTUs, losing, repeating and reordering records, changing ciphers on either side and delivering, of any number of messages: as long as the sender is never more than 2^16 messages ahead and no epoch takes more than 2^48 numbers, the delivered messages are, header included, a prefix of the added ones |
| EndToEnd.ReturnedIsAdded | WOI/Pods/BoringSSL-GRPC/ssl/d1_both.cc:408-424 | in every such run the message dtls1_get_message would return is byte for byte the next one that was added, so both sides hash the same bytes |
| Delivery.FullPassCompletes | WOI/Pods/BoringSSL-GRPC/ssl/d1_both.cc:183-251 | once every record that a pass made of an entry of the flight has been opened, in any order and mixed with any others, its message is delivered or complete and equal to what was added, in either epoch, unless its 16-bit number has wrapped before the receiver's |
| Delivery.FlightDelivered | WOI/Pods/BoringSSL-GRPC/ssl/dtls_method.cc:81-95 | a flight that ends with one message of the next epoch: when the records of the old epoch have been opened, everything before it is delivered and the read cipher changes; when its own records have been opened too, everything added is delivered |
| Bounds.Laps | WOI/Pods/BoringSSL-GRPC/ssl/d1_both.cc:433 | the first bound is needed: a sender 2^16 + 1 messages ahead, every flight sent and lost before it was dropped, of a receiver that got none of them has its last message delivered in place of the first, through the record layer and all |
| Bounds.ComesRound | WOI/Pods/BoringSSL-GRPC/ssl/tls_record.cc:154-163 | the second bound is needed: a sender never more than one message ahead, but with more than 2^48 numbers in one epoch, has its first message delivered a second time when the 16-bit message number has come round |
| EndToEnd.LockStep | WOI/Pods/BoringSSL-GRPC/ssl/d1_both.cc:560-566 | when a flight is dropped only after everything in it was delivered, as a handshake does that answers the peer's reply, the sender is never more than one flight ahead, and the prefix holds for any number of messages |
| EndToEnd.OldIsStale | WOI/Pods/BoringSSL-GRPC/ssl/dtls_record.cc:225-232 | a record of a delivered message whose 16-bit number has come into the window of the ring again is not let through: at least 64 newer numbers were recorded |
| EndToEnd.Chain | WOI/Pods/BoringSSL-GRPC/ssl/dtls_record.cc:140-150 | from any record of the current epoch a chain of opened records, one flight apart, leads upwards in number to any delivered message after it |
| EndToEnd.ArriveKeeps | WOI/Pods/BoringSSL-GRPC/ssl/d1_both.cc:297-403 | whatever record is opened, at any time, what is held agrees with the messages that were added, and of everything held or delivered some record was opened |
| EndToEnd.StepKeeps | WOI/Pods/BoringSSL-GRPC/ssl/d1_both.cc:265-402 | each step of either side or of the channel keeps that agreement, the changes of cipher included |
| EndToEnd.TakeRecordKeeps | WOI/Pods/BoringSSL-GRPC/ssl/d1_both.cc:339-403 | any fragments of undelivered messages in one record keep that agreement, through every outcome of the receive loop |
| EndToEnd.DeliverKeeps | WOI/Pods/BoringSSL-GRPC/ssl/d1_both.cc:426-438 | what is delivered equals the added message of that number, and delivering keeps the agreement |
| Outbox.SendsKeeps | WOI/Pods/BoringSSL-GRPC/ssl/d1_both.cc:644-815 | whatever a pass seals is cut from the message added with its number and sealed in the epoch of the message, and of two records of one epoch whose messages are a flight or more apart the later message has the larger number |
| Outbox.AddsKeeps | WOI/Pods/BoringSSL-GRPC/ssl/d1_both.cc:555-594 | a message joins the flight, which always is the end of the messages added |
| Outbox.TurnsKeeps | WOI/Pods/BoringSSL-GRPC/ssl/dtls_method.cc:97-107 | a change of the write cipher keeps this: the old counter goes on for retransmissions and the new one starts at zero |
| Delivery.NoAlert | WOI/Pods/BoringSSL-GRPC/ssl/d1_both.cc:349-402 | an opened record is never answered with an alert by a receiver with room for the undelivered messages, in the encrypted epoch if it is of the next message, and its bytes are held afterwards |
| Delivery.EachHeld | WOI/Pods/BoringSSL-GRPC/ssl/d1_both.cc:339-403 | the same for any list of opened records: no alert, nothing received is forgotten, everything received is held |
| EndToEnd.RecordIsList | WOI/Pods/BoringSSL-GRPC/ssl/d1_both.cc:339-403 | a record that concatenates fragments has the effect of taking them one by one |
| EndToEnd.AnyFragments | WOI/Pods/BoringSSL-GRPC/ssl/d1_both.cc:459-473 | any fragments, in any order and number, form a record from which the receive loop reads exactly these |
| Outbox.MessageIsNumbered | WOI/Pods/BoringSSL-GRPC/ssl/d1_both.cc:511-537 | a message built by the sender is one whole fragment that carries the low 16 bits of its number and its length twice |
| Session.Link.Add | WOI/Pods/BoringSSL-GRPC/ssl/d1_both.cc:555-598 | adding a message to the sender object is a step of the system, after dropping a finished flight, and appends the message with the next number |
| Session.Link.AddChangeCipherSpec | WOI/Pods/BoringSSL-GRPC/ssl/d1_both.cc:600-602 | adding a ChangeCipherSpec is a step of the system and adds no message |
| Session.Link.Send | WOI/Pods/BoringSSL-GRPC/ssl/d1_both.cc:782-845 | a flush or retransmission, completed or cut short, is a step of the system: every record sealed is of the flight and took the next number of its epoch |
| Session.Link.SetWriteState | WOI/Pods/BoringSSL-GRPC/ssl/dtls_method.cc:97-107 | a change of the write cipher is a step of the system and changes no message |
| Session.Link.OnHandshakeComplete | WOI/Pods/BoringSSL-GRPC/ssl/dtls_method.cc:71-79 | at the end of the handshake a flight that has a reply is dropped, as a step of the system |
| Session.Link.Receive | WOI/Pods/BoringSSL-GRPC/ssl/d1_both.cc:297-406 | a packet given to the reader is a step of the system or none, provided the cipher opens only what was sealed under it: what the ring takes is the text of a sent record that the window let through |
| Session.Link.ReceiveCcs | WOI/Pods/BoringSSL-GRPC/ssl/d1_both.cc:475-490 | looking for a ChangeCipherSpec succeeds exactly when one waits, which it uses up, or the packet starts with one in the clear that is of this epoch, new and authentic; it is such a step or none |
| Session.Link.SentCcsArrives | WOI/Pods/BoringSSL-GRPC/ssl/d1_both.cc:319-338 | a ChangeCipherSpec that the sender sealed in the clear and that comes first in what is read, of the epoch being read, new and not stale, is one that the wait ends with, whatever follows it in the packet |
| Session.Link.SetReadState | WOI/Pods/BoringSSL-GRPC/ssl/dtls_method.cc:81-95 | a change of the read cipher is a step of the system, and is refused while anything but the current message is buffered |
| Session.Link.Deliver | WOI/Pods/BoringSSL-GRPC/ssl/d1_both.cc:408-438 | the objects return the next message byte for byte, whatever was sent, lost, repeated or re-keyed before, and what they have returned is a prefix of what was added |
| Flight.EachByteOnce | WOI/Pods/BoringSSL-GRPC/ssl/d1_both.cc:695-733 | within a pass every byte behind the cursor is in exactly one fragment |
| Flight.EachMessageStarts | WOI/Pods/BoringSSL-GRPC/ssl/d1_both.cc:695-733 | every message behind the cursor was started, and a ChangeCipherSpec or a message without a body took exactly one record |
| Flight.RecordsDisjoint | WOI/Pods/BoringSSL-GRPC/ssl/d1_both.cc:726-733 | of two fragments of one message in a pass the later starts where or after the earlier ends |
| Flight.CursorsIncrease | WOI/Pods/BoringSSL-GRPC/ssl/d1_both.cc:745-770 | the cursor only moves forward in a pass, by message and then by offset |
| Sender.FlightSender.SendFlight | WOI/Pods/BoringSSL-GRPC/ssl/d1_both.cc:782-827 | the packets written are, one after another, exactly those that filling to the MTU gives; it breaks off exactly when the packet that comes next has a record that cannot be sealed, and then the records before it in that packet, and no others, are passed without being written |
| Sender.FlightSender.SendPackets | WOI/Pods/BoringSSL-GRPC/ssl/d1_both.cc:795-815 | the records the cursor has passed are those written and, after a failure to seal, those skipped in the packet that failed; the loop ends |
| Sender.FlightSender.SendPacket | WOI/Pods/BoringSSL-GRPC/ssl/d1_both.cc:795-815 | a refused write or too small an MTU leaves the cursor where it was; a successful one moves it forward by the packet's records |
| Sender.FlightSender.SealNextPacket | WOI/Pods/BoringSSL-GRPC/ssl/d1_both.cc:739-780 | a packet is at most the room given and is the sealed forms of consecutive records; it fails exactly when a record that comes next cannot be sealed, and MTU_TOO_SMALL is reported exactly when the first is not even tried for lack of room |
| Sender.FlightSender.SealNextMessage | WOI/Pods/BoringSSL-GRPC/ssl/d1_both.cc:644-734 | the record sealed is one that may come next at the cursor, a partial one fills the room to the last byte, and the error is exactly an epoch, message, cipher, size or number that does not allow it |
| Sender.FlightSender.SealNextFragment | WOI/Pods/BoringSSL-GRPC/ssl/d1_both.cc:682-733 | the fragment is the cut of the message at the offset that fills the room or ends the message; no progress exactly when there is no room for the header and one byte |
| Sender.FlightSender.RecordInPacket | WOI/Pods/BoringSSL-GRPC/ssl/d1_both.cc:739-780 | every record of a packet stands in it whole, behind those before it, and is the sealed form of an entry of the flight in an epoch whose keys are known |
| Sender.FlightSender.NeededOneTooMany | WOI/Pods/BoringSSL-GRPC/ssl/d1_both.cc:693-696 | a record that would fit is turned away for lack of room exactly for a message without a body, and exactly at one byte less than asked for |
| Sender.SkipsARecord | WOI/Pods/BoringSSL-GRPC/ssl/d1_both.cc:751-768 | a run: two messages and a cipher that refuses the second; nothing is written, and the cursor stays behind the first |
| Sender.FlightSender.SetWriteState | WOI/Pods/BoringSSL-GRPC/ssl/dtls_method.cc:97-107 | the flight and what was sealed stay; the old counter is kept and the new one starts at zero |
| Sender.FlightSender.BuildMessage | WOI/Pods/BoringSSL-GRPC/ssl/d1_both.cc:511-537 | init and finish give one whole fragment with both lengths set, exactly for bodies below 2^24 bytes |
| Sender.FlightSender.AddOutgoing | WOI/Pods/BoringSSL-GRPC/ssl/d1_both.cc:555-594 | a finished flight is dropped first; a full one refuses; the message goes last with the current epoch |
| Sender.FlightSender.AddMessage | WOI/Pods/BoringSSL-GRPC/ssl/d1_both.cc:511-598 | the message added is the serialization under the next 16-bit number |
| Sender.FlightSender.AddChangeCipherSpec | WOI/Pods/BoringSSL-GRPC/ssl/d1_both.cc:600-602 | a ChangeCipherSpec joins the flight without taking a message number |
| Sender.FlightSender.FlushFlight | WOI/Pods/BoringSSL-GRPC/ssl/d1_both.cc:829-834 | a completed flush has passed the whole flight, and what it wrote and skipped is said exactly |
| Sender.FlightSender.Retransmit | WOI/Pods/BoringSSL-GRPC/ssl/d1_both.cc:836-845 | a retransmission starts over: what goes on the wire is itself a complete pass, whatever was sent before |
| Sender.FlightSender.OnHandshakeComplete | WOI/Pods/BoringSSL-GRPC/ssl/dtls_method.cc:71-79 | the last flight is kept exactly when no reply has come |
| Sender.FlightSender.NoteReply | WOI/Pods/BoringSSL-GRPC/ssl/d1_both.cc:435-437 | a delivered message counts as a reply to a flight that has been flushed |
| Sender.FlightSender.UpdateMtu | WOI/Pods/BoringSSL-GRPC/ssl/d1_both.cc:615-632 | the MTU afterwards is at least 228 unless querying is off |
| Receiver.HandshakeReceiver.TakeAll | WOI/Pods/BoringSSL-GRPC/ssl/d1_both.cc:339-405 | the ring, read as a table by message number, goes through exactly the unbounded table's transitions, alert included |
| Receiver.HandshakeReceiver.TakeOne | WOI/Pods/BoringSSL-GRPC/ssl/d1_both.cc:349-402 | the same for one fragment: checks, epoch 1, window, slot, copy and mark |
| Receiver.HandshakeReceiver.GetIncoming | WOI/Pods/BoringSSL-GRPC/ssl/d1_both.cc:265-295 | the slot found is the message of that number (the source's assertion cannot fail), or a new one, or an alert for a mismatch |
| Receiver.HandshakeReceiver.OpenHandshake | WOI/Pods/BoringSSL-GRPC/ssl/d1_both.cc:297-406 | by record type: handshake fragments go to the ring, a plaintext ChangeCipherSpec of one byte sets the flag, encrypted application data is dropped, anything else is refused |
| Receiver.HandshakeReceiver.GetMessage | WOI/Pods/BoringSSL-GRPC/ssl/d1_both.cc:408-424 | a message is returned exactly when all of the next one has come, and it is the reassembled bytes with their header |
| Receiver.HandshakeReceiver.NextMessage | WOI/Pods/BoringSSL-GRPC/ssl/d1_both.cc:426-438 | the current message leaves the table and nothing else changes, also when the 16-bit number wraps |
| Receiver.HandshakeReceiver.HasUnprocessed | WOI/Pods/BoringSSL-GRPC/ssl/d1_both.cc:440-457 | nothing is unprocessed exactly when the table holds at most the current message and no ChangeCipherSpec waits |
| Receiver.HandshakeReceiver.Contents | WOI/Pods/BoringSSL-GRPC/ssl/d1_both.cc:255-295 | every occupied slot holds a message of the window of its own number; the next message is ready exactly when its slot is complete |
| Receiver.TableUpdate | WOI/Pods/BoringSSL-GRPC/ssl/d1_both.cc:274 | writing the slot of a number changes that number and no other of the window |
| Receiver.TableAdvance | WOI/Pods/BoringSSL-GRPC/ssl/d1_both.cc:430-433 | moving on by one keeps every other message at its number, also across 65535 |
| Receiver.OneSlot | WOI/Pods/BoringSSL-GRPC/ssl/d1_both.cc:274 | two numbers of one window share a slot only if they are equal |
| Inbox.RecordKeepsWindow | WOI/Pods/BoringSSL-GRPC/ssl/d1_both.cc:380-385 | after any record every message held has a number in the window and the header of its own length and number |
| Inbox.CompleteIsFinal | WOI/Pods/BoringSSL-GRPC/ssl/d1_both.cc:393-396 | a complete message keeps its bytes until it is delivered, whatever arrives |
| Inbox.AdvanceKeepsWindow | WOI/Pods/BoringSSL-GRPC/ssl/d1_both.cc:426-438 | moving on keeps the window, also when the number wraps to zero |
| Inbox.BehindTheWindow | WOI/Pods/BoringSSL-GRPC/ssl/d1_both.cc:267-271 | a fragment in bounds behind the window is ignored exactly when its number is not the very first one there; that one breaks off with an internal error |
| Inbox.BytesOfFragment | WOI/Pods/BoringSSL-GRPC/ssl/d1_both.cc:349-402 | what any fragment does, byte by byte: if it lies within its message and the message within the limits, in the window (of the encrypted epoch: is the one due), and agrees with what is held of it, exactly the bytes in its range have come besides those that had, new ones in their places; otherwise nothing changes at all |
| Inbox.AlertOfFragment | WOI/Pods/BoringSSL-GRPC/ssl/d1_both.cc:349-391 | which alert any fragment draws: none exactly when it is welcome or its number is behind or more than one past the window of the first epoch, an unexpected message exactly in the encrypted epoch, an internal error exactly one past the window |
| ReadSide.Reader.OpenHandshake | WOI/Pods/BoringSSL-GRPC/ssl/d1_both.cc:297-406 | for every packet the answer, what the ring holds, the flag of a ChangeCipherSpec and the numbers recorded are exactly those of its record: the ring takes a handshake record that is of this epoch, new and authentic, the flag is set by a ChangeCipherSpec of the one byte 1 in the clear, and nothing else changes either |
| ReadSide.Reader.OpenChangeCipherSpec | WOI/Pods/BoringSSL-GRPC/ssl/d1_both.cc:475-490 | it succeeds exactly when a ChangeCipherSpec waits, which is used up without reading, or the packet starts with one; any other answer is that of the packet, with a handshake record dropped |
| ReadSide.Reader.ReplyToOpened | WOI/Pods/BoringSSL-GRPC/ssl/d1_both.cc:308-343 | once a record was opened: a handshake record succeeds or fails with exactly the alert of its fragments, a ChangeCipherSpec succeeds exactly in the clear with its one byte, encrypted application data is dropped, alerts are passed on, and anything else is refused |
| ReadSide.ReadFirstCcs | WOI/Pods/BoringSSL-GRPC/ssl/d1_both.cc:319-338 | the 14 bytes of a first ChangeCipherSpec, written out, make a new connection succeed and note it |
| ReadSide.Reader.SetReadState | WOI/Pods/BoringSSL-GRPC/ssl/dtls_method.cc:81-95 | the read epoch changes exactly when no undelivered message is buffered, and starts with an empty window |
| Reassembly.HmFragment.Mark | WOI/Pods/BoringSSL-GRPC/ssl/d1_both.cc:211-251 | the bytes received become exactly the old ones and the range; the mask goes away exactly when that is all of them; a range out of bounds changes nothing |
| Reassembly.HmFragment.SetBits | WOI/Pods/BoringSSL-GRPC/ssl/d1_both.cc:226-236 | afterwards bit i is set exactly when it was or lies in the range |
| Reassembly.HmFragment.AllSet | WOI/Pods/BoringSSL-GRPC/ssl/d1_both.cc:239-247 | true exactly when every bit of the message is set |
| Reassembly.HmFragment.Add | WOI/Pods/BoringSSL-GRPC/ssl/d1_both.cc:398-401 | copy and mark equal merging the fragment into the message's value |
| Reassembly.HmFragment.Value | WOI/Pods/BoringSSL-GRPC/ssl/d1_both.cc:183-195 | no byte beyond the message counts as received, and there is no mask exactly when the message is complete |
| Reassembly.HmFragment.constructor | WOI/Pods/BoringSSL-GRPC/ssl/d1_both.cc:152-199 | a new message has its own header and nothing received; an empty one is complete at once |
| Reassembly.BitRangeBits | WOI/Pods/BoringSSL-GRPC/ssl/d1_both.cc:203-205 | bit_range in 32-bit arithmetic has exactly the bits from start up to end |
| Reassembly.LowBits | WOI/Pods/BoringSSL-GRPC/ssl/d1_both.cc:244-247 | the last mask byte equals bit_range exactly when all its bits are set |
| Wire.ParseOfSerialize | WOI/Pods/BoringSSL-GRPC/ssl/d1_both.cc:459-473 | reading back a written fragment gives it and what follows it |
| Wire.SerializeOfParse | WOI/Pods/BoringSSL-GRPC/ssl/d1_both.cc:459-473 | whatever is read was written that way: the bytes are the fragment's serialization and the rest |
| Wire.HeaderLayout | WOI/Pods/BoringSSL-GRPC/ssl/d1_both.cc:164-169 | the twelve bytes of a fragment's header, one by one: type, length, message number, offset and fragment length |
| Wire.ToU64Be | WOI/Pods/BoringSSL-GRPC/ssl/dtls_record.cc:128-136 | the loop of shifts and ors gives the big-endian value |
| Wire.BigEndianRoundTrip | WOI/Pods/BoringSSL-GRPC/ssl/d1_both.cc:164-169 | a number below 256^n survives being written in n bytes |
| Wire.BigEndianOfBytes | WOI/Pods/BoringSSL-GRPC/ssl/dtls_record.cc:128-136 | n bytes are the n-byte form of their value, which is below 256^n |
| ReplayWindow.Bitmap.ShouldDiscard | WOI/Pods/BoringSSL-GRPC/ssl/dtls_record.cc:140-150 | a number is dropped exactly when it was recorded or lies 64 or more below the maximum; nothing unseen and newer is |
| ReplayWindow.Bitmap.Record | WOI/Pods/BoringSSL-GRPC/ssl/dtls_record.cc:155-175 | the recorded set grows by the number, and bit i keeps meaning the maximum less i, however far the window slides |
| ReplayWindow.Slide | WOI/Pods/BoringSSL-GRPC/ssl/dtls_record.cc:161-170 | sliding moves every remembered number to its distance from the new maximum |
| DtlsRecord.RecordReader.Open | WOI/Pods/BoringSSL-GRPC/ssl/dtls_record.cc:177-272 | text is given exactly for a record that is of this epoch, unseen, not stale and authentic; only then is its number recorded; what is consumed is exact |
| DtlsRecord.RecordReader.NextEpoch | WOI/Pods/BoringSSL-GRPC/ssl/dtls_method.cc:90-95 | a new epoch starts with nothing recorded and the history kept |
| DtlsRecord.NoNumberTwice | WOI/Pods/BoringSSL-GRPC/ssl/dtls_record.cc:225-259 | over a run with fewer than 2^16 epoch changes no epoch and number pair is accepted twice |
| DtlsRecord.EpochComesRound | WOI/Pods/BoringSSL-GRPC/ssl/dtls_method.cc:89-93 | a run of 2^16 changes of the read cipher: a number of the first epoch is accepted a second time |
| DtlsRecord.SealedIsAuthentic | WOI/Pods/BoringSSL-GRPC/ssl/dtls_record.cc:294-351 | a sealed record of this epoch that arrives intact, new and not stale is opened to its text, whatever follows it in the packet |
| DtlsRecord.ParseOfRecord | WOI/Pods/BoringSSL-GRPC/ssl/dtls_record.cc:190-205 | reading a record header gives what was written, up to the largest ciphertext |
| DtlsRecord.RecordOfParse | WOI/Pods/BoringSSL-GRPC/ssl/dtls_record.cc:190-205 | every record read is the serialization of its parts |
| DtlsRecord.RecordLayout | WOI/Pods/BoringSSL-GRPC/ssl/dtls_record.cc:313-345 | the thirteen bytes of a record's header, one by one: type, version, epoch, sequence number and length |
| DtlsRecord.RecordNumberValue | WOI/Pods/BoringSSL-GRPC/ssl/dtls_record.cc:326-328 | epoch and sequence number occupy the top 16 and the low 48 bits of one number |
| DtlsRecord.RecordWriter.Seal | WOI/Pods/BoringSSL-GRPC/ssl/dtls_record.cc:294-351 | a record is given exactly when the cipher's result fits, has a 16-bit length and does not have the last number; it is at most the overhead longer than its text; its number is new in its epoch exactly when fewer than 2^48 were taken there before |
| DtlsRecord.NumberReused | WOI/Pods/BoringSSL-GRPC/ssl/tls_record.cc:154-163 | a run of 2^48 numbers in one epoch: the counter comes round to zero and number 0 is sealed a second time |
| DtlsRecord.RecordWriter.NextEpoch | WOI/Pods/BoringSSL-GRPC/ssl/dtls_method.cc:97-107 | the finished epoch's cipher and counter are kept for retransmission and the new counter starts at zero |
| DtlsRecord.SequenceUpdate | WOI/Pods/BoringSSL-GRPC/ssl/tls_record.cc:154-163 | the bytes become the next number, and failure means exactly that 48 bits ran out |
| Spelling.MessageSpelled | WOI/Pods/nanopb/pb_encode.c:494-516 | a parser that knows no descriptor, only keys and the wire types 0, 1, 2 and 5, reads an encoding to its end, as exactly the records of the fields that are written, in their order, with their numbers, the wire types of their types and payloads that spell their values |
| Spelling.FieldSpelled | WOI/Pods/nanopb/pb_encode.c:307-392 | a field that is written gives one record, but for an unpacked array one for each entry, and every other field none |
| Spelling.PresentIsWritten | WOI/Pods/nanopb/pb_encode.c:215-392 | which fields are written: required ones, optional ones that are set, the selected member of a union, arrays that are not empty, and proto3 fields whose value has a bit set |
| Spelling.ValueSpelled | WOI/Pods/nanopb/pb_encode.c:734-868 | every value stands in its payload as its type demands: a varint of the two's complement or the zig-zag form, little-endian words, or the length and the bytes, those of a nested message spelling it |
| Spelling.PackedSpelled | WOI/Pods/nanopb/pb_encode.c:140-211 | the contents of a packed array are the payloads of its entries one after another |
| Spelling.Shortest | WOI/Pods/nanopb/pb_encode.c:574-594 | of all ways to write a number as a varint the encoder takes a shortest one |
| Merge.MessageReads | WOI/Pods/nanopb/pb_decode.c:901-1049 | for any records at all, also out of order, repeated or cut differently: what pb_decode_noinit makes of them is what merging them one by one gives, where fixed and length-delimited fields come with the wire type of their type |
| Merge.RecordReads | WOI/Pods/nanopb/pb_decode.c:919-997 | one turn of the loop merges one record |
| Merge.FieldReads | WOI/Pods/nanopb/pb_decode.c:401-475 | a record of a known field stores, counts, appends or selects as its kind says, a packed array entry by entry, or makes decoding fail |
| Merge.EntryReads | WOI/Pods/nanopb/pb_decode.c:1289-1508 | a payload that suits a field's type becomes the value it spells, or is refused exactly when that does not fit |
| Merge.IntegerReads | WOI/Pods/nanopb/pb_decode.c:1289-1389 | an integer field reads exactly the payload of its wire type, in two's complement, zig-zag or little-endian form, and refuses what its width does not hold |
| Overlong.Decode64Exactly | WOI/Pods/nanopb/pb_decode.c:250-270 | for any bytes, also needlessly long ones: a 64-bit varint is read exactly when one of at most ten bytes is there, modulo 2^64 |
| Overlong.Decode32Any | WOI/Pods/nanopb/pb_decode.c:182-242 | a varint below 2^32 is read by the 32-bit reader however long it is written |
| Unknown.SkipLaw | WOI/Pods/nanopb/pb_decode.c:316-326 | a key with a number that the descriptor does not have and a complete payload behind it, of a varint, of 8 or 4 bytes or of a length and as many bytes, change nothing: decoding goes on right behind them |
| Unknown.SkipExactly | WOI/Pods/nanopb/pb_decode.c:316-326 | how far any payload is skipped, and when it cannot be: to the end of the varint, by 8 or 4 bytes, by the length and as many bytes, and never for another wire type |
| Unknown.DecodeAmongUnknown | WOI/Pods/nanopb/pb_decode.c:939-963 | unknown records strewn anywhere between the fields of an encoding do not change what pb_decode gives: an equal message exactly when the message is decodable |
| Unknown.UnknownIgnored | WOI/Pods/nanopb/pb_decode.c:939-963 | two inputs that differ only in records of unknown fields decode to the same |
| Unknown.WrongType | WOI/Pods/nanopb/pb_decode.c:401-475 | a run: a known int32 field that comes with the wire type of a string is not skipped but read on as an integer, from its length on |
| Missing.RequiredArrive | WOI/Pods/nanopb/pb_decode.c:999-1044 | no required field counts as missing if and only if each of the first 64 has a record in the input |
| Missing.AbsentIsDefault | WOI/Pods/nanopb/pb_decode.c:812-899 | a field without a record in the input holds its default afterwards, and a union member without one is not selected |
| Missing.RecordKeeps | WOI/Pods/nanopb/pb_decode.c:401-475 | a record changes no field but its own, and of a union only which member is selected |
| RoundTrip.DecodeOfEncode | WOI/Pods/nanopb/pb_decode.c:1051-1063 | for every well-formed descriptor tree and message that pb_encode accepts: pb_decode of the bytes gives an equal message exactly when the message is decodable, and otherwise fails; a zero byte followed by anything changes nothing |
| RoundTrip.MessageRoundTrip | WOI/Pods/nanopb/pb_decode.c:901-1049 | the same without initialisation, into any fresh destination, by induction over nesting |
| RoundTrip.DelimitedRoundTrip | WOI/Pods/nanopb/pb_decode.c:1080-1093 | the delimited form also leaves the stream exactly at the bytes that follow |
| RoundTrip.FieldRoundTrip | WOI/Pods/nanopb/pb_decode.c:401-475 | for each kind of field, what the encoder writes the decode loop reads into an equal field and leaves all earlier fields alone |
| RoundTrip.TailRoundTrip | WOI/Pods/nanopb/pb_decode.c:912-997 | the fields from any point on are read back in one run of the loop |
| RoundTrip.PackedRoundTrip | WOI/Pods/nanopb/pb_decode.c:417-441 | a packed array is read back entry by entry from its substream |
| RoundTrip.UnpackedRoundTrip | WOI/Pods/nanopb/pb_decode.c:442-456 | an unpacked array is read back record by record, counts included |
| RoundTrip.ValueRoundTrip | WOI/Pods/nanopb/pb_decode.c:1289-1508 | every value of every type is read back from its bytes exactly when it is decodable, and otherwise refused |
| RoundTrip.StringRoundTrip | WOI/Pods/nanopb/pb_decode.c:1428-1461 | a string is read back exactly when its terminator is inside the slot |
| RoundTrip.SubstreamOfDelimited | WOI/Pods/nanopb/pb_decode.c:367-380 | the length prefix is read back exactly below 2^32, so a substream has exactly the delimited bytes |
| RoundTrip.SeenAll | WOI/Pods/nanopb/pb_decode.c:1006-1044 | after all fields have been read no required field counts as missing |
| ScalarRoundTrip.IntegerRoundTrip | WOI/Pods/nanopb/pb_decode.c:1289-1389 | signed, unsigned, zig-zag and fixed fields of 1, 2, 4 and 8 bytes survive encoding |
| ScalarRoundTrip.ZigZagRoundTrip | WOI/Pods/nanopb/pb_encode.c:596-605 | zig-zag of a signed 64-bit value fits in 64 bits and is undone |
| ScalarRoundTrip.LittleEndianRoundTrip | WOI/Pods/nanopb/pb_encode.c:607-632 | fixed-width integers survive their byte order |
| Varint.RoundTrip64 | WOI/Pods/nanopb/pb_decode.c:250-270 | every 64-bit value takes at most ten bytes and is read back |
| Varint.Decode32OfEncode | WOI/Pods/nanopb/pb_decode.c:182-242 | what the 32-bit reader, with its 8-bit position, makes of any 64-bit value: itself below 2^32, its low half for sign-extended negatives, an error otherwise |
| Varint.RoundTrip32 | WOI/Pods/nanopb/pb_decode.c:182-242 | the 32-bit reader is the identity below 2^32 and refuses everything from there to 2^63 |
| Varint.Negative32 | WOI/Pods/nanopb/pb_decode.c:182-242 | a negative int32 written in ten bytes is read as its 32-bit pattern |
| Limits.Transcode | WOI/Pods/nanopb/pb_decode.c:1051-1063 | encoding to a buffer and decoding it gives an equal message exactly when the message is decodable |
| Limits.UnterminatedString | WOI/Pods/nanopb/pb_encode.c:847 | a full slot without a terminator is encoded but not decoded |
| Limits.WideArray | WOI/Pods/nanopb/pb_decode.c:367-380 | a packed array of 2^32 bytes is encoded but not decoded |
| Soundness.DecodeSound | WOI/Pods/nanopb/pb_decode.c:901-1049 | whatever the input bytes, pb_decode_noinit leaves memory sound in all its parts if it was; and memory ready for decoding holds sound data and is ready again afterwards: strings terminated, counts within their arrays, integers within their width |
| Soundness.DecodeTidy | WOI/Pods/nanopb/pb_decode.c:1051-1063 | whatever the input bytes, what pb_decode accepts into clean memory has sound data; clean asks only that the entries of arrays without a count are sound, nested ones too, and nothing of union members |
| Soundness.CountedIsClean | WOI/Pods/nanopb/pb_decode.c:817-862 | a descriptor without such arrays finds any memory of the right shape clean |
| Soundness.DecodeShaped | WOI/Pods/nanopb/pb_decode.c:1051-1063 | whatever the memory held, clean or not, every integer, array and string keeps its width and place |
| Leftovers.EncodesExactly | WOI/Pods/nanopb/pb_decode.c:1051-1063 | everything pb_decode accepts can be encoded again if and only if the memory was clean: every entry of every array without a count, behind the four bytes that are cleared and in nested structs but not in union members, could be encoded before |
| Leftovers.TidyExactly | WOI/Pods/nanopb/pb_decode.c:1051-1063 | everything it accepts has sound data, terminated strings included, if and only if every such entry was sound; the input that shows it leaves those arrays alone or fills them with shortest messages |
| Reach.OutOfReach | WOI/Pods/nanopb/pb_decode.c:367-380 | why nested messages have to fit below 2^32 bytes for this: a struct of fewer bytes whose messages are all longer is never read, and no garbage beside it matters |
| Clearing.ClearTwice | WOI/Pods/nanopb/pb_decode.c:837-845 | clearing the first bytes of an entry twice is clearing the larger number of them once, whatever structs are nested in it, so that setting it to defaults again changes nothing more |
| Leftovers.UncountedGarbage | WOI/Pods/nanopb/pb_decode.c:837-845 | such an array that does not occur in the input is accepted as it is but for its first four bytes, and a bytes array in it that claims more than its capacity cannot be encoded |
| Soundness.SoundEncodes | WOI/Pods/nanopb/pb_encode.c:494-516 | a message whose data is sound always encodes, and what takes less than 2^32 bytes can be read back |
| Soundness.EncodesSound | WOI/Pods/nanopb/pb_encode.c:494-516 | conversely, the data of a message that encodes is within its arrays |
| Soundness.Renormalizes | WOI/Pods/nanopb/pb_decode.c:1051-1063 | any bytes that decode into clean memory can be encoded again, and, below 2^32 bytes, decoding that into whatever memory gives an equal message |
| Encoder.PbEncode | WOI/Pods/nanopb/pb_encode.c:494-516 | the writer succeeds exactly when the message encodes and fits, and has then written exactly its encoding, in either pass; what that encoding is on the wire, Spelling.MessageSpelled says without it |
| Encoder.PbEncodeSubmessage | WOI/Pods/nanopb/pb_encode.c:682-730 | the prefix is the exact size of the message and the message follows it, or nothing can be written for lack of an encoding or of room |
| Encoder.EncLimited | WOI/Pods/nanopb/pb_encode.c:709-729 | the second pass, through a substream of that size, writes the message whole: the size-changed branch cannot be reached |
| Encoder.EncArray | WOI/Pods/nanopb/pb_encode.c:126-211 | packed and unpacked arrays are written exactly as their encoding, or fail exactly when it does not exist or fit |
| Encoder.PackedSize | WOI/Pods/nanopb/pb_encode.c:140-165 | the size computed for a packed array is the length of its body |
| Encoder.EncField | WOI/Pods/nanopb/pb_encode.c:307-392 | absent optional, unselected oneof and default proto3 fields write nothing; every other field its encoding |
| Encoder.EncValue | WOI/Pods/nanopb/pb_encode.c:734-868 | each value writes its type's encoding, or fails exactly when there is none or no room |
| Encoder.PbGetEncodedSize | WOI/Pods/nanopb/pb_encode.c:533-542 | the size is the exact length of the encoding |
| Encoder.EncodeToExactBuffer | WOI/Pods/nanopb/pb_encode.c:533-542 | a buffer of exactly that size always suffices |
| Encoder.PbEncodeDelimited | WOI/Pods/nanopb/pb_encode.c:518-521 | a delimited message is its length and its encoding |
| Encoder.PbEncodeNullTerminated | WOI/Pods/nanopb/pb_encode.c:523-531 | a terminated message is its encoding and a zero byte |
| OutputStream.OStream.Write | WOI/Pods/nanopb/pb_encode.c:101-119 | a write that fits appends its bytes or counts them; one that does not changes nothing |
| OutputStream.WriteVarint | WOI/Pods/nanopb/pb_encode.c:574-594 | the buffer loop writes exactly the varint's digits |
| OutputStream.WriteSvarint | WOI/Pods/nanopb/pb_encode.c:596-605 | the zig-zag form is written as a varint |
| OutputStream.WriteFixed32 | WOI/Pods/nanopb/pb_encode.c:607-616 | four bytes, least significant first |
| OutputStream.WriteFixed64 | WOI/Pods/nanopb/pb_encode.c:619-632 | eight bytes, least significant first |
| Decoder.PbDecode | WOI/Pods/nanopb/pb_decode.c:1051-1063 | the reader on a stream succeeds exactly when the bytes decode, with that message, and stops exactly where decoding stops |
| Decoder.PbDecodeNoInit | WOI/Pods/nanopb/pb_decode.c:901-1049 | the same without initialisation; the loop ends because every turn consumes a byte |
| Decoder.PbDecodeDelimited | WOI/Pods/nanopb/pb_decode.c:1080-1093 | the stream is left exactly past the delimited message |
| Decoder.DecSubmessage | WOI/Pods/nanopb/pb_decode.c:1463-1485 | a nested message gets exactly its own bytes and the parent stream continues right after them |
| Decoder.DecPackedArray | WOI/Pods/nanopb/pb_decode.c:417-441 | a packed array gets exactly its own bytes and fills entries until they or the array run out |
| Decoder.DecStaticField | WOI/Pods/nanopb/pb_decode.c:401-475 | each field kind stores, counts and selects as its description says, or fails |
| Decoder.DecTurn | WOI/Pods/nanopb/pb_decode.c:919-997 | a turn of the loop consumes at least one byte and keeps the state that the input so far determines |
| Decoder.AllPresent | WOI/Pods/nanopb/pb_decode.c:999-1044 | after the loop the message is accepted exactly when no fixed-count array is short and no required field is missing |
| InputStream.IStream.Read | WOI/Pods/nanopb/pb_decode.c:100-132 | a read gives exactly the next bytes when there are enough, and otherwise fails and moves nothing |
| InputStream.ReadVarint | WOI/Pods/nanopb/pb_decode.c:250-270 | the loop reads exactly the varint at the front and leaves the stream right after it, or fails exactly when there is none |
| InputStream.ReadVarint32 | WOI/Pods/nanopb/pb_decode.c:182-242 | the loop reads exactly the 32-bit varint at the front, with its overflow rule and its end of input |
| InputStream.ReadTag | WOI/Pods/nanopb/pb_decode.c:293-314 | a key is split into type and number; a zero key or the end of the input ends the message |
| InputStream.ReadSkipField | WOI/Pods/nanopb/pb_decode.c:316-326 | an unknown field is skipped as the specification says, whose reach Unknown.SkipExactly gives in bytes |
| InputStream.OpenSubstream | WOI/Pods/nanopb/pb_decode.c:367-380 | the substream is exactly the bytes its prefix announces |
| InputStream.CloseSubstream | WOI/Pods/nanopb/pb_decode.c:382-395 | however much of it was read, the parent ends up right after the substream |
| FieldIter.Iterator.Next | WOI/Pods/nanopb/pb_common.c:20-76 | after any moves the data and size positions are those of the field and the required count that of the fields before it, through arrays, pointers and unions, in which neither position is touched |
| FieldIter.Iterator.Find | WOI/Pods/nanopb/pb_common.c:78-95 | a number is found exactly when a field that is no extension has it, and otherwise the iterator is back where it began |
| FieldIter.DataPosIsOffset | WOI/Pods/nanopb/pb.h:393-430 | the positions summed up from the generated gaps are the absolute offsets of the struct |
| FieldIter.FieldsSeen.Mark | WOI/Pods/nanopb/pb_decode.c:988-993 | a required field among the first 64 is noted in its word and bit, and nothing else changes |
| FieldIter.FieldsSeen.Complete | WOI/Pods/nanopb/pb_decode.c:1017-1044 | the word comparison passes exactly when all of the first n required fields were noted |
| TlsWriter.Writer.WriteAppData | WOI/Pods/BoringSSL-GRPC/ssl/s3_pkt.cc:129-200 | whatever the retries and short writes: the data sealed is the caller's bytes in order and once, in records of 1 to max_send_fragment bytes; a positive result says exactly how many of them are sealed and flushed; once anything was closed or failed it refuses and nothing is sealed or sent; while open, with nothing pending, a record that fits is sealed, and over a transport that takes all it is given everything is written, in order |
| TlsWriter.Writer.WriteAll | WOI/Pods/BoringSSL-GRPC/ssl/s3_pkt.cc:157-199 | the loop ends, and the application data sealed is always a prefix of the caller's |
| TlsWriter.Writer.WriteRounds | WOI/Pods/BoringSSL-GRPC/ssl/s3_pkt.cc:157-199 | while there is room for a record and the transport takes all it is given, the rounds end with everything written |
| TlsWriter.Writer.WriteRound | WOI/Pods/BoringSSL-GRPC/ssl/s3_pkt.cc:157-199 | one record per round, within the fragment and early-data limits |
| TlsWriter.Writer.DoWrite | WOI/Pods/BoringSSL-GRPC/ssl/s3_pkt.cc:221-289 | at most one record is sealed per call, none while one is pending, and it is remembered until it has been flushed; a request below 65,530 bytes, the flight included, keeps the order whatever the transport takes |
| TlsWriter.Writer.WritePending | WOI/Pods/BoringSSL-GRPC/ssl/s3_pkt.cc:202-218 | a pending write is finished only by a matching retry of at least its length |
| TlsWriter.Writer.FlushFlight | WOI/Pods/BoringSSL-GRPC/ssl/s3_both.cc:231-279 | success means the flight is gone and, unless a carry broke the order, everything sealed is on the wire in order; from a buffer whose offset and size are at most 2^16 together it is never broken; failure keeps the place |
| TlsWriter.Writer.FlushBuffer | WOI/Pods/BoringSSL-GRPC/ssl/ssl_buffer.cc:239-252 | success means the buffer is empty; what goes on the wire is exactly what the parts taken drain from the memory, and the order breaks exactly when a part taken carries the offset past 2^16 with bytes left |
| TlsWriter.Misorders | WOI/Pods/BoringSSL-GRPC/ssl/s3_pkt.cc:237-271 | a run with a cipher that adds the five bytes of a header: a flight of 65,529 bytes in front of a record of six, at an address that malloc may give; the transport takes all but the last byte and then one, which comes from the slack in front of the buffer, and the wire is not a prefix of what was sealed |
| TlsWriter.Writer.AddMessage | WOI/Pods/BoringSSL-GRPC/ssl/s3_both.cc:184-205 | the records added hold the message in order, as many as its length takes and at least one, none above max_send_fragment; after a failure they hold a prefix |
| TlsWriter.Writer.AddRecordToFlight | WOI/Pods/BoringSSL-GRPC/ssl/s3_both.cc:135-165 | the record goes behind everything sealed before, with the bytes the cipher gave for it under a fresh call number |
| TlsWriter.Writer.MakeRoom | WOI/Pods/BoringSSL-GRPC/ssl/s3_pkt.cc:238-271 | room is made exactly for at most 65,535 bytes, with the rest of the flight in front, at an alignment offset below 8 |
| TlsWriter.Writer.Remember | WOI/Pods/BoringSSL-GRPC/ssl/s3_pkt.cc:273-288 | the record is behind the flight and pending with its arguments |
| TlsWriter.Writer.SendAlert | WOI/Pods/BoringSSL-GRPC/ssl/s3_pkt.cc:377-403 | a second closing alert is refused; an alert behind pending data is only noted; no application data is sealed |
| TlsWriter.Writer.DispatchAlert | WOI/Pods/BoringSSL-GRPC/ssl/s3_pkt.cc:405-423 | at most one alert record is sealed, and success means it was flushed |
| TlsWriter.Writer.WireIsPrefix | WOI/Pods/BoringSSL-GRPC/ssl/s3_pkt.cc:221-289 | at every moment before the offset was first carried with bytes left, the wire carries a prefix of all sealed records in sealing order |
| TlsWriter.Writer.AllFlushed | WOI/Pods/BoringSSL-GRPC/ssl/s3_pkt.cc:213-217 | then, once the buffer is empty, only the rest of the flight is not on the wire |
| TlsWriter.EarlyLimitHolds | WOI/Pods/BoringSSL-GRPC/ssl/s3_pkt.cc:160-187 | the 16-bit count keeps early data within the ticket's limit exactly when the limit is below 2^16 |
| TlsWriter.EarlyPastLimit | WOI/Pods/BoringSSL-GRPC/ssl/s3_pkt.cc:164-191 | a run: a ticket that allows 65,536 bytes and a transport that takes everything; after these the count is zero again and one byte more is written as early data, past the limit |
| TlsWriter.Writer.MaxRecord | WOI/Pods/BoringSSL-GRPC/ssl/s3_pkt.cc:159-169 | the next record never exceeds the fragment limit, nor what the count leaves of the ticket's limit |
| SslBuffer.SSLBuffer.EnsureCap | WOI/Pods/BoringSSL-GRPC/ssl/ssl_buffer.cc:47-81 | there is room exactly for requests below 2^16; the contents are kept and the payload is aligned |
| SslBuffer.SSLBuffer.Append | WOI/Pods/BoringSSL-GRPC/ssl/ssl_buffer.cc:83-88 | the bytes go behind the contents |
| SslBuffer.SSLBuffer.Consume | WOI/Pods/BoringSSL-GRPC/ssl/ssl_buffer.cc:90-97 | the bytes leave the front, whenever the offset is not carried past 2^16 or nothing is left |
| SslBuffer.InOrderExactly | WOI/Pods/BoringSSL-GRPC/ssl/ssl_buffer.cc:90-97 | a buffer is taken in order, in whatever parts and whatever it holds, exactly when its offset and its size are at most 2^16 together; the capacity does not matter |
| Framing.HandshakeBuffer.GetMessage | WOI/Pods/BoringSSL-GRPC/ssl/s3_both.cc:427-439 | the message returned is the next of the parse of all record bodies, and there is none exactly when all complete ones are taken |
| Framing.HandshakeBuffer.NextMessage | WOI/Pods/BoringSSL-GRPC/ssl/s3_both.cc:562-583 | the current message is taken, in order |
| Framing.HandshakeBuffer.InOrder | WOI/Pods/BoringSSL-GRPC/ssl/s3_both.cc:399-425 | the messages of all records so far are those taken and those still in the buffer |
| Framing.HandshakeBuffer.AppendRecord | WOI/Pods/BoringSSL-GRPC/ssl/s3_both.cc:553-560 | a record's body extends the stream and changes no message already found |
| Framing.HandshakeBuffer.CanAccept | WOI/Pods/BoringSSL-GRPC/ssl/s3_both.cc:441-459 | more data is accepted exactly when no complete message waits and the next one is not too long |
| Framing.HandshakeBuffer.HasUnprocessed | WOI/Pods/BoringSSL-GRPC/ssl/s3_both.cc:461-472 | false exactly when the stream ends with the current message |
| Framing.MessagesOfStream | WOI/Pods/BoringSSL-GRPC/ssl/s3_both.cc:399-425 | the parse of written messages is those messages |
| Framing.PrefixLayout | WOI/Pods/BoringSSL-GRPC/ssl/s3_both.cc:167-182 | the four bytes of a handshake message's header, one by one: type and length |
| Framing.CutsDoNotMatter | WOI/Pods/BoringSSL-GRPC/ssl/s3_both.cc:553-560 | how a stream is cut into records does not change its messages |
| Framing.AddedIsTaken | WOI/Pods/BoringSSL-GRPC/ssl/s3_both.cc:184-205 | the texts of the first records sealed for a list of messages, joined in the buffer, give a prefix of the list, and those of all records give the list |
| Framing.Transfer | WOI/Pods/BoringSSL-GRPC/ssl/s3_both.cc:184-279 | from end to end: messages added under any max_send_fragment, flushed, opened by the peer's record layer and read record by record are taken message for message |
| Framing.ReadAll | WOI/Pods/BoringSSL-GRPC/ssl/s3_both.cc:427-439 | records read one after another, with the complete messages taken after each, give exactly the messages of all bodies joined |
| Handshake.EstablishedMeans | WOI/Pods/BoringSSL-GRPC/ssl/handshake.cc:380-429 | whenever a session is established below TLS 1.3, the peer's ChangeCipherSpec, the switch of the read cipher and its matching Finished came before, in this order |
| Handshake.EstablishedIsSafe | WOI/Pods/BoringSSL-GRPC/ssl/handshake.cc:380-429 | the same for any session in the log, with the verified chain and signature where the event says that the peer was verified |
| Handshake.PremasterMeans | WOI/Pods/BoringSSL-GRPC/ssl/handshake_client.cc:1220-1371 | before the premaster of a certificate-authenticated ECDHE handshake, the chain and the key exchange signature were verified |
| Handshake.Connection.GetFinished | WOI/Pods/BoringSSL-GRPC/ssl/handshake.cc:380-429 | on success exactly the hash, the length check and the match of a Finished with the expected value were noted and the message was taken; an error says which of type, hash, value and length it was; and without a message nothing happens |
| Handshake.Connection.SwitchRead | WOI/Pods/BoringSSL-GRPC/ssl/handshake_client.cc:1649-1656 | the read cipher is switched only after a ChangeCipherSpec |
| Handshake.Connection.ComputePremaster | WOI/Pods/BoringSSL-GRPC/ssl/handshake_client.cc:1267-1312 | callable only with the verifications of a certificate-authenticated ECDHE handshake done |
| Handshake.Connection.Establish | WOI/Pods/BoringSSL-GRPC/ssl/handshake_client.cc:1674-1705 | callable only with a matched Finished, or under TLS 1.3 |
| Handshake.Connection.VerifyPeerCert | WOI/Pods/BoringSSL-GRPC/ssl/handshake.cc:285-360 | only an accepted chain counts as verified |
| Handshake.Connection.VerifySignature | WOI/Pods/BoringSSL-GRPC/ssl/handshake_client.cc:1040-1053 | only a good signature counts as verified |
| Handshake.Connection.ReceiveCcs | WOI/Pods/BoringSSL-GRPC/ssl/handshake.cc:510-545 | only a ChangeCipherSpec that was opened counts |
| Handshake.Connection.Resolve | WOI/Pods/BoringSSL-GRPC/ssl/handshake.cc:491-614 | a wait for a ChangeCipherSpec ends only with one received; after an error the handshake never runs again |
| ClientCourse.ServerIsProven | WOI/Pods/BoringSSL-GRPC/ssl/handshake_client.cc:771-1071 | a full handshake with a certificate cipher and an ephemeral key: the record holds, in this order, the ServerHello, a Certificate that is not empty, the verification of its chain and of the key exchange signature, the premaster with the ClientKeyExchange, the server's ChangeCipherSpec, the switch of the read cipher, its matching Finished and the session |
| ClientCourse.DoneMeans | WOI/Pods/BoringSSL-GRPC/ssl/handshake_client.cc:1674-1705 | the record of any finished handshake: one ServerHello and behind it ChangeCipherSpec, switch, matching Finished and session; the chain is verified in between in every full handshake with a certificate cipher, the signature in every one with an ephemeral key as well |
| ClientCourse.PremasterOf | WOI/Pods/BoringSSL-GRPC/ssl/handshake_client.cc:1220-1371 | a client that proves its server sends its key exchange only after everything that proves it |
| Client.ClientHandshake.DoneIsSafe | WOI/Pods/BoringSSL-GRPC/ssl/handshake_client.cc:1674-1705 | a client that is done below TLS 1.3 has such a record, whichever messages came: the session resumed is the one offered and confirmed by the ServerHello in the record, and its cipher decides what was verified |
| Client.ClientHandshake.Handshake | WOI/Pods/BoringSSL-GRPC/ssl/handshake_client.cc:1707-1789 | against any server: the loop ends, the record is the one that RFC 5246 has for the state, success means established, an error has its cause (a step of its own that failed, or a message that does not fit the state), and a wait for a message means that none has come |
| Client.ClientHandshake.RunState | WOI/Pods/BoringSSL-GRPC/ssl/handshake_client.cc:1707-1789 | one state keeps all this and moves strictly forward |
| Client.ClientHandshake.ResolveWait | WOI/Pods/BoringSSL-GRPC/ssl/handshake.cc:491-614 | a wait for a ChangeCipherSpec is over only once one was received, and the record says so |
| Client.ClientHandshake.RunOnce | WOI/Pods/BoringSSL-GRPC/ssl/handshake.cc:491-628 | resolving a wait and running on keeps this; an error is final |
| Client.ClientHandshake.DoStartConnect | WOI/Pods/BoringSSL-GRPC/ssl/handshake_client.cc:385-452 | the record grows by exactly the events of this state, and an error has its cause; flushing the ClientHello is the only way on |
| Client.ClientHandshake.DoEnterEarlyData | WOI/Pods/BoringSSL-GRPC/ssl/handshake_client.cc:454-489 | the record grows by exactly the events of this state, and an error has its cause; on to the HelloVerifyRequest exactly under DTLS |
| Client.ClientHandshake.DoReadHelloVerifyRequest | WOI/Pods/BoringSSL-GRPC/ssl/handshake_client.cc:491-533 | the record grows by exactly the events of this state, and an error has its cause; any other message is left for the next state |
| Client.ClientHandshake.DoReadServerHello | WOI/Pods/BoringSSL-GRPC/ssl/handshake_client.cc:535-759 | the record grows by exactly the events of this state, and an error has its cause; the session ticket comes next exactly in a resumption, the certificate in a full handshake, and a session is resumed only if one was offered |
| Client.ClientHandshake.DoTls13 | WOI/Pods/BoringSSL-GRPC/ssl/handshake_client.cc:761-769 | only TLS 1.3 is in this state |
| Client.ClientHandshake.DoReadServerCertificate | WOI/Pods/BoringSSL-GRPC/ssl/handshake_client.cc:771-819 | the record grows by exactly the events of this state, and an error has its cause; on to the certificate status, or it stays |
| Client.ClientHandshake.DoReadCertificateStatus | WOI/Pods/BoringSSL-GRPC/ssl/handshake_client.cc:821-869 | the record grows by exactly the events of this state, and an error has its cause; on to the verification, or it stays |
| Client.ClientHandshake.DoVerifyServerCertificate | WOI/Pods/BoringSSL-GRPC/ssl/handshake_client.cc:871-889 | the record grows by exactly the events of this state, and an error has its cause; no way on for a certificate cipher without an accepted chain |
| Client.ClientHandshake.DoReadServerKeyExchange | WOI/Pods/BoringSSL-GRPC/ssl/handshake_client.cc:891-1071 | the record grows by exactly the events of this state, and an error has its cause; no way on for a certificate-authenticated ECDHE cipher without a good signature, nor for any ECDHE cipher without a key share |
| Client.ClientHandshake.DoReadCertificateRequest | WOI/Pods/BoringSSL-GRPC/ssl/handshake_client.cc:1073-1143 | the record grows by exactly the events of this state, and an error has its cause; on to the end of the server's flight, or it stays |
| Client.ClientHandshake.DoReadServerHelloDone | WOI/Pods/BoringSSL-GRPC/ssl/handshake_client.cc:1145-1167 | the record grows by exactly the events of this state, and an error has its cause; on to the client's certificate, or it stays |
| Client.ClientHandshake.DoSendClientCertificate | WOI/Pods/BoringSSL-GRPC/ssl/handshake_client.cc:1169-1215 | the record grows by exactly the events of this state, and an error has its cause; on to the key exchange, or it stays |
| Client.ClientHandshake.DoSendClientKeyExchange | WOI/Pods/BoringSSL-GRPC/ssl/handshake_client.cc:1220-1371 | the record grows by exactly the events of this state, and an error has its cause; the key share exists when it is used, and the premaster comes only after both verifications |
| Client.ClientHandshake.DoSendClientCertificateVerify | WOI/Pods/BoringSSL-GRPC/ssl/handshake_client.cc:1373-1455 | the record grows by exactly the events of this state, and an error has its cause; on to the Finished, or it stays |
| Client.ClientHandshake.DoSendClientFinished | WOI/Pods/BoringSSL-GRPC/ssl/handshake_client.cc:1457-1512 | the record grows by exactly the events of this state, and an error has its cause; in a resumption it is reached only after the server's Finished matched |
| Client.ClientHandshake.DoFinishFlight | WOI/Pods/BoringSSL-GRPC/ssl/handshake_client.cc:1538-1564 | the record grows by exactly the events of this state, and an error has its cause; a resumption is complete, a full handshake still waits for the server; false start returns early only in a full one |
| Client.ClientHandshake.DoReadSessionTicket | WOI/Pods/BoringSSL-GRPC/ssl/handshake_client.cc:1566-1647 | the record grows by exactly the events of this state, and an error has its cause; the only way on is to wait for a ChangeCipherSpec |
| Client.ClientHandshake.DoProcessChangeCipherSpec | WOI/Pods/BoringSSL-GRPC/ssl/handshake_client.cc:1649-1656 | the record grows by exactly the events of this state, and an error has its cause; needs a received ChangeCipherSpec and switches the read cipher |
| Client.ClientHandshake.DoReadServerFinished | WOI/Pods/BoringSSL-GRPC/ssl/handshake_client.cc:1658-1672 | the record grows by exactly the events of this state, and an error has its cause; the only way on is a matching Finished under the new cipher |
| Client.ClientHandshake.DoFinishClientHandshake | WOI/Pods/BoringSSL-GRPC/ssl/handshake_client.cc:1674-1705 | the record grows by exactly the events of this state, and an error has its cause; done means the session is established, with its proof of the peer |
| ServerCourse.DoneMeans | WOI/Pods/BoringSSL-GRPC/ssl/handshake_server.cc:1511-1537 | the record of any finished handshake: the ClientHello and the ServerHello that answers it, and behind them the client's ChangeCipherSpec, the switch, its matching Finished and the session; of every Certificate in it that is not empty, the chain and the CertificateVerify were verified after it came and before the ChangeCipherSpec; and a server that insists on a certificate and asked for one has got one |
| ServerCourse.ProvenOf | WOI/Pods/BoringSSL-GRPC/ssl/handshake_server.cc:949-1363 | the certificate, the verification of its chain and that of the CertificateVerify come in this order, and there is no other certificate |
| ServerCourse.RequiredCame | WOI/Pods/BoringSSL-GRPC/ssl/handshake_server.cc:1013-1033 | a server that asked for a certificate and insists on one does not get past an empty or a missing one |
| Server.ServerHandshake.DoneIsSafe | WOI/Pods/BoringSSL-GRPC/ssl/handshake_server.cc:1511-1537 | a server that is done below TLS 1.3 has such a record, whichever messages came; the session counts as verified exactly when a certificate that is not empty came in a full handshake |
| Server.ServerHandshake.Handshake | WOI/Pods/BoringSSL-GRPC/ssl/handshake_server.cc:1539-1621 | against any client: the loop ends, the record is the one that RFC 5246 has for the state, success means established, an error has its cause (a step of its own that failed, or a message that does not fit the state), and a wait for a message means that none has come |
| Server.ServerHandshake.RunState | WOI/Pods/BoringSSL-GRPC/ssl/handshake_server.cc:1539-1621 | one state keeps all this and moves strictly forward |
| Server.ServerHandshake.ResolveWait | WOI/Pods/BoringSSL-GRPC/ssl/handshake.cc:491-614 | a wait for a ChangeCipherSpec is over only once one was received, and the record says so |
| Server.ServerHandshake.RunOnce | WOI/Pods/BoringSSL-GRPC/ssl/handshake.cc:491-628 | resolving a wait and running on keeps this; an error is final |
| Server.ServerHandshake.DoStartAccept | WOI/Pods/BoringSSL-GRPC/ssl/handshake_server.cc:426-430 | the record grows by exactly the events of this state, and an error has its cause; always on to the ClientHello |
| Server.ServerHandshake.DoReadClientHello | WOI/Pods/BoringSSL-GRPC/ssl/handshake_server.cc:432-510 | the record grows by exactly the events of this state, and an error has its cause; on to the certificate selection, or it stays |
| Server.ServerHandshake.DoSelectCertificate | WOI/Pods/BoringSSL-GRPC/ssl/handshake_server.cc:512-560 | the record grows by exactly the events of this state, and an error has its cause; TLS 1.3 takes over, or the parameters come next |
| Server.ServerHandshake.DoTls13 | WOI/Pods/BoringSSL-GRPC/ssl/handshake_server.cc:562-570 | only TLS 1.3 is in this state |
| Server.ServerHandshake.DoSelectParameters | WOI/Pods/BoringSSL-GRPC/ssl/handshake_server.cc:572-684 | the record grows by exactly the events of this state, and an error has its cause; a certificate is newly requested only in a full handshake with a certificate cipher |
| Server.ServerHandshake.DoSendServerHello | WOI/Pods/BoringSSL-GRPC/ssl/handshake_server.cc:686-752 | the record grows by exactly the events of this state, and an error has its cause; a resumption goes straight to the server's Finished |
| Server.ServerHandshake.DoSendServerCertificate | WOI/Pods/BoringSSL-GRPC/ssl/handshake_server.cc:754-840 | the record grows by exactly the events of this state, and an error has its cause; an ECDHE cipher has its key share from here on |
| Server.ServerHandshake.DoSendServerKeyExchange | WOI/Pods/BoringSSL-GRPC/ssl/handshake_server.cc:842-912 | the record grows by exactly the events of this state, and an error has its cause; on to the end of the server's flight, or it stays |
| Server.ServerHandshake.DoSendServerHelloDone | WOI/Pods/BoringSSL-GRPC/ssl/handshake_server.cc:914-947 | the record grows by exactly the events of this state, and an error has its cause; flushing the flight is the only way on |
| Server.ServerHandshake.DoReadClientCertificate | WOI/Pods/BoringSSL-GRPC/ssl/handshake_server.cc:949-1040 | the record grows by exactly the events of this state, and an error has its cause; on to the verification with a Certificate that was asked for, empty only where that is allowed, or without one where none was asked for or SSL 3.0 leaves it out |
| Server.ServerHandshake.DoVerifyClientCertificate | WOI/Pods/BoringSSL-GRPC/ssl/handshake_server.cc:1042-1056 | the record grows by exactly the events of this state, and an error has its cause; no way on for a client certificate whose chain was not accepted |
| Server.ServerHandshake.DoReadClientKeyExchange | WOI/Pods/BoringSSL-GRPC/ssl/handshake_server.cc:1058-1267 | the record grows by exactly the events of this state, and an error has its cause; the key share exists when it is used |
| Server.ServerHandshake.DoReadClientCertificateVerify | WOI/Pods/BoringSSL-GRPC/ssl/handshake_server.cc:1269-1363 | the record grows by exactly the events of this state, and an error has its cause; no way on for a client certificate without a good signature |
| Server.ServerHandshake.DoReadChangeCipherSpec | WOI/Pods/BoringSSL-GRPC/ssl/handshake_server.cc:1365-1368 | the record grows by exactly the events of this state, and an error has its cause; always waits for a ChangeCipherSpec |
| Server.ServerHandshake.DoProcessChangeCipherSpec | WOI/Pods/BoringSSL-GRPC/ssl/handshake_server.cc:1370-1377 | the record grows by exactly the events of this state, and an error has its cause; needs a received ChangeCipherSpec and switches the read cipher |
| Server.ServerHandshake.DoReadNextProto | WOI/Pods/BoringSSL-GRPC/ssl/handshake_server.cc:1379-1413 | the record grows by exactly the events of this state, and an error has its cause; reached and left only under the new read cipher |
| Server.ServerHandshake.DoReadChannelId | WOI/Pods/BoringSSL-GRPC/ssl/handshake_server.cc:1415-1437 | the record grows by exactly the events of this state, and an error has its cause; reached and left only under the new read cipher |
| Server.ServerHandshake.DoReadClientFinished | WOI/Pods/BoringSSL-GRPC/ssl/handshake_server.cc:1439-1461 | the record grows by exactly the events of this state, and an error has its cause; the only way on is a matching Finished under the new cipher |
| Server.ServerHandshake.DoSendServerFinished | WOI/Pods/BoringSSL-GRPC/ssl/handshake_server.cc:1463-1509 | the record grows by exactly the events of this state, and an error has its cause; in a full handshake it is reached only after the client's Finished matched; a resumption still waits for it |
| Server.ServerHandshake.DoFinishServerHandshake | WOI/Pods/BoringSSL-GRPC/ssl/handshake_server.cc:1511-1537 | the record grows by exactly the events of this state, and an error has its cause; done means the session is established, with its proof of the peer |
| CipherChoice.ChooseCipher | WOI/Pods/BoringSSL-GRPC/ssl/handshake_server.cc:357-424 | under server preference the suite the client ranks highest in the server's earliest group with any usable suite, under client preference the client's first usable one, and none exactly when none is usable |
| CipherChoice.Choose | WOI/Pods/BoringSSL-GRPC/ssl/handshake_server.cc:389-423 | for any groups, also unclosed ones: the suite returned is that choice, and none is returned exactly when every usable suite is in a last group that is never closed |
| CipherChoice.ChosenOnce | WOI/Pods/BoringSSL-GRPC/ssl/handshake_server.cc:389-423 | the choice is unique |
| CipherChoice.ClientOrder | WOI/Pods/BoringSSL-GRPC/ssl/handshake_server.cc:377-384 | without groups the choice is the first usable suite |
| CipherChoice.ClosedGroups | WOI/Pods/BoringSSL-GRPC/ssl/handshake_server.cc:414-418 | when the last group is closed nothing usable is passed over |
| CipherChoice.Find | WOI/Pods/BoringSSL-GRPC/crypto/stack/stack.c:226-242 | the position found is the first of the suite |
| RefCount.Linearizable | WOI/Pods/BoringSSL-GRPC/crypto/refcount_c11.c:37-65 | every interleaving of any number of threads, with spurious failures of the exchange, gives the count and the results of the locked version's calls in some order |
| RefCount.EffectAtReturn | WOI/Pods/BoringSSL-GRPC/crypto/refcount_c11.c:37-65 | each call takes effect in exactly one step of its own thread, between its start and its return |
| RefCount.RunPromises | WOI/Pods/BoringSSL-GRPC/crypto/refcount_c11.c:37-65 | in every run in which the counter has not stood at its maximum it is the initial count plus increments less decrements, however many there were, and zero is reported exactly by the calls that reach it |
| RefCount.RunAccount | WOI/Pods/BoringSSL-GRPC/crypto/refcount_c11.c:37-65 | over a run the counter is that sum at every moment exactly when no operation takes effect at the maximum |
| RefCount.ZeroReportedOnce | WOI/Pods/BoringSSL-GRPC/crypto/refcount_lock.c:37-51 | a fall to zero is reported by the call that made it and by no other |
| RefCount.SaturatedForGood | WOI/Pods/BoringSSL-GRPC/crypto/refcount_lock.c:29-51 | once at 0xffffffff the count stays and zero is never reported again |
| RefCount.Balance | WOI/Pods/BoringSSL-GRPC/crypto/refcount_lock.c:29-51 | as long as no call takes effect at the maximum the count is the initial one plus increments less decrements |
| RefCount.StepIsLocked | WOI/Pods/BoringSSL-GRPC/crypto/refcount_c11.c:41-64 | a step takes effect as one locked call or not at all |

## Left out

- nanopb callbacks, extensions, pointer fields and custom streams: foreign code or heap ownership.
- nanopb destination memory is a value per field, not raw bytes: members of one union do not share storage. The count written over the start of an array without one is modelled within the array, in structs that are not packed; what it overwrites behind an array shorter than four bytes is not.
- InputStream.ReadVarint: like every reader above IStream.Read, after a failure it is stated only that the stream is still inside its buffer; the callers give up.
- Cryptography: ciphers, signatures, key derivation and transcripts are abstract functions or checks that may succeed or fail.
- Reassembly.HmFragment.constructor: the freshly allocated body is taken to be zeros; no theorem relies on bytes that were not received.
- Allocation failure, message and info callbacks and error queues: they only return failure.
- Timers of the DTLS handshake: a retransmission may happen at any time, with any MTU.
- EndToEnd.DeliveredIsPrefix: the channel carries the sender's own records; forged ones are the cipher's concern, and each holds one fragment, as seal_next_message makes them.
- Delivery.FullPassCompletes: records that the window drops are not listed; that a record dropped as too old is sent again is up to the timers.
- Leftovers.EncodesExactly: when some nested message takes 2^32 bytes or more to visit, only the sufficient half is stated (Soundness.DecodeTidy, Soundness.SoundEncodes); which entries are then out of reach is not.
- Session.Link: one direction; the other end's sender appears only as the reply that NoteReply notes.
- SslBuffer.SSLBuffer.EnsureCap: new memory holds zeros, where malloc leaves anything; only Misorders looks at it.
- DtlsRecord.RecordReader.Open: what ssl_process_alert does with an alert is not modelled beyond its text.
- TlsWriter.Writer.WriteAppData: the length is not negative, and retries repeat the same data with a length that does not shrink below what was taken; otherwise only the buffers' order is promised.
- TlsWriter.Writer.SealRecord: 1/n-1 record splitting is part of the abstract sealing function.
- ssl3_open_app_data, ssl3_open_change_cipher_spec and V2ClientHello conversion: easy members or outside the framing proved here.
- Framing.HandshakeBuffer.AppendRecord: the record layer in front of it is not part of this model.
- Client.ClientHandshake.RunOnce: ssl_run_handshake loops for as long as the peer sends; one call is one round of that loop.
- Merge.MessageReads: what a known field of another wire type is read as is not stated beyond Unknown.WrongType.
- Handshake.Message: parsing is not modelled; a message says which of the tests made of it it passes, and a hello what it settles.
- Client.ClientHandshake.DoReadServerHello: renegotiation is not modelled.
- Client.ClientHandshake.DoTls13: the TLS 1.3 handshake may end in any way; its own order of events is not stated.
- Server.ServerHandshake.DoSelectCertificate: the cipher chosen is taken from the ClientHello as a part of it; CipherChoice proves the choice.
- CipherChoice: the masks that ssl_get_compatible_server_ciphers computes are inputs.
- RefCount: the atomics are sequentially consistent steps, as the default C11 operations are.
- The Swift controllers and the Firebase headers of the app, and BoringSSL's DER, X.509 and platform code.
