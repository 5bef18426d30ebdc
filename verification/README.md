# Transport and codec cores: a Dafny model

The application's own code is interface plumbing; its hard logic is in two vendored libraries. This
project models four components of them and proves what they are for.

* **DTLS handshake transport** (section 4.2 of RFC 6347). The sender cuts a flight into fragments that
  fit the MTU and can resume and take back; the receiver reassembles fragments that arrive in any order,
  overlapping or repeated, in a ring of seven slots with a bit mask each, behind a sliding replay window.
  `FragmentBitmap`, `ReplayWindow`, `DtlsReader` and `DtlsWriter` are the mutable structures;
  `DtlsReceive`, `DtlsFlight` and `RecordNumbers` specify them. `DtlsReplay` says which records are turned
  away after any run, and `DtlsAnyInput` what a message is made of whatever arrives; `DtlsDelivery` and
  `DtlsEndToEnd` prove delivery over every run of a lossy network, and `DtlsSender` that every run of the
  real sender is of the kind they speak of.
* **The nanopb codec.** `PbSchema` has recursive schemas and messages, `PbCodec` specifies what is written
  and read, `PbEncode` and `PbDecode` are the encoders and decoders over stream objects, `PbFields` the
  cyclic field iterator and the required-field words. `PbBytes` says in numbers what the bytes are,
  `PbWritten` what is written and what is left out, and `PbRepeated`, `PbMerge`, `PbRequired` and
  `PbAnyInput` what is read from bytes that another writer may have sent. `PbRoundTrip` and `PbEvolution`
  prove the round trip and schema evolution, with the exact condition under which they hold.
* **The TLS 1.0 to 1.2 handshake** (section 7.3 of RFC 5246). `HandshakeScript` says which messages remain
  from each point on, `ClientHandshake` and `ServerHandshake` are the two state machines step by step,
  `HandshakeLog` what either of them may rely on whatever its peer sends: that it is done only after the
  messages of the script, all of them and in its order. `HandshakeProduct` proves no
  refusal, no deadlock, transcript agreement, and completion under every fair schedule, and
  `HandshakeConnection` that the two real machines, joined, run as the product does. `CipherChoice` is the
  server's cipher selection.
* **The write path and reference counts.** `TlsWriter` proves exactly-once writing across transport failures
  and short writes; `Refcount` proves the compare-and-exchange count linearizable to the locked one.

Four properties hold only under a condition, which is proved exact:

* pb_check_proto3_default_value reads the first four bytes of a fixed-count array as a count, so a proto3
  submessage with such an array can be left out though it is not default. pb_field_set_to_default clears the
  same four bytes, and no more: an array that lies in them comes back, a larger one does so only if it is all
  zeros in memory that has been zeroed, as it is for a submessage in a oneof, and is otherwise left to the
  destination. The round trip holds exactly for messages in which every array left out comes back
  (`Faithful`). For an array of uint32 with a zero first element alone in such a submessage that is worked out
  (`PbEvolution.FixedArrayAlone`): one lone zero survives (`PbEvolution.FixedArrayKept`), a zero and a five do
  not (`PbEvolution.FixedArrayLost`).
* A record counter that has overflowed starts again at zero; numbers are unique exactly when it is not used
  again (`RecordNumbers.NumbersNeverReused`).
* ssl3_write_app_data clears its progress before it rejects a short retry, so after such a retry bytes
  already sealed are sealed again: `TlsWriter.ShortRetrySealsTwice` is a run in which they are. Exactly-once
  writing is kept exactly by calls that pass no fewer bytes than are done (`TlsWriter.CallKeepsOnce`).
* The 16-bit offset of the write buffer keeps its place exactly when the contents end within the first 65536
  bytes (`TlsWriter.ConsumesExactly`); EnsureCap admits more (`TlsWriter.LargestBufferLosesItsPlace`). The
  write path gets there only with application data behind an unflushed flight of more than
  65536 - 7 - 16384 bytes less the record overhead (`TlsWriter.SmallFlightsAreRoomy`). In TLS 1.0 to
  1.2 the handshake flushes each flight before it lets application data through, so there it does not.

The comment at pb_encode.c:225 says that a repeated field is present if its count is not zero; for
fixed-count arrays, which have no count, the model follows the code.

## Model

| member | source | states |
|---|---|---|
| FragmentBitmap.BitRangeBit | liChat/Pods/BoringSSL/ssl/d1_both.cc:203-205 | The byte that bit_range computes has exactly the bits of the half-open range. |
| FragmentBitmap.ByteComplete | liChat/Pods/BoringSSL/ssl/d1_both.cc:229-246 | A mask byte passes the completeness test exactly when every offset it stands for, up to the message length, is in the represented set. |
| FragmentBitmap.HmFragment.constructor | liChat/Pods/BoringSSL/ssl/d1_both.cc:152-199 | A new fragment buffer holds the header of the whole message and represents the empty set; an empty message has no mask. |
| FragmentBitmap.HmFragment.SetBits | liChat/Pods/BoringSSL/ssl/d1_both.cc:217-229 | Marking a range adds exactly that range to the set of offsets, in bounds, across byte boundaries. |
| FragmentBitmap.HmFragment.AllSet | liChat/Pods/BoringSSL/ssl/d1_both.cc:231-246 | The scan of the mask answers whether the set is all offsets of the message. |
| FragmentBitmap.HmFragment.Mark | liChat/Pods/BoringSSL/ssl/d1_both.cc:211-251 | The mask represents the union of the marked ranges, never an offset past the message, and is released exactly when they cover it. |
| FragmentBitmap.HmFragment.Receive | liChat/Pods/BoringSSL/ssl/d1_both.cc:385-401 | Copying a fragment and marking it leaves the message content known exactly at the offsets received, later copies overwriting earlier ones. |
| HandshakeWire.ParseSerialized | liChat/Pods/BoringSSL/ssl/d1_both.cc:459-473 | A fragment header and body as the sender writes them are parsed back, whatever follows in the record. |
| HandshakeWire.SerializeParsed | liChat/Pods/BoringSSL/ssl/d1_both.cc:459-473 | Conversely, whatever parses is the serialisation of what was parsed. |
| HandshakeWire.HeaderBytes | liChat/Pods/BoringSSL/ssl/d1_both.cc:459-473 | The twelve bytes of a fragment header in numbers, most significant bytes first. |
| DtlsReader.ReadState.GetIncomingMessage | liChat/Pods/BoringSSL/ssl/d1_both.cc:265-295 | The slot for a fragment: an error outside the seven slots or for a mismatching header, otherwise the existing or a new buffer, in the ring the specification gives. |
| DtlsReader.ReadState.AcceptFragment | liChat/Pods/BoringSSL/ssl/d1_both.cc:357-401 | One turn of the reassembly loop over real buffers changes the abstract ring exactly as specified, error cases included. |
| DtlsReader.ReadState.OpenFragments | liChat/Pods/BoringSSL/ssl/d1_both.cc:345-403 | All fragments of a record, in order, up to the first that fails. |
| DtlsReader.ReadState.OpenHandshake | liChat/Pods/BoringSSL/ssl/d1_both.cc:297-406 | Opening a record: replay filter, record type, and fragments, against the specification of the read side. A record is dropped, and nothing changes, exactly if it is of another epoch, or its number has arrived before in this epoch, or is 64 or more below one that has. |
| DtlsReader.ReadState.OpenRecorded | liChat/Pods/BoringSSL/ssl/d1_both.cc:304-406 | The same behind the replay filter, whose window and epoch it leaves alone. |
| DtlsReader.ReadState.GetMessage | liChat/Pods/BoringSSL/ssl/d1_both.cc:408-424 | A message is returned exactly when the current slot is complete, and then with all its bytes. |
| DtlsReader.ReadState.NextMessage | liChat/Pods/BoringSSL/ssl/d1_both.cc:426-438 | Freeing the current slot advances the read sequence and touches no other slot. |
| DtlsReader.ReadState.HasUnprocessed | liChat/Pods/BoringSSL/ssl/d1_both.cc:440-457 | True exactly when a ChangeCipherSpec or any slot but the message being processed is pending. |
| DtlsReader.ReadState.OpenChangeCipherSpec | liChat/Pods/BoringSSL/ssl/d1_both.cc:475-490 | A remembered ChangeCipherSpec is taken once. |
| DtlsReader.ReadState.SetReadState | liChat/Pods/BoringSSL/ssl/dtls_method.cc:81-95 | The read epoch advances with an empty window, and exactly if there is no ChangeCipherSpec waiting and no fragment buffer but that of the message in hand. |
| ReplayWindow.TurnedAway | liChat/Pods/BoringSSL/ssl/dtls_record.cc:140-150 | What the window turns away is what has arrived, or lies 64 or more below something that has, and nothing else. |
| DtlsReplay.DroppedExactly | liChat/Pods/BoringSSL/ssl/dtls_record.cc:225-259 | After any run, told by what has arrived and not by what is remembered: a record changes nothing exactly if it is of another epoch, its number has arrived before, or is 64 or more below one that has. |
| DtlsReplay.NeverTakenTwice | liChat/Pods/BoringSSL/ssl/dtls_record.cc:225-259 | From any reader and over any run: once a record has been delivered, any record of its number is turned away and changes nothing for as long as the epoch lasts. |
| DtlsAnyInput.RefusedExactly | liChat/Pods/BoringSSL/ssl/d1_both.cc:357-384 | Exactly which fragments are refused, with which alert; a refused fragment changes nothing. |
| DtlsAnyInput.TakenExactly | liChat/Pods/BoringSSL/ssl/d1_both.cc:379-401 | A fragment that is not refused changes nothing outside the seven messages to come, and otherwise puts exactly its bytes at their offsets of its message. |
| DtlsAnyInput.RecordRefusedExactly | liChat/Pods/BoringSSL/ssl/d1_both.cc:304-343 | Exactly which records of the epoch are refused, among those that are not replays. |
| DtlsAnyInput.AnyInput | liChat/Pods/BoringSSL/ssl/d1_both.cc:265-438 | Over any run on any input the messages handed out are numbered without a gap, none is too long, and each is pieced together from fragments that were not turned away, name its number, type and length, and were all sent in one epoch: nothing from before a key change is joined to what came after it. |
| DtlsAnyInput.ChangeWasSent | liChat/Pods/BoringSSL/ssl/d1_both.cc:319-338 | The flag for new keys goes up only by a ChangeCipherSpec record of epoch 0. |
| DtlsDelivery.AcceptGenuine | liChat/Pods/BoringSSL/ssl/d1_both.cc:357-401 | A genuine fragment is refused only under encryption and only for another message than the current one; otherwise it adds exactly its bytes to exactly its message. |
| DtlsDelivery.RunIsSafe | liChat/Pods/BoringSSL/ssl/d1_both.cc:265-438 | Over every run in which records are lost, repeated, reordered or delayed, what is handed out is the original messages, whole, in order, once each. |
| DtlsDelivery.RunDelivers | liChat/Pods/BoringSSL/ssl/d1_both.cc:265-438 | In the same runs the handshake is refused nothing and the receiver holds, for every message to come, exactly the offsets that have arrived. |
| DtlsDelivery.NothingUnprocessed | liChat/Pods/BoringSSL/ssl/dtls_method.cc:81-95 | Once only the encrypted message is missing and the ChangeCipherSpec was taken, the epoch change is not refused. |
| DtlsDelivery.HandedOutWhenComplete | liChat/Pods/BoringSSL/ssl/d1_both.cc:255-259 | The next message can be read exactly when all its bytes have arrived. |
| DtlsEndToEnd.EndToEnd | liChat/Pods/BoringSSL/ssl/d1_both.cc:265-438 | Delivery end to end of any valid transmissions: the messages handed out are the original ones, whole, in order and once each, whatever the network loses, repeats, reorders or delays; nothing is refused, and the next message is handed out exactly when all its bytes have arrived. |
| DtlsEndToEnd.TransmissionArrives | liChat/Pods/BoringSSL/ssl/d1_both.cc:644-827 | Every byte of a message of the receiver's epoch that a transmission passes over arrives if its records do and are new. |
| DtlsEndToEnd.WholeFlightCompletes | liChat/Pods/BoringSSL/ssl/d1_both.cc:836-845 | Whatever happened before in any run: one transmission of the flight that gets through completes every message the receiver still waits for in its epoch, and all are handed out. |
| DtlsEndToEnd.WholeFlightCompletesHandshake | liChat/Pods/BoringSSL/ssl/d1_both.cc:836-845 | The same across the epoch change: messages, ChangeCipherSpec, new keys and the encrypted Finished. |
| DtlsEndToEnd.KnownRun | liChat/Pods/BoringSSL/ssl/dtls_record.cc:225-259 | Over every run the replay window holds only numbers of records of the epoch that were sent. |
| DtlsEndToEnd.LaterIsNewer | liChat/Pods/BoringSSL/ssl/dtls_record.cc:294-351 | So the records of a later transmission are new to the receiver, as the sender's counters only rise. |
| DtlsSender.Sender.Add | liChat/Pods/BoringSSL/ssl/d1_both.cc:555-609 | A message added joins the history and the flight under its number, and what was sent before stays valid. |
| DtlsSender.Sender.Flush | liChat/Pods/BoringSSL/ssl/d1_both.cc:782-834 | Whatever the transport refuses and wherever sealing fails, the records put on the wire are one valid transmission from the cursor, later than all before it unless a counter has overflowed. |
| DtlsSender.Sender.Resend | liChat/Pods/BoringSSL/ssl/d1_both.cc:836-845 | The same from the start of the flight; with numbers and room left and a willing transport, to its end. |
| DtlsSender.Sender.ChangeWriteState | liChat/Pods/BoringSSL/ssl/dtls_method.cc:97-107 | Over an epoch change the counters stay ahead of all that was sent in both epochs. |
| DtlsSender.SenderToReader | liChat/Pods/BoringSSL/ssl/d1_both.cc:265-438 | `EndToEnd` for all that a sender has put on the wire in any run, without assumptions about its records. |
| DtlsSender.FlightCompletes | liChat/Pods/BoringSSL/ssl/d1_both.cc:836-845 | After any run of a sender and a receiver, one whole transmission of the sender's unencrypted flight that gets through is enough for all its messages to be handed out. |
| DtlsSender.FlightCompletesHandshake | liChat/Pods/BoringSSL/ssl/d1_both.cc:836-845 | The same for the flight that ends in ChangeCipherSpec and the encrypted Finished, across the epoch change. |
| ReplayWindow.Bitmap.ShouldDiscard | liChat/Pods/BoringSSL/ssl/dtls_record.cc:140-150 | A number is discarded exactly when it is in the full set of recorded numbers or at least 64 below the maximum. |
| ReplayWindow.Bitmap.Record | liChat/Pods/BoringSSL/ssl/dtls_record.cc:155-175 | The sliding 64-bit mask keeps representing the full set, jumps wider than the window included. |
| ReplayWindow.Bitmap.Filter | liChat/Pods/BoringSSL/ssl/dtls_record.cc:225-259 | An epoch of records passes the mask exactly as it passes a filter that remembers everything. |
| ReplayWindow.AcceptedOnce | liChat/Pods/BoringSSL/ssl/dtls_record.cc:140-175 | No number is accepted twice over any run. |
| ReplayWindow.RisingAllAccepted | liChat/Pods/BoringSSL/ssl/dtls_record.cc:140-175 | Numbers that only rise are all accepted, whatever the gaps. |
| RecordNumbers.NumbersNeverReused | liChat/Pods/BoringSSL/ssl/dtls_record.cc:294-351 | Over every interleaving of seals in the current and the previous epoch and of epoch changes, all sealed records have distinct numbers if and only if no counter is used again after it has reported overflow. |
| RecordNumbers.FewSealsNeverOverflow | liChat/Pods/BoringSSL/ssl/dtls_record.cc:317-351 | Fewer than 2^48 records in each epoch, over any number of epochs, never reach the overflow, and no number is used twice. |
| RecordNumbers.OverflowReuses | liChat/Pods/BoringSSL/ssl/dtls_record.cc:317-351 | A run of 2^48 records and one more uses a number again. |
| DtlsWriter.WriteState.SealRecord | liChat/Pods/BoringSSL/ssl/dtls_record.cc:294-351 | Sealing takes the next number of the current or the previous epoch and that counter only. |
| DtlsWriter.WriteState.SealNextMessage | liChat/Pods/BoringSSL/ssl/d1_both.cc:644-734 | The record made continues the flight at the cursor, fits the space and has the length reported; a fragment that leaves part of its message behind takes all the room there is; and no progress is reported only when nothing fits. |
| DtlsWriter.WriteState.SealNextPacket | liChat/Pods/BoringSSL/ssl/d1_both.cc:739-780 | A packet is at most the MTU and full: it ends with the flight, before a message of which nothing fits, or with a fragment that leaves no room for another byte. Its records continue one another, and each successful packet lowers what is left of the flight. |
| DtlsWriter.WriteState.SendFlight | liChat/Pods/BoringSSL/ssl/d1_both.cc:782-827 | Whatever the transport refuses, the records on the wire tile the flight up to the cursor, in one write for each packet; sending stops early only where the transport does or sealing fails; with room and a willing transport the whole flight goes out. |
| DtlsWriter.WriteState.FlushFlight | liChat/Pods/BoringSSL/ssl/d1_both.cc:829-834 | Flushing completes the flight under construction and sends it from the cursor. |
| DtlsWriter.WriteState.Retransmit | liChat/Pods/BoringSSL/ssl/d1_both.cc:836-845 | A retransmission tiles the flight again from its start, with new record numbers. |
| DtlsWriter.WriteState.AddOutgoing | liChat/Pods/BoringSSL/ssl/d1_both.cc:555-594 | The first message after a completed flight starts a new one; at most seven fit; numbers rise by one per handshake message. |
| DtlsWriter.WriteState.SetWriteState | liChat/Pods/BoringSSL/ssl/dtls_method.cc:97-107 | An epoch change keeps the old counter and cipher for retransmissions. |
| DtlsFlight.AfterLowersLeft | liChat/Pods/BoringSSL/ssl/d1_both.cc:691-734 | Every record advances the cursor, messages first and then bytes, and lowers the bound on the records left. |
| DtlsFlight.TilesRebuild | liChat/Pods/BoringSSL/ssl/d1_both.cc:644-827 | The fragments sent for a message, put end to end, are its body, each byte once. |
| PbWire.EncVarintAtMostTen | liChat/Pods/nanopb/pb_encode.c:574-594 | A 64-bit value takes at most ten bytes. |
| PbWire.Dec64Encoded | liChat/Pods/nanopb/pb_decode.c:250-270 | The 64-bit varint decoder inverts the encoder, whatever follows. |
| PbWire.Dec32Agrees | liChat/Pods/nanopb/pb_decode.c:182-242 | Wherever the 32-bit decoder accepts a varint of at most ten bytes, it consumes what the 64-bit decoder does and returns its value modulo 2^32. |
| PbWire.MergeAdds | liChat/Pods/nanopb/pb_decode.c:223-228 | Or-ing a shifted group into 32 bits adds it, as long as the bits are zero. |
| PbWire.Dec32Encoded | liChat/Pods/nanopb/pb_decode.c:182-242 | It accepts every encoded 32-bit value. |
| PbWire.Dec32SignExtended | liChat/Pods/nanopb/pb_decode.c:215-224 | It accepts every negative int32 in its ten-byte sign-extended form. |
| PbWire.ZigZagInverse | liChat/Pods/nanopb/pb_decode.c:1240-1252 | ZigZag is a bijection between int64 and uint64. |
| PbWire.ZigZag64Inverse | liChat/Pods/nanopb/pb_encode.c:596-605 | The shift and the complement on 64-bit integers, with their wrap-around, compute that bijection and invert each other. |
| PbWire.ZigZagBits | liChat/Pods/nanopb/pb_decode.c:1240-1252 | The same on 64-bit vectors. |
| PbWire.FixedInverse | liChat/Pods/nanopb/pb_decode.c:1254-1286 | Little-endian fixed-width numbers are read back. |
| PbWire.DecTagEncoded | liChat/Pods/nanopb/pb_decode.c:293-314 | A tag is read back with its wire type, and never taken for the end of a message. |
| PbEncode.OStream.Write | liChat/Pods/nanopb/pb_encode.c:101-119 | A write succeeds exactly when it fits, appends exactly its bytes, and touches nothing outside the free part of the stream. |
| PbEncode.EncodeVarint | liChat/Pods/nanopb/pb_encode.c:574-594 | The ten-byte buffer loop writes the varint of the value. |
| PbEncode.EncodeFixed | liChat/Pods/nanopb/pb_encode.c:607-632 | Four or eight bytes, least significant first. |
| PbEncode.EncodeString | liChat/Pods/nanopb/pb_encode.c:674-680 | A length and that many bytes. |
| PbEncode.EncodeTagFor | liChat/Pods/nanopb/pb_encode.c:641-672 | The tag of a field with the wire type of its C type; `PbBytes.TagNumber` says which number that is. |
| PbBytes.TagNumber | liChat/Pods/nanopb/pb_encode.c:641-672 | In numbers: eight times the tag, plus 0 for the varint types, 1 for fixed64, 2 for bytes, strings, fixed-length bytes and submessages, and 5 for fixed32. |
| PbBytes.PackedBytes | liChat/Pods/nanopb/pb_encode.c:143-187 | A packed array is one tag with wire type 2, the length, and the elements. |
| PbBytes.VarintByte | liChat/Pods/nanopb/pb_encode.c:574-594 | Byte i of a varint is the i-th group of seven bits, with the top bit on all bytes but the last; there are no more of them than needed. |
| PbBytes.FixedByte | liChat/Pods/nanopb/pb_encode.c:607-632 | Byte i of a fixed-width number is the i-th least significant one. |
| PbBytes.ScalarMeans | liChat/Pods/nanopb/pb_encode.c:634-672 | A number is written as the one 64-bit varint that means it: two's complement for int32 and int64, ZigZag for sint32 and sint64. |
| PbEncode.PackedSize | liChat/Pods/nanopb/pb_encode.c:147-172 | The size of a packed array, computed or found by a sizing pass, is the size of what is then written. |
| PbEncode.EncodeArray | liChat/Pods/nanopb/pb_encode.c:126-211 | An array is written exactly when it is not too long and fits, packed whenever its type allows it. |
| PbEncode.EncodeSubmessage | liChat/Pods/nanopb/pb_encode.c:682-730 | The length prefix is the size of the message that follows, at every depth. |
| PbEncode.EncodeThrough | liChat/Pods/nanopb/pb_encode.c:706-729 | The second pass writes exactly what the first one counted: the size cannot have changed. |
| PbEncode.CheckDefault | liChat/Pods/nanopb/pb_encode.c:215-303 | The proto3 default test, recursive over submessages, answers as specified: of a fixed-count array it looks at the first four bytes. |
| PbEncode.EncodeFieldOf | liChat/Pods/nanopb/pb_encode.c:307-392 | One field, by its rule of presence. |
| PbEncode.Encode | liChat/Pods/nanopb/pb_encode.c:494-516 | Encoding succeeds exactly when the message can be encoded and fits what is left of the stream, and then writes exactly its encoding; on a sizing stream it counts the same bytes. |
| PbEncode.EncodeNullTerminated | liChat/Pods/nanopb/pb_encode.c:523-531 | The same, and a zero byte. |
| PbEncode.EncodedSize | liChat/Pods/nanopb/pb_encode.c:533-542 | The size reported is the number of bytes encoding writes. |
| PbDecode.IStream.Read | liChat/Pods/nanopb/pb_decode.c:100-132 | Reading takes exactly the next bytes, or fails without enough of them. |
| PbDecode.DecodeVarint32 | liChat/Pods/nanopb/pb_decode.c:182-242 | The loop, with its 8-bit bit position and its or-ing, returns the value and the rest that the specification gives, and tells the end of the stream apart. |
| PbDecode.DecodeVarint | liChat/Pods/nanopb/pb_decode.c:250-270 | The same for 64 bits. |
| PbDecode.DecodeTag | liChat/Pods/nanopb/pb_decode.c:293-314 | A tag, the end of the message, or an error. |
| PbDecode.SkipField | liChat/Pods/nanopb/pb_decode.c:316-326 | An unknown field is skipped by its wire type; `PbBytes.UnknownField` says how far. |
| PbBytes.VarintLimits | liChat/Pods/nanopb/pb_decode.c:250-270 | A varint may be padded to ten bytes and counts modulo 2^64; a longer one, or one without an end, is an error. |
| PbBytes.UnknownField | liChat/Pods/nanopb/pb_decode.c:316-326 | A field that the reader lacks is dropped from its tag to its last byte: a varint, eight bytes, a length and that many bytes, or four bytes, by the wire types 0, 1, 2 and 5. |
| PbBytes.NotSkipped | liChat/Pods/nanopb/pb_decode.c:316-326 | Every other wire type, and a payload cut short, is an error. |
| PbDecode.MakeSubstream | liChat/Pods/nanopb/pb_decode.c:367-380 | The next length-delimited bytes become a stream of their own, and the parent goes on after them. |
| PbDecode.IStream.Close | liChat/Pods/nanopb/pb_decode.c:382-395 | Closing a substream continues after it, whether or not all of it was read. |
| PbDecode.DecodeScalar | liChat/Pods/nanopb/pb_decode.c:1289-1389 | Integers are cut to their C type with the overflow check of the source. |
| PbBytes.ScalarReads | liChat/Pods/nanopb/pb_decode.c:1289-1372 | Any 64-bit varint is read as the number that it means in a field of this C type, and refused exactly if it means none. |
| PbBytes.NumberField | liChat/Pods/nanopb/pb_decode.c:1289-1372 | The same for a whole message of one number, from its bytes up. |
| PbBytes.BytesField | liChat/Pods/nanopb/pb_decode.c:1391-1508 | Likewise of one string or run of bytes: what it becomes, and exactly when there is no room for it. |
| PbDecode.DecodePacked | liChat/Pods/nanopb/pb_decode.c:422-447 | A packed array fills the elements up to the capacity and overflows beyond. |
| PbDecode.SetToDefaults | liChat/Pods/nanopb/pb_decode.c:812-895 | The walk over the fields sets exactly the specified initial message: clearing its count zeroes a fixed-count array as far as four bytes reach. |
| PbDecode.DecodeValue | liChat/Pods/nanopb/pb_decode.c:1391-1508 | Bytes, strings, fixed-length bytes and submessages through their substream. |
| PbDecode.DecodeField | liChat/Pods/nanopb/pb_decode.c:401-475 | One field into the struct, by its rule of presence. |
| PbRepeated.PiecesDecode | liChat/Pods/nanopb/pb_decode.c:415-460 | An array of numbers decodes from its bytes to exactly its elements in their order however they are sent: packed, one by one, in several pieces, and in any mix. One element too many is an error, and so is a fixed-count array that comes short. |
| PbMerge.LastValueCounts | liChat/Pods/nanopb/pb_decode.c:405-413 | Of a single value that comes any number of times, the last one counts. |
| PbMerge.UnreadKept | liChat/Pods/nanopb/pb_decode.c:901-1008 | A field that does not come, and of whose union no member does, keeps its value. |
| PbMerge.EmbeddedAdds | liChat/Pods/nanopb/pb_decode.c:1463-1485 | An embedded message that comes twice is read into the one that is there: what came the first time and not the second stays. |
| PbDecode.DecodeFound | liChat/Pods/nanopb/pb_decode.c:965-999 | Fixed-count and required-field bookkeeping around one field. |
| PbDecode.DecodeNoInit | liChat/Pods/nanopb/pb_decode.c:901-1049 | The loop with its iterator, its two words of required bits and its fixed-count counter decodes exactly what the specification decodes, and fails exactly when it does. |
| PbDecode.Decode | liChat/Pods/nanopb/pb_decode.c:1051-1063 | The same after initialisation. |
| PbFields.FieldIter.Next | liChat/Pods/nanopb/pb_common.c:20-76 | Stepping keeps every iterator field equal to that of a fresh walk to the position, unions included. |
| PbFields.FieldIter.Find | liChat/Pods/nanopb/pb_common.c:78-95 | From any position the search ends, finds a tag exactly when the table has it, and otherwise comes back to where it began. |
| PbFields.FieldIter.CountRequired | liChat/Pods/nanopb/pb_decode.c:1010-1027 | From any position, the end of the table is found with the number of required fields. |
| PbFields.UnionShared | liChat/Pods/nanopb/pb_common.c:44-50 | The members of a union share their storage and their tag. |
| PbFields.FieldsApart | liChat/Pods/nanopb/pb_common.c:51-73 | Fields that are not in one union do not overlap. |
| PbFields.FieldsSeen.Mark | liChat/Pods/nanopb/pb_decode.c:990-995 | The two words represent the set of required fields seen. |
| PbFields.FieldsSeen.Complete | liChat/Pods/nanopb/pb_decode.c:1028-1046 | The whole-word and remaining-bit comparisons pass exactly when each of the first 64 required fields was seen. |
| PbRequired.AcceptedWhenRequiredRead | liChat/Pods/nanopb/pb_decode.c:988-1046 | For any order and number of fields, decoding that is otherwise free of errors is accepted exactly when every one of the first 64 required fields occurred. |
| PbRequired.PresentWhenRead | liChat/Pods/nanopb/pb_decode.c:405-475 | For all bytes that are accepted: the flag of an optional field is set exactly if it came, and of a union exactly the member that came last is present. |
| PbAnyInput.AcceptedFits | liChat/Pods/nanopb/pb_decode.c:901-1063 | For all bytes that are accepted, at every depth: every number fits its C type, every string and array its place, and at most one member of a union is chosen. |
| PbWritten.EncodesExactly | liChat/Pods/nanopb/pb_encode.c:494-516 | Exactly which messages can be encoded: a value that does not fit its field, or an array that is too long, is refused and not cut. |
| PbWritten.WrittenUnlessZero | liChat/Pods/nanopb/pb_encode.c:243-303 | A proto3 number or string is left out exactly if it is zero or empty; bytes of a fixed length never are. |
| PbWritten.SubmessageWritten | liChat/Pods/nanopb/pb_encode.c:261-279 | A proto3 submessage is left out exactly if each of its fields is written as nothing, or is a fixed-count array whose first bytes read as a count of zero. |
| PbWritten.CountIsFirstBytes | liChat/Pods/nanopb/pb_encode.c:225-229 | A fixed-count array of unsigned integers reads so exactly if its first four bytes in memory are zero. |
| PbRoundTrip.UnknownSkipped | liChat/Pods/nanopb/pb_decode.c:316-326 | A field that the reader lacks is consumed to its last byte and changes nothing. |
| PbRoundTrip.MessageDecodes | liChat/Pods/nanopb/pb_decode.c:901-1063 | For recursive schemas, any sub-schema of the reader and any bytes after a zero, decoding what was encoded gives the message as read. |
| PbEvolution.WellFormedEncodes | liChat/Pods/nanopb/pb_encode.c:494-516 | Every well-formed message can be encoded. |
| PbEvolution.ElidedIsDefault | liChat/Pods/nanopb/pb_encode.c:215-303 | A submessage that passes for default is what decoding starts from exactly when each of its fixed-count arrays starts out as zeros and is all zeros. |
| PbEvolution.ReadsProjection | liChat/Pods/nanopb/pb_encode.c:320-324 | What is read is the projection onto the reader's schema if and only if every fixed-count array in a submessage left out is one that the reader starts with. |
| PbEvolution.SchemaEvolution | liChat/Pods/nanopb/pb_decode.c:933-962 | Schema evolution, with the exact condition: decoding under any sub-schema succeeds, and yields the projection exactly when the message is faithful. |
| PbEvolution.RoundTrip | liChat/Pods/nanopb/pb_decode.c:901-1063 | The round trip of pb_encode and pb_decode, exactly when it holds. |
| PbEvolution.RoundTripNullTerminated | liChat/Pods/nanopb/pb_encode.c:523-531 | The round trip of a null-terminated message, with anything behind it. |
| PbEvolution.AlwaysFaithful | liChat/Pods/nanopb/pb_encode.c:225-229 | Schemas whose proto3 submessages hold only fixed-count arrays that four bytes settle lose nothing, for every message, layout and destination. |
| PbEvolution.HarmlessIsZero | liChat/Pods/nanopb/pb_decode.c:840-846 | An array that four bytes settle is all zeros whenever it is taken for empty. |
| PbEvolution.FixedArrayAlone | liChat/Pods/nanopb/pb_encode.c:225-229 | An array of uint32 whose first is zero, alone in a proto3 submessage, is left out, and survives exactly when it is all zeros and either has one element or the destination was zeroed. |
| PbEvolution.FixedArrayKept | liChat/Pods/nanopb/pb_decode.c:840-846 | A single zero in such an array is left out and comes back, whatever the destination held. |
| PbEvolution.FixedArrayLost | liChat/Pods/nanopb/pb_encode.c:225-229 | A concrete message that does not survive under any layout: zero and five in a fixed-count array alone in a proto3 submessage. |
| ClientHandshake.ClientMachine.StartConnectStep | liChat/Pods/BoringSSL/ssl/handshake_client.cc:385-452 | The ClientHello starts the flight and the transcript, and the client waits for it to be flushed. On the script it is a move of the script, and it keeps `Safe` whatever was read or answered. |
| ClientHandshake.ClientMachine.EnterEarlyDataStep | liChat/Pods/BoringSSL/ssl/handshake_client.cc:454-489 | Without early data nothing is sent, read or waited for. On the script it is a move of the script, and it keeps `Safe` whatever was read or answered. |
| ClientHandshake.ClientMachine.ReadServerHelloStep | liChat/Pods/BoringSSL/ssl/handshake_client.cc:535-759 | It waits without a message; a ServerHello is taken and hashed once and decides between the full and the resumed path; any other message is fatal. On the script it is a move of the script, and it keeps `Safe` whatever was read or answered. |
| ClientHandshake.ClientMachine.ReadServerCertificateStep | liChat/Pods/BoringSSL/ssl/handshake_client.cc:771-819 | In a certificate cipher, and only there, a non-empty Certificate is taken and hashed; an empty one or another message is fatal. On the script it is a move of the script, and it keeps `Safe` whatever was read or answered. |
| ClientHandshake.ClientMachine.ReadCertificateStatusStep | liChat/Pods/BoringSSL/ssl/handshake_client.cc:821-869 | Where one was negotiated a CertificateStatus is taken, and any other message is left for the next state. On the script it is a move of the script, and it keeps `Safe` whatever was read or answered. |
| ClientHandshake.ClientMachine.VerifyServerCertificateStep | liChat/Pods/BoringSSL/ssl/handshake_client.cc:871-889 | In a certificate cipher the client goes on exactly if the verification succeeded, waits while it is pending, and stops if it failed. On the script it is a move of the script, and it keeps `Safe` whatever was read or answered. |
| ClientHandshake.ClientMachine.ReadServerKeyExchangeStep | liChat/Pods/BoringSSL/ssl/handshake_client.cc:891-1071 | Required with an ephemeral key exchange, optional with a plain PSK, refused otherwise; in a certificate cipher taken exactly with a valid signature. On the script it is a move of the script, and it keeps `Safe` whatever was read or answered. |
| ClientHandshake.ClientMachine.ReadCertificateRequestStep | liChat/Pods/BoringSSL/ssl/handshake_client.cc:1073-1143 | A CertificateRequest is taken, hashed and noted; a ServerHelloDone is left unread; anything else is fatal. On the script it is a move of the script, and it keeps `Safe` whatever was read or answered. |
| ClientHandshake.ClientMachine.ReadServerHelloDoneStep | liChat/Pods/BoringSSL/ssl/handshake_client.cc:1145-1167 | Exactly a ServerHelloDone is taken and hashed. On the script it is a move of the script, and it keeps `Safe` whatever was read or answered. |
| ClientHandshake.ClientMachine.SendClientCertificateStep | liChat/Pods/BoringSSL/ssl/handshake_client.cc:1169-1215 | Sent exactly when asked for and once the callback is done, empty without a certificate; a pending callback sends and hashes nothing. On the script it is a move of the script, and it keeps `Safe` whatever was read or answered. |
| ClientHandshake.ClientMachine.SendClientKeyExchangeStep | liChat/Pods/BoringSSL/ssl/handshake_client.cc:1220-1371 | The ClientKeyExchange is sent and hashed. On the script it is a move of the script, and it keeps `Safe` whatever was read or answered. |
| ClientHandshake.ClientMachine.SendClientCertificateVerifyStep | liChat/Pods/BoringSSL/ssl/handshake_client.cc:1373-1455 | Sent exactly when asked for, with a certificate and a finished signature; a pending signature sends and hashes nothing. On the script it is a move of the script, and it keeps `Safe` whatever was read or answered. |
| ClientHandshake.ClientMachine.SendClientFinishedStep | liChat/Pods/BoringSSL/ssl/handshake_client.cc:1457-1512 | After the Channel ID lookup, which may retry, exactly ChangeCipherSpec, NextProto, ChannelID and a Finished over all that was hashed before it. On the script it is a move of the script, and it keeps `Safe` whatever was read or answered. |
| ClientHandshake.ClientMachine.FinishFlightStep | liChat/Pods/BoringSSL/ssl/handshake_client.cc:1538-1564 | Resumed, it finishes; otherwise it goes on, and False Start only returns to the caller. On the script it is a move of the script, and it keeps `Safe` whatever was read or answered. |
| ClientHandshake.ClientMachine.ReadSessionTicketStep | liChat/Pods/BoringSSL/ssl/handshake_client.cc:1566-1647 | A ticket is taken and hashed exactly where one is expected; then the client waits for the ChangeCipherSpec. On the script it is a move of the script, and it keeps `Safe` whatever was read or answered. |
| ClientHandshake.ClientMachine.ProcessChangeCipherSpecStep | liChat/Pods/BoringSSL/ssl/handshake_client.cc:1649-1656 | The read keys change, and nothing else. On the script it is a move of the script, and it keeps `Safe` whatever was read or answered. |
| ClientHandshake.ClientMachine.ReadServerFinishedStep | liChat/Pods/BoringSSL/ssl/handshake_client.cc:1658-1672 | Exactly a Finished over the client's own transcript is taken; any other message is fatal. On the script it is a move of the script, and it keeps `Safe` whatever was read or answered. |
| ClientHandshake.ClientMachine.FinishHandshakeStep | liChat/Pods/BoringSSL/ssl/handshake_client.cc:1674-1705 | The handshake is done. On the script it is a move of the script, and it keeps `Safe` whatever was read or answered. |
| ClientHandshake.ClientMachine.Handshake | liChat/Pods/BoringSSL/ssl/handshake_client.cc:1707-1789 | The driver terminates; it keeps the client safe and on the flow of the script, and on the script with favourable answers every step is a move of it. |
| ClientHandshake.ClientMachine.DoneIsSafe | liChat/Pods/BoringSSL/ssl/handshake_client.cc:1649-1705 | Whatever the server sent: a client that is done changed its read keys and then took a Finished over exactly what it had hashed by then. |
| ClientHandshake.StepFollows | liChat/Pods/BoringSSL/ssl/handshake_client.cc:1707-1789 | Every step, with any server and any answers, says or hears the next messages of the script, or nothing. |
| ClientHandshake.ClientMachine.DoneFollowed | liChat/Pods/BoringSSL/ssl/handshake_client.cc:1674-1705 | Whatever the server sent: a client that is done has said and heard exactly the messages of the script, in its order, for terms that fit together and that its own are part of. |
| ClientHandshake.ClientMachine.VerifiedBeforeKeyExchange | liChat/Pods/BoringSSL/ssl/handshake_client.cc:871-889 | Whatever the server sent: before a ClientKeyExchange in a certificate cipher the verification of the certificate had been asked for and had succeeded. |
| ClientHandshake.ClientMachine.Obey | liChat/Pods/BoringSSL/ssl/handshake.cc:491-628 | Whatever the caller answers and the network delivers, the client stays safe, and only answers really given are on record. |
| ClientHandshake.ClientMachine.Run | liChat/Pods/BoringSSL/ssl/handshake_client.cc:1707-1789 | Any run against any peer keeps the flow of the script, and if it ends in state_done it verified the server's Finished after the read keys changed. |
| ServerHandshake.ServerMachine.StartAcceptStep | liChat/Pods/BoringSSL/ssl/handshake_server.cc:426-430 | The server goes on to read a ClientHello. On the script it is a move of the script, and it keeps `Safe` whatever was read or answered. |
| ServerHandshake.ServerMachine.ReadClientHelloStep | liChat/Pods/BoringSSL/ssl/handshake_server.cc:432-510 | The ClientHello stays unread and unhashed, however often the early callback retries. On the script it is a move of the script, and it keeps `Safe` whatever was read or answered. |
| ServerHandshake.ServerMachine.SelectCertificateStep | liChat/Pods/BoringSSL/ssl/handshake_server.cc:512-560 | And however often the certificate callback does. On the script it is a move of the script, and it keeps `Safe` whatever was read or answered. |
| ServerHandshake.ServerMachine.SelectParametersStep | liChat/Pods/BoringSSL/ssl/handshake_server.cc:572-684 | It is taken and hashed once, exactly when the session lookup is done. On the script it is a move of the script, and it keeps `Safe` whatever was read or answered. |
| ServerHandshake.ServerMachine.SendServerHelloStep | liChat/Pods/BoringSSL/ssl/handshake_server.cc:686-752 | The ServerHello is sent and hashed and the path chosen. On the script it is a move of the script, and it keeps `Safe` whatever was read or answered. |
| ServerHandshake.ServerMachine.SendServerCertificateStep | liChat/Pods/BoringSSL/ssl/handshake_server.cc:754-840 | Exactly Certificate and, if there is one, CertificateStatus, in a certificate cipher. On the script it is a move of the script, and it keeps `Safe` whatever was read or answered. |
| ServerHandshake.ServerMachine.SendServerKeyExchangeStep | liChat/Pods/BoringSSL/ssl/handshake_server.cc:842-912 | Sent exactly when needed; in a certificate cipher once it is signed, and a pending signature sends and hashes nothing. On the script it is a move of the script, and it keeps `Safe` whatever was read or answered. |
| ServerHandshake.ServerMachine.SendServerHelloDoneStep | liChat/Pods/BoringSSL/ssl/handshake_server.cc:914-947 | CertificateRequest if wanted, and ServerHelloDone, flushed. On the script it is a move of the script, and it keeps `Safe` whatever was read or answered. |
| ServerHandshake.ServerMachine.ReadClientCertificateStep | liChat/Pods/BoringSSL/ssl/handshake_server.cc:949-1040 | When asked for, a Certificate is taken, and the client has shown one exactly if it is not empty; a required one may not be. On the script it is a move of the script, and it keeps `Safe` whatever was read or answered. |
| ServerHandshake.ServerMachine.VerifyClientCertificateStep | liChat/Pods/BoringSSL/ssl/handshake_server.cc:1042-1056 | A certificate shown goes through exactly if its verification succeeded. On the script it is a move of the script, and it keeps `Safe` whatever was read or answered. |
| ServerHandshake.ServerMachine.ReadClientKeyExchangeStep | liChat/Pods/BoringSSL/ssl/handshake_server.cc:1058-1267 | The ClientKeyExchange is taken once the private key operation is done, and stays unread before. On the script it is a move of the script, and it keeps `Safe` whatever was read or answered. |
| ServerHandshake.ServerMachine.ReadClientCertificateVerifyStep | liChat/Pods/BoringSSL/ssl/handshake_server.cc:1269-1363 | A CertificateVerify with a valid signature is taken exactly from a client that showed a certificate. On the script it is a move of the script, and it keeps `Safe` whatever was read or answered. |
| ServerHandshake.ServerMachine.AwaitChangeCipherSpecStep | liChat/Pods/BoringSSL/ssl/handshake_server.cc:1365-1368 | The server waits for the ChangeCipherSpec. On the script it is a move of the script, and it keeps `Safe` whatever was read or answered. |
| ServerHandshake.ServerMachine.ProcessChangeCipherSpecStep | liChat/Pods/BoringSSL/ssl/handshake_server.cc:1370-1377 | The read keys change, and nothing else. On the script it is a move of the script, and it keeps `Safe` whatever was read or answered. |
| ServerHandshake.ServerMachine.ReadNextProtoStep | liChat/Pods/BoringSSL/ssl/handshake_server.cc:1379-1413 | A NextProto is taken exactly when negotiated. On the script it is a move of the script, and it keeps `Safe` whatever was read or answered. |
| ServerHandshake.ServerMachine.ReadChannelIdStep | liChat/Pods/BoringSSL/ssl/handshake_server.cc:1415-1437 | A ChannelID with a valid signature is taken exactly when negotiated. On the script it is a move of the script, and it keeps `Safe` whatever was read or answered. |
| ServerHandshake.ServerMachine.ReadClientFinishedStep | liChat/Pods/BoringSSL/ssl/handshake_server.cc:1439-1461 | Exactly a Finished over the server's own transcript is taken; any other message is fatal. On the script it is a move of the script, and it keeps `Safe` whatever was read or answered. |
| ServerHandshake.ServerMachine.SendServerFinishedStep | liChat/Pods/BoringSSL/ssl/handshake_server.cc:1463-1509 | Exactly NewSessionTicket if expected, ChangeCipherSpec, and a Finished over all that was hashed before it; then the path of the session. On the script it is a move of the script, and it keeps `Safe` whatever was read or answered. |
| ServerHandshake.ServerMachine.FinishHandshakeStep | liChat/Pods/BoringSSL/ssl/handshake_server.cc:1511-1537 | The handshake is done. On the script it is a move of the script, and it keeps `Safe` whatever was read or answered. |
| ServerHandshake.ServerMachine.Handshake | liChat/Pods/BoringSSL/ssl/handshake_server.cc:1539-1621 | The driver terminates; it keeps the server safe and on the flow of the script, and on the script with favourable answers every step is a move of it. |
| ServerHandshake.ServerMachine.DoneIsSafe | liChat/Pods/BoringSSL/ssl/handshake_server.cc:1370-1537 | Whatever the client sent: a server that is done changed its read keys and then took a Finished over exactly what it had hashed; a client that showed a certificate had it verified and sent a CertificateVerify with a valid signature. |
| ServerHandshake.StepFollows | liChat/Pods/BoringSSL/ssl/handshake_server.cc:1539-1621 | Every step, with any client and any answers, says or hears the next messages of the script, or nothing; and a client that has to show a certificate has shown one from then on. |
| ServerHandshake.ServerMachine.DoneFollowed | liChat/Pods/BoringSSL/ssl/handshake_server.cc:1022-1027 | Whatever the client sent: a server that is done has heard a certificate if it requires one, and has said and heard exactly the messages of the script, in its order, for a client that has a certificate exactly if it showed one. |
| ServerHandshake.ServerMachine.Obey | liChat/Pods/BoringSSL/ssl/handshake.cc:491-628 | The same for the server. |
| ServerHandshake.ServerMachine.Run | liChat/Pods/BoringSSL/ssl/handshake_server.cc:1539-1621 | Any run against any peer keeps the flow of the script, and if it ends in state_done it verified the client's Finished after the read keys changed, and a required certificate was shown. |
| HandshakeProduct.AlwaysWelcome | liChat/Pods/BoringSSL/ssl/handshake.cc:165-174 | In every reachable product state, what a side has read is what it expects, down to the transcript under a Finished. |
| HandshakeProduct.StepKeeps | liChat/Pods/BoringSSL/ssl/handshake.cc:491-628 | Every step of either side, the transport's included, keeps the product invariant, and none refuses anything. |
| HandshakeProduct.StepDescends | liChat/Pods/BoringSSL/ssl/handshake.cc:491-628 | Every step lowers the rank of the product, except a pending lookup and a transport that takes nothing, which leave it. |
| HandshakeProduct.Progress | liChat/Pods/BoringSSL/ssl/handshake.cc:491-628 | Until both sides are done one of them can act: no deadlock. |
| HandshakeProduct.EndsInAgreement | liChat/Pods/BoringSSL/ssl/handshake.cc:380-476 | When both are done nothing is in flight, the transcripts are equal and each reads under the keys the other writes under. |
| HandshakeProduct.RunsAreSafe | liChat/Pods/BoringSSL/ssl/handshake.cc:491-628 | Over every run nothing is refused, the transcripts follow the script, and the number of turns that are neither idle nor retries is bounded. |
| HandshakeProduct.RunsEndInAgreement | liChat/Pods/BoringSSL/ssl/handshake.cc:215-222 | No run stops before both sides are done, and then nothing is in flight or unread and both have hashed each message of the script once, in its order. |
| HandshakeProduct.FairRunsComplete | liChat/Pods/BoringSSL/ssl/handshake.cc:491-628 | From every reachable state, under every schedule that gives both sides ready turns often enough, both sides end in state_done, nothing in flight, with one transcript and matching keys. |
| HandshakeProduct.FinishedAsExpected | liChat/Pods/BoringSSL/ssl/handshake.cc:380-429 | The Finished a side is about to read covers exactly what that side has hashed. |
| HandshakeProduct.EveryFinishedCovers | liChat/Pods/BoringSSL/ssl/handshake.cc:431-476 | So does every Finished under way, counted from where it will be read. |
| HandshakeConnection.Connection.ClientActs | liChat/Pods/BoringSSL/ssl/handshake.cc:491-628 | One turn of the client's loop, with the real machine, is a turn of the product: idle only with nothing to do, and not a stutter if the call is ready. |
| HandshakeConnection.Connection.ServerActs | liChat/Pods/BoringSSL/ssl/handshake.cc:491-628 | The same for the server. |
| HandshakeConnection.Connection.Follow | liChat/Pods/BoringSSL/ssl/handshake.cc:491-628 | The two machines under any schedule run as the product does; nothing is refused; and once both sides have had 3704 ready turns in rounds both are in state_done with empty channels and one transcript. |
| CipherChoice.Scan | liChat/Pods/BoringSSL/ssl/handshake_server.cc:388-424 | The scan with its running minimum finds the best cipher of the first equal-preference group with an acceptable one, or none if no finished group has any. |
| CipherChoice.ChooseCipher | liChat/Pods/BoringSSL/ssl/handshake_server.cc:357-424 | With server preference the choice is the client's earliest among the acceptable ciphers of the first such group; with client preference the client's first acceptable cipher; none exactly when there is none. |
| CipherChoice.ServerChoiceUnique | liChat/Pods/BoringSSL/ssl/handshake_server.cc:357-424 | That promise fixes the choice. |
| CipherChoice.AllClosedExactly | liChat/Pods/BoringSSL/ssl/handshake_server.cc:365-369 | Every group is finished exactly when the last flag is zero; an unfinished last group is never decided. |
| TlsWriter.ConsumesExactly | liChat/Pods/BoringSSL/ssl/ssl_buffer.cc:90-97 | Consuming part of a buffer keeps its place, whatever the part and the memory, exactly when the contents end within the first 65536 bytes. |
| TlsWriter.LargestBufferLosesItsPlace | liChat/Pods/BoringSSL/ssl/ssl_buffer.cc:47-81 | EnsureCap(7, 65530), a fill and Consume(65529): one byte is left, and the buffer hands out another. |
| TlsWriter.SslBuffer.EnsureCap | liChat/Pods/BoringSSL/ssl/ssl_buffer.cc:47-81 | Growing keeps the contents wherever the allocator aligns them, and fails exactly above 65535 bytes. |
| TlsWriter.SslBuffer.Append | liChat/Pods/BoringSSL/ssl/ssl_buffer.cc:83-88 | Writing appends to the contents. |
| TlsWriter.SslBuffer.Consume | liChat/Pods/BoringSSL/ssl/ssl_buffer.cc:90-97 | The 16-bit offset advances and may wrap; what is left is the rest of the contents if they end within 65536 bytes. |
| TlsWriter.Writer.FlushBuffer | liChat/Pods/BoringSSL/ssl/ssl_buffer.cc:239-252 | Whatever the transport takes: it has a prefix of the records, then comes the buffer, then the flight. It succeeds exactly if the transport takes the whole buffer before it refuses, and gives it as much as it takes. |
| TlsWriter.Writer.AddMessage | liChat/Pods/BoringSSL/ssl/s3_both.cc:184-205 | The log grows by exactly the pieces of the message, in order and at least one, or by a first part of them; it is cut short exactly if one of them cannot be sealed. |
| TlsWriter.Writer.AddChangeCipherSpec | liChat/Pods/BoringSSL/ssl/s3_both.cc:207-219 | One record of the one byte, unless it cannot be sealed. |
| TlsWriter.PiecesRebuild | liChat/Pods/BoringSSL/ssl/s3_both.cc:184-205 | The pieces of a message are the message, none longer than a record, none but the last shorter, and no empty one behind others. |
| TlsWriter.Writer.FlushFlight | liChat/Pods/BoringSSL/ssl/s3_both.cc:231-279 | The write buffer goes out before the flight, then the transport is flushed. It fails only at an answer of the transport that refuses, all that was taken before it being on the wire; on success there is no flight left and every record sealed has been given to the transport. |
| TlsWriter.Writer.WriteFlight | liChat/Pods/BoringSSL/ssl/s3_both.cc:258-270 | The flight goes out as far as the transport takes it, from where it had got to, and to its end exactly if no answer before that refuses. |
| TlsWriter.Writer.WriteAndFlush | liChat/Pods/BoringSSL/ssl/s3_both.cc:258-278 | The same with the flush of the transport: the flight is dropped exactly if both succeed. |
| TlsWriter.Writer.WritePending | liChat/Pods/BoringSSL/ssl/s3_pkt.cc:202-218 | A retry is refused, or flushes the pending record and reports its length; it succeeds exactly if it passes the same buffer, no shorter, and the transport takes the rest. |
| TlsWriter.Writer.DoWrite | liChat/Pods/BoringSSL/ssl/s3_pkt.cc:221-289 | A chunk is sealed as one record behind the unflushed flight, or not at all; a retry seals nothing; it succeeds exactly if there is room, sealing works and the transport takes all of it. |
| TlsWriter.Writer.WriteAppData | liChat/Pods/BoringSSL/ssl/s3_pkt.cc:129-200 | For any caller: what is sealed is the input from where sealing had got to as far as the call got, each byte once and in order; a call with fewer bytes than are done only forgets the progress. With a willing transport and room it writes, to the end of the input unless partial writes are on. |
| TlsWriter.Writer.WireIsPrefix | liChat/Pods/BoringSSL/ssl/ssl_buffer.cc:239-252 | What the transport has been given is a prefix of the records sealed, in the order of sealing, and all of them once nothing waits. |
| TlsWriter.CallKeepsOnce | liChat/Pods/BoringSSL/ssl/s3_pkt.cc:129-200 | A call with the next bytes of the caller's stream keeps exactly-once sealing exactly if it passes no fewer bytes than are done. |
| TlsWriter.Caller.Write | liChat/Pods/BoringSSL/ssl/s3_pkt.cc:129-200 | The same for the real writer and a caller that counts what is reported written. |
| TlsWriter.Caller.Run | liChat/Pods/BoringSSL/ssl/s3_pkt.cc:129-289 | Over any run of messages, flushes and writes, also behind a flight not flushed yet, and any transport: the wire is a prefix of the records in order, and their application data is the stream up to what is done. |
| TlsWriter.ShortRetrySealsTwice | liChat/Pods/BoringSSL/ssl/s3_pkt.cc:144-160 | A run with a short retry in which a byte is sealed twice. |
| TlsWriter.SmallFlightsAreRoomy | liChat/Pods/BoringSSL/ssl/s3_pkt.cc:240-266 | Behind a flight short enough every record stays within reach of a 16-bit offset. |
| Refcount.LockedCount.Increment | liChat/Pods/BoringSSL/crypto/refcount_lock.c:29-35 | The locked increment saturates. |
| Refcount.LockedCount.DecrementAndTestZero | liChat/Pods/BoringSSL/crypto/refcount_lock.c:37-51 | The locked decrement, with its result. |
| Refcount.StepLinearizes | liChat/Pods/BoringSSL/crypto/refcount_c11.c:37-65 | Each atomic access of any thread, spurious failures included, extends or keeps one legal order of locked operations in which each call takes effect once, between its start and its return, with its result. |
| Refcount.RunsLinearize | liChat/Pods/BoringSSL/crypto/refcount_c11.c:37-65 | Hence every interleaving of any number of threads is linearizable to the locked count. |
| Refcount.RunsCountExactly | liChat/Pods/BoringSSL/crypto/refcount_c11.c:37-65 | In every run the count is the initial one plus increments less decrements, or saturated. |
| Refcount.CountIsExact | liChat/Pods/BoringSSL/crypto/refcount_lock.c:29-51 | Saturation is absorbing, and below it the count is exact. |
| Refcount.ZeroExactlyOnReachingZero | liChat/Pods/BoringSSL/crypto/refcount_c11.c:48-65 | A decrement returns 1 exactly when it is the one that takes the count to zero. |

## Left out

- Cryptography: sealing, opening, signatures, key derivation and certificate chains are abstract; a sealed record is its content, a MAC is the transcript it covers, verification is an answer from outside.
- SSL 3.0, TLS 1.3, early data, renegotiation, HelloVerifyRequest, V2ClientHello, handoff, alerts and shutdown.
- Timers, MTU queries, clocks, callbacks for messages and information, error queues, allocation failure.
- DtlsReader.ReadState.OpenHandshake: records that fail decryption are discarded by the AEAD before they reach the model; epoch and sequence numbers do not wrap at 16 and 48 bits on the read side.
- DtlsReader.ReadState.AcceptFragment: a fragment seven ahead of the read sequence passes the range check and then fails as an internal error, as in the source; flights within the limit never contain one.
- DtlsWriter.WriteState.SendFlight: a seal failure in the middle of a packet does not restore the cursor in the source, and the records already in that packet are then lost; the contract says so instead of claiming a tiling.
- DtlsSender.Sender.Add: a ChangeCipherSpec is added in epoch 0 only, since renegotiation is left out.
- DtlsEndToEnd.EndToEnd: the receiver refuses records above 16384 bytes while the sender has no such limit, so the MTU is one under which fragments stay below it; the safety half makes no assumption about epochs, and the liveness half assumes what DTLS 1.0 and 1.2 handshakes do (`OneEncrypted`, `Disciplined`): only the last message, Finished, goes out in epoch 1, and the receiver changes epoch right after it took the ChangeCipherSpec, when Finished is what it waits for; in epoch 1 the source refuses a fragment of any message but the one being read (d1_both.cc:373-378).
- DtlsWriter.WriteState.AddOutgoing: outgoing messages are kept parsed and not as serialised bytes.
- PbDecode.DecodeNoInit: the destination struct is a value passed in and out, so what a failed call leaves behind in it is not described.
- PbDecode.DecodeVarint: or-ing a group into zero bits is written as addition.
- PbDecode.Decode: likewise nothing about what a failed call leaves in the destination.
- PbEncode.Encode: the source struct is a value of the C types of its schema (`Held`) whose encoded sizes fit 64 bits.
- PbEncode.CheckDefault: bytes that no value determines and that are read as part of a count are a parameter of the field and the message (`Layout`): what lies behind an array shorter than pb_size_t or behind the end of a string, and the layout of a submessage in an array. Numbers are little-endian, and pb_size_t has four bytes (PB_FIELD_32BIT).
- PbDecode.SetToDefaults: clearing the count of an array shorter than pb_size_t also clears bytes of whatever lies behind it, which is not modelled; a fixed-count array that is not settled by the bytes cleared counts as having no elements, that is, as left to the destination; for which arrays of submessages the bytes settle everything is a parameter (`Memory`).
- PbDecode.DecodeField: a fixed-count array of submessages that comes a second time is decoded over the first; fixed-count arrays inside its elements then hold what the first time left there, and count as left to the destination or as zeroed, like those of fresh elements.
- PbEvolution.SchemaEvolution: encodings of 4 GiB or more, whose lengths the 32-bit decoder cannot read, are outside the claim.
- nanopb pointers, callbacks, extensions and custom streams; wire types that do not match the field are decoded as the source does, without a check.
- ClientHandshake.ClientMachine.ReadServerHelloStep: what the two hellos negotiate is one parameter record shared by both sides; parsing them is not modelled, nor are the checks on the content of other messages.
- ServerHandshake.ServerMachine.DoneFollowed: that the messages are those of the script is claimed for choices of a side that fit together (`OwnTerms`), such as asking for a certificate only in a full handshake; the rest holds without that.
- ServerHandshake.ServerMachine.ProcessChangeCipherSpecStep: the check that no handshake data is unread at a key change (tls_method.cc:84-88) is made when the ChangeCipherSpec is opened.
- ClientHandshake.ClientMachine.ReadServerFinishedStep: the source hashes a Finished before it rejects it; here a rejected message is not taken, and the machine stops either way.
- HandshakeConnection.Connection.Follow: favourable answers only, since a lookup that fails or a signature that does not verify ends the handshake; what holds then is `Safe`.
- HandshakeProduct.RunsAreSafe: handshake messages travel as units; splitting them over records and partial reads only delays them.
- TlsWriter.Writer.FlushFlight: the refusal of a flight of 2 GiB or more.
- TlsWriter.SslBuffer.EnsureCap: the slack that malloc leaves uninitialised holds one arbitrary byte value.
- TlsWriter.Caller.Run: behind a waiting flight application data is written only where every record stays within reach of the 16-bit offset (`Roomy`), as `TlsWriter.ConsumesExactly` needs; `TlsWriter.Writer.WriteAppData` has no such limit.
- TlsWriter.Writer.DoWrite: application data only; the record sequence number does not wrap, and splitting of CBC records is inside the abstract seal.
- Swift sources, Firebase and user interface code: no algorithm of their own.
