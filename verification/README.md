# Wire formats and protocol state machines, proved

A Dafny model of the parts of the vendored C and C++ libraries in which the app's data is serialized and
transported: the nanopb encoder and decoder, and the message layer of BoringSSL for TLS 1.0 to 1.2 and
DTLS. `dafny verify dfyconfig.toml` checks all of it.

**nanopb.** A message descriptor is a tree of fields (`Descriptor`); a struct is one slot per field, and
`FieldIter` relates slots to the offsets that the iterator computes. `EncodeSpec` and `DecodeSpec` say as
functions what is written and what is read. `OStream`, `Encoder`, `IStream`, `RequiredMask` and `Decoder`
are the streams, loops and in-place structs of the C code, proved against those functions; the encoder makes
its sizing pass and its writing pass over the same code, as the original does. `RoundTrip` proves that
decoding undoes encoding, `RecordAlgebra` that decoding is a homomorphism on records, `UnknownFields` what a
reader with another descriptor gets, `Packing` that packing does not matter. `EncodeLimits` and `ScalarRules`
say which structs can be encoded, which fields are left out and which bytes are accepted, by the values rather
than by the code; `Varint` and `Bits` carry the arithmetic.

**TLS output.** `SslBuffer` and `TlsOutput` have the write buffer, the pending flight, the retry state of
`SSL_write`, and alerts. The transport takes any prefix of what it is offered or fails, and what the cipher
makes of each plaintext is given; when a call succeeds is stated in terms of those.

**DTLS.** `ReplayWindow` and `DtlsReceive` are the receiving side of a record, `DtlsSend` the sending side
with its two live epochs. `Reassembly` is the bitmask of one message, `HandshakeRing` the ring of seven
incoming messages. `FlightPlan` says which fragments a pass over a flight consists of and what its packets
contain, `FlightSender` cuts and sends them, `DtlsDelivery` is about the receiver of genuine fragments,
`DtlsProgress` about when it has a whole message, and `DtlsEndToEnd` runs a sender, a network and a receiver
together. Sections 4.1, 4.1.2.6, 4.2.2, 4.2.3 and 4.2.6 of RFC 6347 are what they implement.

**Handshake.** `Handshake` says what each state of the client and the server does to one machine value, with
the results of cryptography, parsing and callbacks as an arbitrary input of every step; `HandshakeObject` is
the object that the code updates, with its `do_*` steps and the driver loop, each proved equal to those
functions. `HandshakeSteps` lists what every state reads and sends and proves that the states do that and no
more; `HandshakeChecks` says when a state is left and ties what a peer holds to be verified to the answers it
got; `HandshakeSafety` is about one peer against anything, `HandshakeAgreement` and `HandshakeWorld` about both
peers over reliable channels (sections 7.3 and 7.4.9 of RFC 5246). `CipherChoice` is the selection of a cipher
suite.

The methods have the form of the code (loops, in-place updates, 16-bit and 32-bit fields) and are specified by
functions or predicates; the theorems are about those.

## What the code does that one might not expect

Each of these is a lemma or part of a contract, with the exact condition where the intended property fails.

- A field without presence whose default is not zero loses a zero: it is not written and reads back as the
  default (`RoundTrip.ZeroLost`; `RoundTrip.DecodeEncode` says exactly when nothing is lost).
- The 32-bit varint decoder checks bits 32 to 34 only if the varint ends with its fifth byte, so with more
  bytes it can accept a value that it truncates (`Varint.HighBitsDropped`, `Varint.SameValueExactly`).
- A length prefix of 2^32 or more is written but not read: a struct with a submessage or packed array of 4 GiB
  is encoded to bytes that the decoder refuses (`RoundTrip.DecodeEncode`, `Varint.LargeRefused`).
- In a message without fields a record with tag 0 is refused instead of skipped, because the search for
  the tag stops at the terminator (`RecordAlgebra.TerminatorRefused`).
- The write buffer's offset has 16 bits; for capacities from 0xFFFA to 0xFFFF alignment and a partial write
  can wrap it, and the buffer then holds other bytes than the rest (`SslBuffer.SafeCapacity`,
  `SslBuffer.WrapExample`, `TlsOutput.PartialWriteInOrder`). `TlsOutput.Run` holds unless such a capacity is
  asked for; that accepted data is sealed
  exactly once (`TlsOutput.WriteRepeatedly`) holds even then.
- A retry of a write with fewer bytes than are already sealed fails, and the next write starts from zero
  although those bytes were sent (`TlsOutput.Connection.WriteAppData`).
- A DTLS record sealed after its counter ran out reuses a number: the failed update leaves zero in the
  counter. And the epoch has 16 bits and is not checked for wrap (`DtlsSend.Run`, `DtlsSend.EpochLimit`,
  `DtlsSend.EpochWrap`).
- A DTLS fragment whose number is exactly seven ahead passes the filter for numbers out of the window and is
  then an error (`DtlsDelivery.GenuineFragment`).
- Handshake message numbers have 16 bits; a delayed fragment is mistaken for another message exactly if it is
  not near (`DtlsDelivery.NumberMeans`; `DtlsEndToEnd.FewAreTimely` says when that cannot happen).
- A seal error in the middle of a packet leaves the flight's cursor advanced, so the next flush succeeds without
  the records skipped, until the flight is retransmitted from the start (`FlightPlan.SkippedFirst`,
  `FlightPlan.SkipExample`; `FlightSender.Sender.SendFlight` has the exact condition).
- A cipher group whose last flag is not 0 never yields a cipher (`CipherChoice.Choose`).

## Model

| member | source | states |
|---|---|---|
| `RoundTrip.DecodeEncode` | Xcode/Pods/nanopb/pb_encode.c:494-516 | for every well-formed descriptor tree and every valid struct encoding succeeds; decoding an encoding of less than 2^63 bytes succeeds if and only if no length prefix in it needs more than 32 bits, and gives the original struct if and only if in addition every unwritten part already held its default; whenever the prefixes fit it ends at the last byte with the unwritten parts at their defaults |
| `RoundTrip.MessageRefused` | Xcode/Pods/nanopb/pb_decode.c:367-380 | a struct with a length prefix that needs more than 32 bits, at any depth, is encoded to bytes that the decoder refuses (below 2^63 bytes) |
| `RoundTrip.SettledKept` | Xcode/Pods/nanopb/pb_encode.c:215-305 | the struct read back is the one written if and only if, at every depth, each absent or zero-valued field without presence held its default |
| `RoundTrip.ZeroLost` | Xcode/Pods/nanopb/pb_encode.c:215-305 | a concrete input for the other case: a proto3 field with default 5 that holds 0 is written as no bytes and reads back as 5 |
| `RoundTrip.MessageEncodes` | Xcode/Pods/nanopb/pb_encode.c:494-516 | every valid struct of a well-formed descriptor tree can be encoded |
| `RoundTrip.FieldsRoundTrip` | Xcode/Pods/nanopb/pb_decode.c:901-1049 | the induction behind the round trip: from the struct whose first i fields are in place, decoding the other records completes it and meets every required field |
| `RoundTrip.UnpackedRoundTrip` | Xcode/Pods/nanopb/pb_decode.c:401-475 | records of an unpacked array append its elements in order to those already stored |
| `RoundTrip.PackedRoundTrip` | Xcode/Pods/nanopb/pb_decode.c:419-453 | a packed payload decodes to exactly its elements |
| `Codec.WriteAndRead` | Xcode/Pods/nanopb/pb_encode.c:494-516 | writer and reader through one buffer: writing fails only for lack of room; reading the written part then succeeds if and only if every length prefix has at most 32 bits, and gives the struct back with absent fields at their defaults |
| `RecordAlgebra.DecodeConcatenation` | Xcode/Pods/nanopb/pb_decode.c:901-1049 | without required fields, decoding a ++ b into a struct is decoding a and then b into the same struct |
| `RecordAlgebra.RecordsCommute` | Xcode/Pods/nanopb/pb_decode.c:919-997 | adjacent records of two fields that share no union can be swapped, whatever surrounds them |
| `RecordAlgebra.RefusedEitherWay` | Xcode/Pods/nanopb/pb_decode.c:919-997 | a record that is refused is refused before and behind an accepted record of any other field that shares no union with it |
| `RecordAlgebra.LastOneWins` | Xcode/Pods/nanopb/pb_decode.c:401-475 | for a scalar field that is not an array, or a scalar union member, an earlier record of the same field leaves no trace |
| `RecordAlgebra.UnknownIgnored` | Xcode/Pods/nanopb/pb_decode.c:316-326 | a complete record with an unknown tag, inserted at any record boundary, changes nothing; complete means that the body has the length its wire type says (DecodeSpec.SkipExactly) |
| `DecodeSpec.SkipExactly` | Xcode/Pods/nanopb/pb_decode.c:316-326 | what is left behind a field body, by lengths: eight bytes for wire type 1, four for 5, the prefix and as many bytes as it says for 2, and up to the first byte below 128 for 0; it fails exactly if the body is incomplete or the wire type is another one |
| `UnknownFields.KeyOfField` | Xcode/Pods/nanopb/pb_encode.c:635-671 | the key of an encoded field holds its tag and the wire type of its kind: 0 for the three kinds of integers, 1 and 5 for fixed words of eight and four bytes, 2 for everything with a length |
| `UnknownFields.KeyOfArray` | Xcode/Pods/nanopb/pb_encode.c:126-212 | a non-empty array of integers or fixed words is written as one record with a length, any other array as one record for each element |
| `UnknownFields.ValueSkipped` | Xcode/Pods/nanopb/pb_decode.c:316-326 | whatever the encoder writes for a value is skipped completely by a reader that only knows the wire type |
| `UnknownFields.SlotSkipped` | Xcode/Pods/nanopb/pb_decode.c:948-962 | all records of a field, packed or not, are skipped by a reader that does not know the tag |
| `UnknownFields.OtherReader` | Xcode/Pods/nanopb/pb_decode.c:901-1049 | a reader with another descriptor, which lacks some of the fields and has others of its own, gets what was written for the fields they share and leaves its own at their defaults; it fails if and only if one of its own is required and among the first 64 required ones |
| `Packing.PayloadExactly` | Xcode/Pods/nanopb/pb_decode.c:419-447 | a packed payload is accepted if and only if it is a whole number of elements for which the array has room, and they are appended in order |
| `Packing.PackedOrNot` | Xcode/Pods/nanopb/pb_decode.c:419-459 | packed or element by element, the same elements are appended to the array |
| `RecordAlgebra.TerminatorRefused` | Xcode/Pods/nanopb/pb_common.c:78-95 | the exception: in an empty message the search answers to tag 0 with the terminator, so whatever starts with a nonzero key below 8 is an error |
| `RecordAlgebra.UnknownExactly` | Xcode/Pods/nanopb/pb_decode.c:316-326 | a complete record with an unknown tag is ignored before every continuation if and only if the message has fields or the tag is not 0 |
| `RecordAlgebra.SubmessagesMerge` | Xcode/Pods/nanopb/pb_decode.c:1463-1485 | two records of a submessage field that is neither an array nor in a union decode like one with the two payloads in a row, if the first payload is complete records and nothing inside is required |
| `RecordAlgebra.SubmessageConfined` | Xcode/Pods/nanopb/pb_decode.c:1463-1485 | after a submessage the reader stands exactly behind its declared length, also when the inner message stopped early at a zero tag; it fails exactly if the inner message does |
| `RecordAlgebra.LoopComposes` | Xcode/Pods/nanopb/pb_decode.c:919-997 | the field loop over complete records ends at their last byte and continues with what follows as if started there |
| `Varint.RoundTrip64` | Xcode/Pods/nanopb/pb_decode.c:250-271 | every 64-bit value survives encoding and decoding, and the bytes behind it are left alone |
| `Varint.RoundTrip32` | Xcode/Pods/nanopb/pb_decode.c:182-242 | every 32-bit value survives the 32-bit decoder |
| `Varint.AtMostTenBytes` | Xcode/Pods/nanopb/pb_encode.c:574-594 | a 64-bit value takes at most ten bytes |
| `Varint.EncodedDigits` | Xcode/Pods/nanopb/pb_encode.c:574-594 | the groups of a varint are the digits in base 128, least significant first; exactly the last byte has no bit 7, and it is no padding |
| `Varint.FixedDigits` | Xcode/Pods/nanopb/pb_encode.c:606-636 | the bytes of a fixed word are the digits in base 256, least significant first |
| `Varint.EncodeToBuffer` | Xcode/Pods/nanopb/pb_encode.c:574-594 | the ten-byte buffer loop produces the base-128 form |
| `Varint.DecodersAgree` | Xcode/Pods/nanopb/pb_decode.c:182-271 | where the 32-bit and the 64-bit decoder both accept, they consume the same bytes and the results agree modulo 2^32, also when the eight-bit bit position wraps |
| `Varint.SameValueExactly` | Xcode/Pods/nanopb/pb_decode.c:182-271 | where both decoders accept, the values are equal if and only if no bit from position 32 on is set, read off the bytes: bits 4 to 6 of the fifth byte and all groups behind it |
| `Varint.LargeRefused` | Xcode/Pods/nanopb/pb_decode.c:182-242 | the encoding of any value from 2^32 to below 2^63 is refused by the 32-bit decoder, whatever follows |
| `Varint.SignExtendedAccepted` | Xcode/Pods/nanopb/pb_decode.c:182-242 | the 32-bit decoder accepts the ten-byte encoding of every negative int32 and returns its low word |
| `Varint.HighBitsDropped` | Xcode/Pods/nanopb/pb_decode.c:200-232 | the 32-bit decoder is no range check: a concrete stream on which both decoders accept with different values |
| `Varint.ZigZagBijection` | Xcode/Pods/nanopb/pb_encode.c:596-605 | zigzag is a bijection between int64 and uint64 that maps n to 2n or -2n - 1 |
| `Varint.FixedRoundTrip` | Xcode/Pods/nanopb/pb_encode.c:607-633 | little-endian words of any width survive writing and reading |
| `OStream.Write` | Xcode/Pods/nanopb/pb_encode.c:101-119 | a write succeeds exactly if it fits; it then counts and, unless sizing, appends; a failure keeps what was written |
| `OStream.BufWrite` | Xcode/Pods/nanopb/pb_encode.c:72-82 | the buffer callback appends the bytes behind those already written |
| `OStream.EncodeTag` | Xcode/Pods/nanopb/pb_encode.c:635-672 | writes the base-128 form of tag and wire type, or fails for lack of room |
| `OStream.EncodeString` | Xcode/Pods/nanopb/pb_encode.c:674-680 | writes length prefix and contents; counts and keeps a partial write |
| `OStream.Chain` | Xcode/Pods/nanopb/pb_encode.c:101-119 | two writers in a row write the concatenation, with the right outcome in every mix of success and failure |
| `OStream.Abandon` | Xcode/Pods/nanopb/pb_encode.c:126-211 | a writer that fails for lack of room fails together with whatever was to follow it, be that bytes or an error |
| `Encoder.Encode` | Xcode/Pods/nanopb/pb_encode.c:494-516 | on any stream, real or sizing, pb_encode has exactly the effect of writing the specified bytes: it succeeds if and only if they exist and fit, and never reports a changed submessage size |
| `Encoder.EncodedSize` | Xcode/Pods/nanopb/pb_encode.c:533-542 | the sizing pass succeeds exactly if the struct can be encoded and counts exactly the bytes of the real pass |
| `Encoder.EncodeIntoBuffer` | Xcode/Pods/nanopb/pb_encode.c:494-516 | encoding to a buffer succeeds if and only if sizing does and the size fits |
| `Encoder.EncodeSubmessage` | Xcode/Pods/nanopb/pb_encode.c:682-730 | the size written first is the size the second pass writes; "submsg size changed" cannot happen |
| `Encoder.WriteArray` | Xcode/Pods/nanopb/pb_encode.c:126-211 | arrays: packed if the kind of value allows it, one record an element otherwise, nothing for an empty one, an error beyond the maximum |
| `Encoder.PackedPayloadSize` | Xcode/Pods/nanopb/pb_encode.c:148-184 | the packed payload size, computed or measured, is the number of bytes written later |
| `Encoder.WriteSlot` | Xcode/Pods/nanopb/pb_encode.c:307-392 | presence rules of required, optional, proto3, repeated and union fields |
| `Encoder.WriteValue` | Xcode/Pods/nanopb/pb_encode.c:734-870 | one writer for each kind of value, with its errors |
| `EncodeSpec.ZeroEncodesEmpty` | Xcode/Pods/nanopb/pb_encode.c:215-305 | a message that the proto3 test calls zero is encoded as no bytes, so leaving it out loses nothing but its presence |
| `EncodeLimits.MessageEncodesExactly` | Xcode/Pods/nanopb/pb_encode.c:126-330 | a struct can be encoded if and only if every array written is no longer than its field has room for and every byte array fits its storage, at every depth |
| `EncodeLimits.LeftOutExactly` | Xcode/Pods/nanopb/pb_encode.c:215-305 | a field is written as no bytes if and only if it is absent, or has no presence and is zero, empty, or a message that would be written as no bytes |
| `EncodeSpec.ScalarAtMostTen` | Xcode/Pods/nanopb/pb_encode.c:734-810 | a scalar element takes at most ten bytes and fixed words exactly four or eight |
| `IStream.DecodeVarint32Eof` | Xcode/Pods/nanopb/pb_decode.c:182-242 | the byte loop computes the specified value and end of input is reported exactly on an empty stream |
| `IStream.DecodeVarint64` | Xcode/Pods/nanopb/pb_decode.c:250-271 | the byte loop computes the specified 64-bit value and rest, or fails exactly where that does |
| `IStream.Read` | Xcode/Pods/nanopb/pb_decode.c:100-134 | delivers exactly the next bytes, or fails exactly if there are fewer |
| `IStream.SkipField` | Xcode/Pods/nanopb/pb_decode.c:316-326 | skips exactly one field body of that wire type, or fails if it is not there, by the lengths of the wire types |
| `IStream.MakeSubstream` | Xcode/Pods/nanopb/pb_decode.c:367-380 | the substream holds exactly the declared bytes and the parent gives them up; fails exactly if the parent has fewer |
| `IStream.CloseSubstream` | Xcode/Pods/nanopb/pb_decode.c:382-395 | whatever was read from the substream, the parent ends right behind it |
| `FieldIter.Iterator.Next` | Xcode/Pods/nanopb/pb_common.c:20-76 | steps circularly; data offset, size offset and required index stay those of a walk from the first field |
| `FieldIter.Iterator.Find` | Xcode/Pods/nanopb/pb_common.c:78-95 | from any position the search succeeds exactly for tags of fields, and lands where a fresh linear walk does |
| `FieldIter.Iterator.CountRequired` | Xcode/Pods/nanopb/pb_decode.c:1004-1017 | walking to the end counts all required fields |
| `FieldIter.StorageDisjoint` | Xcode/Pods/nanopb/pb_common.c:20-76 | the offsets computed by the iterator put any two fields that are not members of one union in disjoint storage, with their has-flags, counts and which-fields, whatever unions lie between them |
| `FieldIter.SlotsApart` | Xcode/Pods/nanopb/pb_common.c:20-76 | when the unions of the descriptor are the fields laid over each other, two fields have the same data offset if they share a union and disjoint storage otherwise |
| `FieldIter.BehindUnion` | Xcode/Pods/nanopb/pb_common.c:49-58 | a field starts behind each member of a union before it if and only if the gap from the last member makes up for a larger one |
| `FieldIter.OverlaidTogether` | Xcode/Pods/nanopb/pb_common.c:45-53 | all members of a union have the same data and the same which-field |
| `FieldIter.WriteKeepsOthers` | Xcode/Pods/nanopb/pb_common.c:20-76 | so writing inside one of two such fields changes no byte of the other, and slots can stand for the struct |
| `RequiredMask.FieldsSeen.Mark` | Xcode/Pods/nanopb/pb_decode.c:988-993 | sets exactly one bit of the mask |
| `RequiredMask.FieldsSeen.Complete` | Xcode/Pods/nanopb/pb_decode.c:1019-1046 | whole words and the shifted last word: the test passes if and only if every index below the count was marked |
| `Decoder.CheckRequired` | Xcode/Pods/nanopb/pb_decode.c:1000-1046 | the final check passes if and only if each of the first 64 required fields occurred |
| `Decoder.MarkField` | Xcode/Pods/nanopb/pb_decode.c:988-993 | the mask holds exactly the required fields met, up to the 64th |
| `Decoder.DecodeOne` | Xcode/Pods/nanopb/pb_decode.c:919-997 | one turn of the field loop: store, skip or fail, exactly as specified, leaving the rest of the stream |
| `Decoder.DecodeNoinit` | Xcode/Pods/nanopb/pb_decode.c:901-1049 | the in-place loop with iterator, mask and streams computes the specified struct and rest, or fails exactly where that does |
| `Decoder.Decode` | Xcode/Pods/nanopb/pb_decode.c:1051-1063 | the same from the defaults |
| `Decoder.ReadField` | Xcode/Pods/nanopb/pb_decode.c:401-475 | packed and unpacked arrays, presence flags, capacity limits and union members |
| `Decoder.ReadPacked` | Xcode/Pods/nanopb/pb_decode.c:419-453 | appends elements until the payload is used up, or fails; nothing of the payload is left on success |
| `Decoder.ReadValue` | Xcode/Pods/nanopb/pb_decode.c:1463-1485 | one reader for each kind of value; submessages are merged into what is stored |
| `Decoder.ReadVarint` | Xcode/Pods/nanopb/pb_decode.c:1289-1324 | the casts and range check of signed varints |
| `Decoder.ReadUVarint` | Xcode/Pods/nanopb/pb_decode.c:1326-1348 | the range check of unsigned varints |
| `Decoder.ReadSVarint` | Xcode/Pods/nanopb/pb_decode.c:1350-1372 | the range check of zigzag varints |
| `Decoder.ReadBytes` | Xcode/Pods/nanopb/pb_decode.c:1391-1426 | length limits of byte arrays |
| `Decoder.ReadString` | Xcode/Pods/nanopb/pb_decode.c:1428-1461 | length limits of strings, with the terminator; contents up to the first NUL |
| `Decoder.ReadFixedBytes` | Xcode/Pods/nanopb/pb_decode.c:1487-1509 | an empty value stands for zeros, any other length must match |
| `ScalarRules.ScalarExactly` | Xcode/Pods/nanopb/pb_decode.c:1289-1509 | what exactly each scalar reader accepts, by values and bytes: integers in range modulo 2^64, or 2^32 for narrow fields, zigzag values in range, little-endian words, blobs and strings that fit with their terminator, fixed bytes of the exact length or empty for zeros; and nothing else |
| `ScalarRules.ZeroIsDefault` | Xcode/Pods/nanopb/pb_decode.c:846-863 | zero bytes decode to the default of a field that declares none |
| `DecodeSpec.DecodeMessage` | Xcode/Pods/nanopb/pb_decode.c:901-1049 | confinement and termination on arbitrary bytes: the result is a valid struct whatever the input, and what is left is no longer than the input |
| `DecodeSpec.DecodeField` | Xcode/Pods/nanopb/pb_decode.c:401-475 | a field body consumes at least one byte and leaves a valid slot, on arbitrary bytes |
| `DecodeSpec.Substream` | Xcode/Pods/nanopb/pb_decode.c:367-380 | a nested substream and what follows it are both strictly shorter |
| `Descriptor.DefaultsValid` | Xcode/Pods/nanopb/pb_decode.c:812-895 | the default struct of a well-formed descriptor is valid, at every depth |
| `TlsOutput.Run` | Xcode/Pods/BoringSSL/ssl/s3_both.cc:231-279 | in every interleaving of adding flight records, flushing, writing data and sending alerts, with partial or failed transport writes, bytes sent ++ write buffer ++ pending flight are all sealed records in sealing order, so the wire is a prefix of them; unless the buffer was asked for one of the capacities 0xFFFA to 0xFFFF |
| `TlsOutput.PartialWriteInOrder` | Xcode/Pods/BoringSSL/ssl/ssl_buffer.cc:90-97 | the reason for that exception: every partial write of a buffer of a given capacity keeps the order if and only if the capacity is not one of those |
| `TlsOutput.WriteRepeatedly` | Xcode/Pods/BoringSSL/ssl/s3_pkt.cc:129-200 | a caller that repeats a write through any number of blocked writes, each time offering the same bytes or more of them, with flights and alerts in between: the plaintext sealed is exactly what it was told was written, each byte once; without partial writes that is all of one offer |
| `TlsOutput.Connection.WriteAppData` | Xcode/Pods/BoringSSL/ssl/s3_pkt.cc:129-200 | conservation for one call, also when the retry offers more bytes, and behind a flight of any size; it succeeds if and only if cipher and transport do not fail, the connection is open and no record is refused, and then all of the data is written, or with partial writes the first record; a retry that is shorter than what is done fails and forgets it |
| `TlsOutput.Connection.WriteRecords` | Xcode/Pods/BoringSSL/ssl/s3_pkt.cc:160-199 | the loop keeps tot bytes done and at most one sealed record behind them; it succeeds if and only if cipher and transport do not fail and no record is refused, with all of the data or, if partial writes are enabled, one record |
| `TlsOutput.Connection.WritePending` | Xcode/Pods/BoringSSL/ssl/s3_pkt.cc:202-218 | a bad retry (shorter, of another type, or moved without permission) changes nothing; a good one succeeds if and only if the transport does not fail, and returns the memorized length once the buffer is empty, without sealing again |
| `TlsOutput.Connection.DoWrite` | Xcode/Pods/BoringSSL/ssl/s3_pkt.cc:221-289 | a positive result means that one record with exactly that plaintext is on the wire; otherwise nothing was sealed, or the record waits; it fails only for a bad retry, no data or too much, unsent data, a capacity beyond 16 bits, or a failing cipher or transport |
| `TlsOutput.Connection.PrepareBuffer` | Xcode/Pods/BoringSSL/ssl/s3_pkt.cc:240-272 | the pending flight becomes a prefix of the write buffer without reordering; refused exactly beyond 16 bits |
| `TlsOutput.Connection.SealIntoBuffer` | Xcode/Pods/BoringSSL/ssl/s3_pkt.cc:262-289 | one record is added to the buffer behind what is there, with its arguments kept for the retry |
| `TlsOutput.Connection.DispatchAlert` | Xcode/Pods/BoringSSL/ssl/s3_pkt.cc:405-423 | an alert is sealed as one record, exactly a fatal one is followed by a flush, and only a successful dispatch clears the request; exact condition for success |
| `TlsOutput.Connection.SendAlert` | Xcode/Pods/BoringSSL/ssl/s3_pkt.cc:377-403 | nothing is sent after a closing alert; behind unsent data the alert stays to be dispatched; exact condition for success |
| `TlsOutput.Connection.AddRecordToFlight` | Xcode/Pods/BoringSSL/ssl/s3_both.cc:135-165 | one sealed record is appended to the flight, or nothing changes exactly if the cipher fails |
| `TlsOutput.Connection.AddMessage` | Xcode/Pods/BoringSSL/ssl/s3_both.cc:184-205 | the records of a message carry its bytes in order and completely unless the cipher fails; each is as long as it may be, except that the last one takes what is left |
| `TlsOutput.Connection.AddSmallRecord` | Xcode/Pods/BoringSSL/ssl/s3_both.cc:207-229 | ChangeCipherSpec and alerts are one record in the flight |
| `TlsOutput.Connection.FlushFlight` | Xcode/Pods/BoringSSL/ssl/s3_both.cc:231-279 | the write buffer leaves before the flight; a positive result means everything sealed is on the wire, and comes exactly if nothing was pending or the transport does not fail on an open connection |
| `TlsOutput.Connection.WriteFlight` | Xcode/Pods/BoringSSL/ssl/s3_both.cc:252-279 | the offset moves by what the transport took; the flight is dropped only when all is written; success exactly if no write and no flush fails |
| `TlsOutput.FlushBuffer` | Xcode/Pods/BoringSSL/ssl/ssl_buffer.cc:239-252 | what leaves the buffer is what enters the transport, in order; success, exactly if no write fails, means an empty buffer |
| `SslBuffer.Buffer.EnsureCap` | Xcode/Pods/BoringSSL/ssl/ssl_buffer.cc:47-81 | growing keeps the contents and aligns what follows the header; it is refused exactly beyond 16 bits |
| `SslBuffer.Buffer.Append` | Xcode/Pods/BoringSSL/ssl/ssl_buffer.cc:83-88 | appends at the remaining space |
| `SslBuffer.Buffer.Consume` | Xcode/Pods/BoringSSL/ssl/ssl_buffer.cc:90-97 | drops exactly the first bytes as long as the 16-bit offset does not wrap, and in any case leaves what the new offset points at |
| `SslBuffer.SafeCapacity` | Xcode/Pods/BoringSSL/ssl/ssl_buffer.cc:47-97 | for an accepted capacity, consuming leaves the rest of the contents for every alignment, amount and part, if and only if the capacity is at most 0xFFF9 |
| `SslBuffer.WrapExample` | Xcode/Pods/BoringSSL/ssl/ssl_buffer.cc:47-97 | for every capacity from 0xFFFA to 0xFFFF a buffer that holds other bytes than the rest after a part was consumed |
| `ReplayWindow.Bitmap.ShouldDiscard` | Xcode/Pods/BoringSSL/ssl/dtls_record.cc:140-150 | after any sequence of recorded numbers: true if and only if the number was recorded or is at most the maximum minus 64 |
| `ReplayWindow.Bitmap.Record` | Xcode/Pods/BoringSSL/ssl/dtls_record.cc:155-175 | exactly the number is added to those recorded, and the maximum follows |
| `ReplayWindow.SlideWindow` | Xcode/Pods/BoringSSL/ssl/dtls_record.cc:158-167 | sliding by any distance keeps the window an exact picture of the recorded set |
| `ReplayWindow.MarkWindow` | Xcode/Pods/BoringSSL/ssl/dtls_record.cc:168-174 | setting one bit records exactly one number |
| `ReplayWindow.BigEndianInjective` | Xcode/Pods/BoringSSL/ssl/dtls_record.cc:128-136 | records with different sequence fields have different numbers |
| `ReplayWindow.ToU64Be` | Xcode/Pods/BoringSSL/ssl/dtls_record.cc:128-136 | the loop computes the big-endian number |
| `DtlsReceive.Reader.OpenRecord` | Xcode/Pods/BoringSSL/ssl/dtls_record.cc:177-272 | exact conditions for each outcome, and where the next record of the datagram starts; a number is accepted only if fresh, and only accepted records are recorded |
| `DtlsReceive.Reader.SetReadState` | Xcode/Pods/BoringSSL/ssl/dtls_method.cc:81-95 | refused exactly while handshake data is left; otherwise the window starts empty in a new epoch, with the new cipher and version |
| `DtlsReceive.Run` | Xcode/Pods/BoringSSL/ssl/dtls_record.cc:225-259 | in any run no sequence number of a read state is accepted twice |
| `DtlsSend.SequenceUpdate` | Xcode/Pods/BoringSSL/ssl/tls_record.cc:154-163 | increments the big-endian number in place and fails exactly when it becomes zero |
| `DtlsSend.Writer.SealRecord` | Xcode/Pods/BoringSSL/ssl/dtls_record.cc:294-351 | a record is made if and only if the result of the cipher fits and the counter does not run out on it; it is that result for exactly this plaintext, with the chosen epoch and counter; the pair is used once, also if the record is then given up |
| `DtlsSend.Writer.OverheadIsTight` | Xcode/Pods/BoringSSL/ssl/dtls_record.cc:283-292 | the overhead is exactly the room that the longest record needs in addition to its plaintext |
| `DtlsSend.Writer.SetWriteState` | Xcode/Pods/BoringSSL/ssl/dtls_method.cc:97-108 | the old cipher and counter stay for retransmissions, the new counter starts at zero |
| `DtlsSend.Run` | Xcode/Pods/BoringSSL/ssl/dtls_record.cc:294-351 | in any mix of current-epoch and previous-epoch seals and write-state changes, while the 16-bit epoch has not wrapped, no pair of epoch and sequence number is on the wire twice if and only if no record was sealed after its counter ran out |
| `DtlsSend.EpochLimit` | Xcode/Pods/BoringSSL/ssl/dtls_method.cc:97-108 | distinct uses of ciphers give distinct pairs on the wire if and only if fewer than 65536 write states came before |
| `DtlsSend.EpochWrap` | Xcode/Pods/BoringSSL/ssl/dtls_method.cc:97-108 | a run in which, after 65536 new write states, the first pair is sealed again, for every ciphertext that fits |
| `DtlsSend.HeaderRoundTrip` | Xcode/Pods/BoringSSL/ssl/dtls_record.cc:330-351 | the receiver parses the fields that were sealed, whatever follows in the datagram |
| `DtlsSend.SealedIsFresh` | Xcode/Pods/BoringSSL/ssl/dtls_record.cc:177-248 | a sealed record is one the receiver looks at if and only if its version and epoch are those of the read state and its number is new and less than 64 behind the largest; the next record is right behind it |
| `DtlsEndToEnd.Run` | Xcode/Pods/BoringSSL/ssl/d1_both.cc:297-438 | end to end: a sender that adds, flushes and retransmits under any MTU, write failures and new epochs, a network that loses, repeats and reorders everything that was ever sealed, and a receiver with its replay window and ring: the messages read are the first ones sent, byte for byte |
| `DtlsEndToEnd.Perform` | Xcode/Pods/BoringSSL/ssl/d1_both.cc:297-438 | each single step of the two peers and the network keeps that, and reading delivers a message exactly if it is complete |
| `DtlsEndToEnd.Arrive` | Xcode/Pods/BoringSSL/ssl/d1_both.cc:297-406 | a record reaches the ring only if it is opened, with exactly the plaintext that was sealed; and one that is opened in its read state does reach it |
| `DtlsEndToEnd.TimelyIsNear` | Xcode/Pods/BoringSSL/ssl/d1_both.cc:644-734 | whatever was sealed as a handshake record is a fragment of a message added, so if no such message is out of reach it is one of a near message |
| `DtlsEndToEnd.FewAreTimely` | Xcode/Pods/BoringSSL/ssl/d1_both.cc:378-389 | with fewer than 65530 messages every record is timely |
| `DtlsDelivery.EveryMessageIsSent` | Xcode/Pods/BoringSSL/ssl/d1_both.cc:297-438 | the receiver alone: whenever the records that arrive consist of genuine fragments of near messages, the messages read are the first ones sent, byte for byte, across any number of wraps of the 16-bit message number |
| `DtlsDelivery.GenuineFragment` | Xcode/Pods/BoringSSL/ssl/d1_both.cc:265-295 | a genuine fragment of a near message keeps the ring faithful, arrives if it is in the window, and is an error exactly in the listed cases, one of them the number read_seq + 7 |
| `DtlsDelivery.GenuineRecordFaithful` | Xcode/Pods/BoringSSL/ssl/d1_both.cc:346-401 | a record of genuine fragments keeps the ring faithful, also when it is given up half-way |
| `DtlsDelivery.MessageRead` | Xcode/Pods/BoringSSL/ssl/d1_both.cc:408-438 | a complete current message is the one sent, and reading it keeps the ring faithful for the next |
| `DtlsProgress.CoveredIsRead` | Xcode/Pods/BoringSSL/ssl/d1_both.cc:297-406 | once fragments that cover the next message have arrived, in any order, repeated, overlapping and among those of other messages, it is complete and what is read is the message sent |
| `DtlsProgress.MarksKept` | Xcode/Pods/BoringSSL/ssl/d1_both.cc:352-395 | no fragment takes back what has arrived of the next message |
| `DtlsDelivery.NumberMeans` | Xcode/Pods/BoringSSL/ssl/d1_both.cc:380-389 | a 16-bit number in the window means the right message if and only if the message is less than 65530 behind the one to be read next and less than 65536 ahead of it |
| `HandshakeRing.AddFragmentKeeps` | Xcode/Pods/BoringSSL/ssl/d1_both.cc:265-295 | whatever fragment arrives, slot i holds only the one number of the window that is i modulo 7 |
| `HandshakeRing.LookupKeeps` | Xcode/Pods/BoringSSL/ssl/d1_both.cc:265-295 | a slot that is found has the number asked for, so the assertion on it cannot fail, and exactly the type and length announced |
| `HandshakeRing.WindowMoves` | Xcode/Pods/BoringSSL/ssl/d1_both.cc:426-438 | reading a message moves the window and keeps it in order, through the wrap of the 16-bit number |
| `HandshakeRing.Incoming.GetIncoming` | Xcode/Pods/BoringSSL/ssl/d1_both.cc:265-295 | finds or creates the slot, or refuses, exactly as specified; other slots are untouched |
| `HandshakeRing.Incoming.OpenHandshake` | Xcode/Pods/BoringSSL/ssl/d1_both.cc:297-406 | outcome and ring for every content type, and the ChangeCipherSpec flag |
| `HandshakeRing.Incoming.GetMessage` | Xcode/Pods/BoringSSL/ssl/d1_both.cc:408-424 | the whole message if and only if it is complete |
| `HandshakeRing.Incoming.NextMessage` | Xcode/Pods/BoringSSL/ssl/d1_both.cc:426-438 | frees the slot and moves the 16-bit read position |
| `HandshakeRing.Incoming.IsCurrentMessageComplete` | Xcode/Pods/BoringSSL/ssl/d1_both.cc:255-259 | true exactly if the current slot is complete |
| `HandshakeRing.Incoming.HasUnprocessedData` | Xcode/Pods/BoringSSL/ssl/d1_both.cc:440-457 | true exactly if a ChangeCipherSpec or any message but the current one is waiting |
| `Reassembly.MarkAll` | Xcode/Pods/BoringSSL/ssl/d1_both.cc:211-251 | after any sequence of marks bit i is set if and only if byte i is in the union of the ranges, and the mask is gone exactly when the union is the whole message |
| `Reassembly.MarkedIffCovered` | Xcode/Pods/BoringSSL/ssl/d1_both.cc:211-251 | the set a sequence of marks leaves is the union of its ranges |
| `Reassembly.Fragment.Mark` | Xcode/Pods/BoringSSL/ssl/d1_both.cc:211-251 | marks exactly the range and drops the mask exactly when every byte has arrived |
| `Reassembly.Fragment.SetBits` | Xcode/Pods/BoringSSL/ssl/d1_both.cc:224-236 | the one-byte and the multi-byte case set exactly the bits of the range, and none beyond the message |
| `Reassembly.Fragment.IsComplete` | Xcode/Pods/BoringSSL/ssl/d1_both.cc:238-251 | whole bytes and the partial last byte: complete exactly if all bits are set |
| `Reassembly.Fragment.Receive` | Xcode/Pods/BoringSSL/ssl/d1_both.cc:393-401 | a body is copied to its place and marked |
| `Reassembly.Fragment.constructor` | Xcode/Pods/BoringSSL/ssl/d1_both.cc:152-199 | a new message has the header of a single fragment; an empty message is complete at once |
| `Reassembly.BitRangeBits` | Xcode/Pods/BoringSSL/ssl/d1_both.cc:203-205 | the shifted masks have exactly the bits from start to end |
| `Reassembly.FragmentRoundTrip` | Xcode/Pods/BoringSSL/ssl/d1_both.cc:459-473 | a fragment parses back to its header, body and rest |
| `FlightPlan.WholePassTiles` | Xcode/Pods/BoringSSL/ssl/d1_both.cc:782-827 | the fragments of a whole pass cover every message from 0 to its length without gap or overlap, and every ChangeCipherSpec is there once |
| `FlightPlan.Tiles` | Xcode/Pods/BoringSSL/ssl/d1_both.cc:644-734 | from any cursor, consecutive fragments continue each message exactly where the last ended |
| `FlightPlan.AdvanceProgress` | Xcode/Pods/BoringSSL/ssl/d1_both.cc:644-734 | every record strictly reduces what is left of the flight, so the loops end |
| `FlightPlan.FlightDone` | Xcode/Pods/BoringSSL/ssl/d1_both.cc:796-820 | when the cursor is at the end, the packets written since the start are the whole flight if and only if no record was sealed and then skipped |
| `FlightPlan.SkippedFirst` | Xcode/Pods/BoringSSL/ssl/d1_both.cc:739-827 | for every flight of two records or more: when a first part is sealed but not written and the rest is then written, the flight is at its end and the packets are not the whole flight |
| `FlightPlan.SkipExample` | Xcode/Pods/BoringSSL/ssl/d1_both.cc:739-827 | a concrete such flight of two ChangeCipherSpecs, of which only the second is in a packet |
| `FlightPlan.AfterWork` | Xcode/Pods/BoringSSL/ssl/d1_both.cc:644-734 | the records of a pass take off the flight exactly what lies between the cursor before and after |
| `FlightSender.Sender.SendFlight` | Xcode/Pods/BoringSSL/ssl/d1_both.cc:782-827 | packets are at most the MTU and hold exactly the records of the fragments of the pass; it succeeds if and only if the connection is open, every message has its cipher and a record of it fits a packet, and cipher and transport do not fail; the packets are then the whole flight if and only if no sealed record was skipped after an earlier error |
| `FlightSender.Sender.SendPacket` | Xcode/Pods/BoringSSL/ssl/d1_both.cc:796-820 | the packet written is the records of the next fragments; a failed write takes it back, and only a seal error leaves the cursor moved, past the records it skipped |
| `FlightSender.Sender.SendPackets` | Xcode/Pods/BoringSSL/ssl/d1_both.cc:796-820 | the loop ends; it succeeds, with the cursor at the end, exactly if every message left can be sent and cipher and transport do not fail |
| `FlightSender.Sender.SealNextPacket` | Xcode/Pods/BoringSSL/ssl/d1_both.cc:739-780 | a packet is the concatenation of the records of the next fragments, in order, and fits; it ends only with the flight, behind a message that was cut, or when the next record does not fit; too small an MTU is reported exactly if the first record does not fit, an error exactly if a cipher failed or is gone |
| `FlightSender.Sender.SealNextMessage` | Xcode/Pods/BoringSSL/ssl/d1_both.cc:644-734 | exact conditions for no progress and for an error; the plaintext sealed is the next fragment of the message, in its epoch, with as much of it as there is room for |
| `FlightSender.Sender.SealFragment` | Xcode/Pods/BoringSSL/ssl/d1_both.cc:679-733 | the plaintext sealed is the header and bytes of a fragment at the cursor, exactly as much of the message as fits, and the cursor moves by it; an error exactly if the cipher fails |
| `FlightSender.Sender.SealCcs` | Xcode/Pods/BoringSSL/ssl/d1_both.cc:662-677 | exact conditions for no progress and for an error; the plaintext sealed is the ChangeCipherSpec |
| `FlightSender.Sender.EpochsKept` | Xcode/Pods/BoringSSL/ssl/d1_both.cc:650-657 | exactly the messages of the current and the previous epoch can be sealed, each with the cipher of its epoch |
| `FlightSender.Sender.Retransmit` | Xcode/Pods/BoringSSL/ssl/d1_both.cc:836-845 | a retransmission starts over and writes the whole flight whatever failed before; it succeeds if and only if the connection is open, every message can be sent and cipher and transport do not fail |
| `FlightSender.Sender.FlushFlight` | Xcode/Pods/BoringSSL/ssl/d1_both.cc:829-834 | after a flush that succeeds the packets are the whole flight if and only if no sealed record was skipped; exact condition for success |
| `FlightPlan.PieceSealedGenuine` | Xcode/Pods/BoringSSL/ssl/d1_both.cc:706-733 | what is sealed for a fragment of the flight is the plaintext of a genuine fragment of a message added |
| `FlightSender.Sender.AddOutgoing` | Xcode/Pods/BoringSSL/ssl/d1_both.cc:555-594 | the first message after a flush starts a new flight; refused exactly when the flight is full or the message too long |
| `FlightSender.Sender.ClearOutgoing` | Xcode/Pods/BoringSSL/ssl/d1_both.cc:500-509 | the flight is empty again |
| `FlightSender.Sender.BuildMessage` | Xcode/Pods/BoringSSL/ssl/d1_both.cc:511-537 | the serialized message has the next number and both lengths |
| `FlightSender.FinishMessage` | Xcode/Pods/BoringSSL/ssl/d1_both.cc:525-537 | the fragment length is copied over the message length, in place |
| `FlightSender.FinishedHeader` | Xcode/Pods/BoringSSL/ssl/d1_both.cc:511-537 | the header then announces the whole message in one fragment, and the body is unchanged |
| `FlightSender.Sender.UpdateMtu` | Xcode/Pods/BoringSSL/ssl/d1_both.cc:615-635 | the MTU is never below the minimum unless queries are off |
| `FlightPlan.PieceIsGenuine` | Xcode/Pods/BoringSSL/ssl/d1_both.cc:644-734 | what a flight sends of a message is a genuine fragment of the message with that number |
| `FlightPlan.HeaderLayout` | Xcode/Pods/BoringSSL/ssl/d1_both.cc:459-472 | the numbers in the header of a fragment are big-endian, at their places |
| `FlightPlan.FragmentRecordGenuine` | Xcode/Pods/BoringSSL/ssl/d1_both.cc:346-401 | and the record that carries it is one that the receiver handles faithfully |
| `HandshakeWorld.NeverUnexpected` | Xcode/Pods/BoringSSL/ssl/handshake_client.cc:1707-1789 | for every combination of resumption, client certificate, OCSP status, ServerKeyExchange, ticket, NPN and Channel ID and in every schedule of the two peers, neither meets an unexpected message; when both are done their transcripts are equal and nothing is left unread |
| `HandshakeWorld.FinishedAlwaysMatches` | Xcode/Pods/BoringSSL/ssl/handshake.cc:380-429 | in every schedule, whenever a Finished is there to be checked, it was computed over exactly the messages the checker hashed |
| `HandshakeWorld.FinishedOverSame` | Xcode/Pods/BoringSSL/ssl/handshake.cc:431-476 | the reason: a peer that is ahead hashed the receiver's transcript and then its own Finished |
| `HandshakeWorld.NoDeadlock` | Xcode/Pods/BoringSSL/ssl/handshake.cc:491-628 | in no schedule do both peers wait for each other: when nothing can move, both are done |
| `HandshakeWorld.RunAgrees` | Xcode/Pods/BoringSSL/ssl/handshake_server.cc:1539-1621 | the invariant: one peer is ahead by exactly the messages in transit, and both stand on the same script |
| `HandshakeWorld.SenderTurn` | Xcode/Pods/BoringSSL/ssl/handshake_server.cc:1539-1621 | a turn of the peer that is ahead keeps the invariant |
| `HandshakeWorld.ReceiverTurn` | Xcode/Pods/BoringSSL/ssl/handshake_client.cc:1707-1789 | a turn of the peer that is behind keeps it, or makes that peer the one ahead |
| `HandshakeWorld.ServerFollows` | Xcode/Pods/BoringSSL/ssl/handshake_server.cc:1539-1621 | every server state takes exactly the messages the script has for it and adds exactly its own |
| `HandshakeWorld.ClientFollows` | Xcode/Pods/BoringSSL/ssl/handshake_client.cc:1707-1789 | every client state likewise |
| `HandshakeSafety.DoneInOrder` | Xcode/Pods/BoringSSL/ssl/handshake.cc:380-429 | in every run of a server or client that gets done, against any peer, there are three events in this order: ChangeCipherSpec is taken, the read cipher is changed, and a Finished is accepted that matches the transcript before it |
| `HandshakeSafety.EventInOrder` | Xcode/Pods/BoringSSL/ssl/handshake.cc:380-429 | no event changes the read cipher except in the state behind ChangeCipherSpec, and none records a Finished except by accepting a matching one with the new read cipher |
| `HandshakeSafety.ServerDone` | Xcode/Pods/BoringSSL/ssl/handshake_server.cc:1511-1537 | against any peer and any callback retries a server is done only with the new read cipher and a matching Finished accepted, with a client certificate only after its chain and CertificateVerify were verified |
| `HandshakeSafety.ClientDone` | Xcode/Pods/BoringSSL/ssl/handshake_client.cc:1674-1705 | a client is done only with the new read cipher and a matching Finished accepted; in a full handshake with certificates only after the chain, and the signature if there is one, was verified |
| `HandshakeChecks.CheckedInOrder` | Xcode/Pods/BoringSSL/ssl/handshake.cc:380-429 | in every run that gets done and in which the facts say so: the verifier accepted the chain, behind that the message with the signature was taken and not found wrong, and both came before ChangeCipherSpec, the change of the read cipher and the Finished |
| `HandshakeChecks.EventChecks` | Xcode/Pods/BoringSSL/ssl/handshake_client.cc:871-1100 | no event marks the chain as verified except an accepting answer of the verifier in the state that asks it, and none the signature except taking the message that carries it, behind a verified chain |
| `HandshakeChecks.EveryStateDecides` | Xcode/Pods/BoringSSL/ssl/handshake_client.cc:1707-1842 | each of the states is left exactly if what it asks accepts and its message is there and acceptable: a failure is an error, an answer that is not there yet leaves everything as it is, and a state that asks nothing ignores the answers |
| `HandshakeChecks.TicketKept` | Xcode/Pods/BoringSSL/ssl/handshake_client.cc:1566-1600 | a session ticket is kept exactly if it is not empty |
| `HandshakeSafety.EventOk` | Xcode/Pods/BoringSSL/ssl/handshake.cc:491-628 | every event keeps what was established; the transcript only grows, a rank fixed by the mode decreases on every change of state, and nothing is hashed or added to the flight without one |
| `HandshakeSafety.ServerStepIsOk` | Xcode/Pods/BoringSSL/ssl/handshake_server.cc:1539-1621 | a server state either changes nothing but what it waits for or goes on to a later state, so a retry repeats nothing |
| `HandshakeSafety.ClientStepIsOk` | Xcode/Pods/BoringSSL/ssl/handshake_client.cc:1707-1789 | a client state likewise |
| `HandshakeSafety.RunSafe` | Xcode/Pods/BoringSSL/ssl/handshake.cc:491-628 | whatever arrives and whatever callbacks answer, a run from the start stays safe |
| `HandshakeObject.Later` | Xcode/Pods/BoringSSL/ssl/handshake.cc:491-628 | a state that finishes is never entered again |
| `HandshakeObject.SslHandshake.Round` | Xcode/Pods/BoringSSL/ssl/handshake.cc:491-628 | one turn of the driver loop: the states run exactly if what the handshake waits for is there, use the answers in order, and success is reported exactly in the final state; the flight is flushed as a whole or not at all |
| `HandshakeObject.SslHandshake.Handshake` | Xcode/Pods/BoringSSL/ssl/handshake_client.cc:1707-1789 | the dispatch loop runs states until one waits, and ends because the rank decreases |
| `HandshakeObject.SslHandshake.Resolve` | Xcode/Pods/BoringSSL/ssl/handshake.cc:495-613 | a wait is resolved exactly if what it waits for is there, or reported to the caller; nothing else changes |
| `HandshakeObject.SslHandshake.GetFinished` | Xcode/Pods/BoringSSL/ssl/handshake.cc:380-429 | accepted exactly if the verify data is that of the transcript before it; then it is hashed and recorded |
| `HandshakeSteps.EveryStateAsListed` | Xcode/Pods/BoringSSL/ssl/handshake_server.cc:1539-1621 | every state of either peer, whatever the other one sent: it takes the message listed for it and no other, waits if there is none, fails on a wrong one that must come and passes one that may be absent; it sends exactly what is listed, and only when it is left; it hashes exactly what it took and sent |
| `HandshakeSteps.ServerStateAsListed` | Xcode/Pods/BoringSSL/ssl/handshake_server.cc:426-1537 | the server states: CertificateVerify exactly with a client key, NextProtocol and channel identity exactly if negotiated, certificate and status as negotiated; a retried signature sends nothing twice |
| `HandshakeSteps.ClientStateAsListed` | Xcode/Pods/BoringSSL/ssl/handshake_client.cc:385-1705 | the client states: an optional status, key exchange or certificate request is taken exactly if it comes, a Certificate sent exactly if requested; a retried signature sends nothing twice |
| `HandshakeSteps.EachHashedOnce` | Xcode/Pods/BoringSSL/ssl/handshake.cc:176-222 | against any peer and any retries the transcript is a merge of the messages taken and the messages sent, each once and in order, and of nothing else; and what arrived is what was taken and what still waits |
| `CipherChoice.ChooseCipher` | Xcode/Pods/BoringSSL/ssl/handshake_server.cc:357-424 | null if and only if no common cipher is supported; with server preference the client's favourite of the server's first group that has a usable one, without it the client's first usable cipher |
| `CipherChoice.Choose` | Xcode/Pods/BoringSSL/ssl/handshake_server.cc:388-421 | the single pass with the running minimum, for arbitrary flags: an answer exactly if the first usable group is closed, and then its best cipher |
| `CipherChoice.UsableMeansGroup` | Xcode/Pods/BoringSSL/ssl/handshake_server.cc:357-424 | if the last flag is 0, every usable cipher means an answer |
| `CipherChoice.SupportedExactly` | Xcode/Pods/BoringSSL/ssl/handshake_server.cc:393-402 | a cipher can be used if and only if the version is one of its versions and the masks share a bit with its key exchange and with its authentication |

## Left out

nanopb:

- Pointer fields and allocation, callbacks, extensions, fixed-count repeated fields, the build without 64-bit
  integers, streams over user functions: configuration variants and foreign code.
- The memory of the struct beyond offsets: slots stand for fields, which `FieldIter.WriteKeepsOthers` justifies
  for structs as compilers lay them out (`FieldIter.LaidOut`); array elements beyond the count and bytes of a string behind its NUL are not values of the model.
- The decoder's error messages (a failure is a failure); the encoder's errors are kept.
- Descriptors: field tags are distinct and below 2^29 and widths are those of the 32-bit descriptor layout,
  as generated code guarantees.
- RoundTrip.DecodeEncode: whether an encoding of 2^63 bytes or more with a length prefix beyond 32 bits is
  refused is not stated; no object in memory has that size.
- Encoder.Encode: sizes of submessages are assumed below 2^64, the range of `size_t`.
- RecordAlgebra.DecodeConcatenation: required fields are excluded, since the first part alone may lack one.

TLS output and DTLS:

- TlsOutput.Run: says nothing about the order once a capacity of 0xFFFA to 0xFFFF was asked for, where the
  code's buffer can lose data.
- TlsOutput.Connection.constructor: a record of the largest fragment with its overhead is assumed to fit the
  safe capacities, as the record layer's overhead limits guarantee.
- TlsOutput.Connection.WriteAppData: a negative length is not modelled, nor early data.
- TlsOutput.Connection.DispatchAlert: only the stream transport; alerts of DTLS are one sealed record.
- Cipher text: what a cipher makes of each plaintext is any bytes, or a failure, given with the connection; the
  log of what a cipher was given and made of it stands for what a key opens.
- UnknownFields.OtherReader: fields that both descriptors have are the same in both, with the same submessages.
- DtlsEndToEnd.Run: the network delivers only what was sealed, no forged records, and nothing so late that its
  message number has come around.
- Record splitting for CBC ciphers, which belongs to `tls_seal_record`, and the rest of that function.
- Incoming alerts and the state of the read direction in TLS; DTLS timers and the retransmission schedule
  (retransmission may happen at any time); HelloVerifyRequest and version negotiation of DTLS.
- The check of overlapping input and output in `dtls_seal_record`.
- BIO, failed allocations, error queues, message and info callbacks.

Handshake:

- Contents of messages other than what steers the two machines: X.509, key exchange, ticket contents, extension
  parsing. Their outcome is an arbitrary input, and the agreed extension flags travel in the ServerHello.
- TLS 1.3, SSL 3.0, renegotiation, False Start, early data, handoff, and the DTLS branches of the two machines.
- The order of the partial effects of a step that fails: an error is final in the code, so a failing step
  leaves the model's state as it was.
- Alerts and warnings between handshake messages; a transport that fails for good.
- HandshakeWorld.NeverUnexpected: cryptography and parsing succeed and the server's demand for a client
  certificate is met; callbacks and flushes may be retried at will.
- Sessions: whether one is found for resumption, and whether it has the handshake hash that Channel ID needs,
  are configuration flags.
