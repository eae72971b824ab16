# nanopb and BoringSSL handshake logic, modelled and proved in Dafny

The Celeste application carries two protocol libraries under `Celeste/Pods`: nanopb, a table-driven
encoder and decoder for Protocol Buffers, and BoringSSL. This project models the parts of them with the
most state and proves what they are for. `dafny verify dfyconfig.toml` checks everything.

Each component has a description on values (what the bytes mean, what one step does, what an invariant
says), the imperative code in the source's own shape proved against that description, and laws over
all inputs, all runs or all interleavings.

**nanopb** (`Pb*.dfy`, with `Bits.dfy` for machine words as numbers). `PbTypes` has descriptors and
messages as trees, `PbWire` varints, fixed-width numbers, strings and tags, `PbFormat` the encoding of a
message and `PbParse` its decoding as a fold over fields. `PbStreams` has the mutable streams and the
cyclic field iterator, `PbEncode` and `PbDecode` the procedures over them. The main results: the round trip
for every descriptor tree, same bytes if and only if same content, decoding and encoding as a canonical
form of any bytes that decode (`PbCanonical`), exact sizing, merging by concatenation, unknown fields
ignored, and the required-field check as a statement about what was seen.
`PbSpelling` describes the number formats byte by byte, `PbRecords` the wire format as sequences of
records, apart from the code; the encoder is proved to write a message's records, the decoder to do what
any records say (`PbReading`), and `PbVersions` draws the conclusions for other writers and for tables of
different ages. Strings are meant to be NUL-terminated within their field, as the generator promises; encodings are
shorter than 2^32 bytes, the limit of a length prefix.

**DTLS handshake messages** (`DtlsFragment`, `DtlsReceiver`, `DtlsSender`, `DtlsNetwork`,
`DtlsEndpoint`). Sending cuts a
flight into records that fit the MTU; receiving keeps a ring of seven partly assembled messages, each
with its bit mask. `DtlsNetwork` puts a sender and a receiver on a network that loses, duplicates and
reorders records and proves in-order delivery and exact reassembly in every run. `DtlsEndpoint` shows that
the operations of the sender's and the receiver's objects are steps of that system, so that what a receiver
hands out is what the peer queued.

**DTLS record numbers** (`DtlsRecord`, `DtlsRecordLayer`). The 64-bit replay window against the set of
numbers accepted, and the uniqueness of the numbers sealed, over every run before a counter wraps. For runs
that wrap, the exact condition under which a number comes twice, and a run of each kind where it does.

**TLS 1.2 handshakes** (`TlsTypes`, `TlsClient`, `TlsServer`, `TlsRun`, `TlsClientSteps`,
`TlsServerSteps`, `TlsDriver`, `TlsChecks`). Both machines as functions of state and oracle; their invariant says
that the log of events is the RFC 5246 flow up to the current state, that the transcript has exactly the logged
messages, and that every Finished and CertificateVerify binds what came before it. `TlsRun` extends this to
all runs, interrupted wherever the code can be, and shows that two peers that are done agree. The
procedures of the two source files are proved to do the machines' steps, and the driver to produce only
runs. `TlsChecks` says what was checked by each state and why a step fails or waits. Certificates, signatures, key derivation, extensions and callbacks are the fields of an oracle.

**Cipher choice** (`CipherChoice`) and the **branch-free PKCS#1 check** (`Pkcs1`) of the server.

**Reference counts** (`Refcount`). The compare-and-swap loops refine the locked version under every
interleaving, with spurious failures.

Where the code differs from what one expects, the model follows the code and a lemma says so: a DTLS
fragment seven ahead of the current message passes the range test and is then fatal
(`DtlsReceiver.AcceptFailsExactly`); a message type without fields rejects tag number zero
(`PbMerge.EmptyTypeRejectsTagZero`); a preference list whose last flag is not 0 can hide a shared cipher
(`CipherChoice.AllClosed` says exactly when it cannot); the seal that exhausts the 48-bit counter leaves it at
zero, and numbers come again exactly when `DtlsRecord.ReuseExactly` says.

## Model

| member | source | states |
|---|---|---|
| PbWire.VarintRoundTrip | Celeste/Pods/nanopb/pb_encode.c:574-594 | for every 64-bit n, decoding the encoding of n followed by any bytes gives n and leaves exactly those bytes |
| PbWire.Varint32RoundTrip | Celeste/Pods/nanopb/pb_decode.c:182-242 | the 32-bit decoder reads back every 32-bit n from its encoding and leaves what follows |
| PbWire.VarintAtMostTen | Celeste/Pods/nanopb/pb_encode.c:574-594 | no 64-bit value takes more than ten bytes |
| PbWire.VarintDecodersAgree | Celeste/Pods/nanopb/pb_decode.c:182-271 | on every input that both varint decoders accept they consume the same bytes, and the 32-bit result is the 64-bit one modulo 2^32 |
| PbWire.ZigZagRoundTrip | Celeste/Pods/nanopb/pb_encode.c:596-605 | zig-zag maps n to 2n or -2n-1 by its sign, and decoding inverts it for every signed 64-bit n |
| PbWire.UnZigZagRoundTrip | Celeste/Pods/nanopb/pb_decode.c:1240-1252 | every 64-bit word is the zig-zag of the signed value it decodes to |
| PbWire.SignedRoundTrip | Celeste/Pods/nanopb/pb_decode.c:1289-1324 | sign extension to 64 bits and narrowing back is the identity on every value of the field's width |
| PbWire.SignedClamp | Celeste/Pods/nanopb/pb_decode.c:1289-1324 | a value of the field's width passes the decoder's range test: narrowing does not change it |
| PbWire.DecFixedRoundTrip | Celeste/Pods/nanopb/pb_decode.c:1254-1286 | a fixed-width little-endian number is read back, and what follows it is left |
| PbWire.StringRoundTrip | Celeste/Pods/nanopb/pb_encode.c:674-680 | a length-delimited string of fewer than 2^32 bytes is read back with what follows left |
| PbWire.TagRoundTrip | Celeste/Pods/nanopb/pb_decode.c:293-314 | every non-zero tag and wire type is read back from its encoding |
| PbWire.SkipFieldAppend | Celeste/Pods/nanopb/pb_decode.c:316-328 | skipping a field consumes the same bytes whatever follows it |
| PbWire.DecVarint | Celeste/Pods/nanopb/pb_decode.c:250-271 | a varint that is accepted is a 64-bit number and consumes at least one byte |
| PbWire.DecVarint32 | Celeste/Pods/nanopb/pb_decode.c:182-248 | a varint that is accepted is a 32-bit number and consumes at least one byte |
| PbSpelling.EncVarintSpells | Celeste/Pods/nanopb/pb_encode.c:574-594 | the bytes of a varint are the groups of seven bits of the number, the least first, the top bit set on all but the last, with no empty group at the end |
| PbSpelling.DecVarintSpells | Celeste/Pods/nanopb/pb_decode.c:250-271 | the 64-bit decoder takes exactly the varints that end within ten bytes, and gives the number they spell modulo 2^64 |
| PbSpelling.DecVarint32Spells | Celeste/Pods/nanopb/pb_decode.c:182-242 | the 32-bit decoder on every varint of up to 36 bytes: it gives the low word; bytes beyond the fifth must be empty or a sign extension, and bits 4 to 6 of the fifth byte are looked at only if it is the last |
| PbSpelling.DecVarintEndless | Celeste/Pods/nanopb/pb_decode.c:182-282 | bytes that all have the top bit set are refused by both decoders and by the skip |
| PbSpelling.SkipVarintSpells | Celeste/Pods/nanopb/pb_decode.c:273-282 | skipping a varint goes exactly to its end, however long it is |
| PbSpelling.EncFixedSpells | Celeste/Pods/nanopb/pb_encode.c:607-633 | byte i of a fixed-width number is its byte of weight 256^i |
| PbSpelling.EncFixedOfLittle | Celeste/Pods/nanopb/pb_decode.c:1254-1286 | reading a fixed-width number and writing it again gives the same bytes |
| PbSpelling.EncTagSpells | Celeste/Pods/nanopb/pb_encode.c:635-639 | the tag word is eight times the field number plus the wire type |
| PbRecords.EncodesRecords | Celeste/Pods/nanopb/pb_encode.c:494-516 | the encoder accepts exactly the messages whose present values fit (integer widths, byte arrays, array capacities), and writes exactly their records, described apart from it: field number and payload, in the order of the table |
| PbRecords.ValueWrites | Celeste/Pods/nanopb/pb_encode.c:734-869 | every value is written as the payload of its type: negative integers as 64-bit two's complement, sint as zig-zag, fixed numbers least byte first, strings up to the terminator, messages as their records; and it counts as zero exactly if that payload is zero or empty |
| PbRecords.SlotWrites | Celeste/Pods/nanopb/pb_encode.c:215-392 | which records a field has by its presence rule; it is to be left out exactly when it has none |
| PbRecords.ArrayWrites | Celeste/Pods/nanopb/pb_encode.c:126-211 | an array of numbers is one packed record, any other array a record for each item; more items than the capacity are refused |
| PbRecords.CStringExactly | Celeste/Pods/nanopb/pb_encode.c:831-855 | the bytes of a string are its longest prefix without a zero byte within the limit |
| PbReading.PayloadReads | Celeste/Pods/nanopb/pb_decode.c:1289-1508 | the payload of each type decodes to the value it stands for exactly if the destination can hold it, whatever follows |
| PbReading.SlotReads | Celeste/Pods/nanopb/pb_decode.c:401-475 | a value is stored, appended below the capacity, or becomes the active member, whatever wire type is on the wire |
| PbReading.RecordReads | Celeste/Pods/nanopb/pb_decode.c:919-997 | a record of a listed field is one step of the loop and updates that slot, and one of an unlisted field is skipped, before any rest |
| PbReading.MessageReads | Celeste/Pods/nanopb/pb_decode.c:901-1049 | for any records in any order, known or not: the message decodes exactly if each can be stored and each of the first 64 required fields has one, and then to what the records say in turn |
| PbReading.EmptyReads | Celeste/Pods/nanopb/pb_decode.c:884-895 | no bytes decode to the defaults, unless a field is required |
| PbReading.DefaultMeaning | Celeste/Pods/nanopb/pb_decode.c:812-882 | the default of a field is the value in its descriptor if there is one, and otherwise zero, nothing, zero bytes or a message of defaults; a field with a presence flag is absent |
| PbReading.NarrowReadsWide | Celeste/Pods/nanopb/pb_encode.c:734-757 | a number written from a field of any width reads as the same number in a 64-bit field of the type, negative ones included |
| PbReading.PackedOrNot | Celeste/Pods/nanopb/pb_decode.c:423-454 | any payloads of an array field decode alike packed into one record and as a record each, after any items that are there, and fail alike |
| PbReading.SkipsPayload | Celeste/Pods/nanopb/pb_decode.c:316-328 | the skip by wire type steps over every payload of each of the four kinds exactly |
| PbVersions.UnpackedAppends | Celeste/Pods/nanopb/pb_decode.c:444-454 | an unpacked entry of an array that could be packed is appended |
| PbVersions.ArrayForms | Celeste/Pods/nanopb/pb_decode.c:423-454 | the items of an array decode to the same slot written one by one and packed: the items after those that are there |
| PbVersions.LastWins | Celeste/Pods/nanopb/pb_decode.c:401-475 | a singular scalar that comes twice reads as its last occurrence |
| PbVersions.LastMemberWins | Celeste/Pods/nanopb/pb_decode.c:457-470 | of two members of a oneof the later one counts |
| PbVersions.PartsMerge | Celeste/Pods/nanopb/pb_decode.c:1463-1485 | a singular message that comes in two parts reads as one with both parts in it |
| PbVersions.AnyOrder | Celeste/Pods/nanopb/pb_decode.c:919-997 | neighbouring records of different fields that are not in one oneof can change places, errors included |
| PbVersions.SkipsValue | Celeste/Pods/nanopb/pb_decode.c:316-328 | every encoded value of every type is skipped exactly by the wire type of its field |
| PbVersions.TaggedIsUnknown | Celeste/Pods/nanopb/pb_decode.c:919-997 | a value of a field that a table does not list is an unknown field for it, which is ignored |
| PbVersions.GroupsRefused | Celeste/Pods/nanopb/pb_decode.c:316-328 | an unlisted field of wire type 3, 4, 6 or 7 ends decoding with an error |
| PbVersions.WireTypeIgnored | Celeste/Pods/nanopb/pb_decode.c:401-475 | the wire type of a listed field is not looked at, except for packed arrays |
| PbVersions.Truncated | Celeste/Pods/nanopb/pb_decode.c:919-997 | a field that is cut off anywhere is an error |
| PbVersions.OlderReads | Celeste/Pods/nanopb/pb_decode.c:919-997 | bytes written with a table decode under any table with some of its entries to the content of the fields both have |
| PbVersions.NewerReads | Celeste/Pods/nanopb/pb_decode.c:901-1049 | bytes written with a table decode under any table with more entries to the same content, the new fields being absent |
| PbMerge.FieldsConcat | Celeste/Pods/nanopb/pb_decode.c:919-997 | if all of a is whole fields, the field loop over a ++ b is the loop over b started from what a left, seen fields included |
| PbMerge.StoppedIgnoresTail | Celeste/Pods/nanopb/pb_decode.c:293-314 | a zero tag ends the message: the result is the same whatever follows, and all of that stays unread |
| PbMerge.ConcatenationExactly | Celeste/Pods/nanopb/pb_decode.c:901-1049 | decoding a ++ b succeeds exactly when b decodes into what a left and each required field is in a or in b, and then gives the slots of decoding in two calls |
| PbMerge.MergeByConcatenation | Celeste/Pods/nanopb/pb_decode.c:901-1049 | when a and then b decode into the same destination, a ++ b decodes to the same contents (merging by concatenation) |
| PbMerge.UnknownFieldIgnored | Celeste/Pods/nanopb/pb_decode.c:919-997 | a well-formed unknown field inserted at any field boundary changes nothing, unless the message type is empty and the tag number zero |
| PbMerge.EmptyTypeRejectsTagZero | Celeste/Pods/nanopb/pb_common.c:78-94 | the exception is real, at every field boundary: a message type without fields rejects a field with tag number zero after any whole fields, because the iterator takes the terminator of the table for it |
| PbMerge.SeenAccumulates | Celeste/Pods/nanopb/pb_decode.c:981-986 | required fields seen earlier never change the outcome of later fields, they are only added |
| PbRoundTrip.MessageRoundTrip | Celeste/Pods/nanopb/pb_decode.c:1051-1063 | for every well-formed descriptor tree and every conforming message, decoding the encoded bytes succeeds, reads all of them and gives the message's content |
| PbRoundTrip.SameBytesSameContent | Celeste/Pods/nanopb/pb_encode.c:494-516 | two messages have the same encoding if and only if they have the same content |
| PbRoundTrip.ValueRoundTrip | Celeste/Pods/nanopb/pb_decode.c:1289-1508 | every single value of every field type decodes to its content from a cleared destination, whatever follows it |
| PbRoundTrip.PackedRoundTrip | Celeste/Pods/nanopb/pb_decode.c:423-441 | a packed body appends exactly the remaining items of the array, from any starting count |
| PbRoundTrip.SlotRoundTrip | Celeste/Pods/nanopb/pb_decode.c:401-475 | the bytes of one field fill its slot with its content, change no other slot and mark it as seen |
| PbRoundTrip.ZeroIsDefault | Celeste/Pods/nanopb/pb_encode.c:215-304 | a value that is left out as a proto3 default has the content that decoding starts from |
| PbRoundTrip.AbsFromEncodes | Celeste/Pods/nanopb/pb_encode.c:494-516 | a message and its content encode to the same bytes |
| PbCanonical.CanonicalForm | Celeste/Pods/nanopb/pb_decode.c:1051-1063 | whatever bytes decode, the result can be encoded again; that encoding decodes to the content of the message, and encoding this content gives the same bytes: one round of decoding and encoding is a canonical form |
| PbCanonical.MessageStaysClean | Celeste/Pods/nanopb/pb_decode.c:901-1049 | decoding any bytes into storage that the encoder accepts leaves storage that it accepts: strings terminated, sizes and counts within the descriptor |
| PbCanonical.AllCleanEncode | Celeste/Pods/nanopb/pb_encode.c:494-516 | a message in such storage always has an encoding |
| PbStreams.OStream.Write | Celeste/Pods/nanopb/pb_encode.c:101-119 | a write succeeds exactly when it fits below max_size, then appends exactly its bytes; a sizing stream only counts them |
| PbStreams.OStream.BufWrite | Celeste/Pods/nanopb/pb_encode.c:72-82 | the bytes go to the write position, nothing else in the buffer changes |
| PbStreams.OStream.Count | Celeste/Pods/nanopb/pb_encode.c:101-119 | a sizing stream counts the bytes it is given without looking at them |
| PbStreams.IStream.Read | Celeste/Pods/nanopb/pb_decode.c:100-132 | a read gives the next bytes or, when too few are left, consumes nothing and fails |
| PbStreams.IStream.ReadByte | Celeste/Pods/nanopb/pb_decode.c:136-152 | one byte is taken, or the stream is at its end and unchanged |
| PbStreams.FieldIter.Begin | Celeste/Pods/nanopb/pb_common.c:8-18 | the iterator stands on the first field, if there is one |
| PbStreams.FieldIter.Next | Celeste/Pods/nanopb/pb_common.c:20-76 | the iterator steps cyclically; data offset and required index stay those of a linear scan |
| PbStreams.FieldIter.FindTag | Celeste/Pods/nanopb/pb_common.c:78-94 | from any position the search succeeds exactly when a field has the tag (or the table is empty and the tag zero), and stands on such a field with the offsets of a linear scan; a failed search comes back to where it began |
| PbEncode.EncodeVarint | Celeste/Pods/nanopb/pb_encode.c:574-594 | the loop writes exactly the varint of the value, or fails because it does not fit |
| PbEncode.EncodeSvarint | Celeste/Pods/nanopb/pb_encode.c:596-605 | writes exactly the varint of the zig-zag of the value |
| PbEncode.EncodeFixed | Celeste/Pods/nanopb/pb_encode.c:607-633 | writes exactly the little-endian bytes |
| PbEncode.EncodeTag | Celeste/Pods/nanopb/pb_encode.c:635-639 | writes exactly the tag word of field number and wire type |
| PbEncode.EncodeTagForField | Celeste/Pods/nanopb/pb_encode.c:641-672 | writes the tag with the wire type of the field's type |
| PbEncode.EncodeString | Celeste/Pods/nanopb/pb_encode.c:674-680 | writes exactly the length and the bytes |
| PbEncode.StringLength | Celeste/Pods/nanopb/pb_encode.c:831-855 | the scan stops at the first zero byte or at the limit |
| PbEncode.EncodeData | Celeste/Pods/nanopb/pb_encode.c:734-869 | every field type writes exactly the bytes its format prescribes, and rejects exactly the values it prescribes none for |
| PbEncode.EncodeSubmessage | Celeste/Pods/nanopb/pb_encode.c:682-730 | the two passes agree: the length prefix is the size of what the second pass writes, so the size never differs between them |
| PbEncode.EncodeEntries | Celeste/Pods/nanopb/pb_encode.c:139-209 | the items of an array are written in order, tagged or not |
| PbEncode.SizeOfEntries | Celeste/Pods/nanopb/pb_encode.c:146-165 | the computed size of a packed body is exactly the number of bytes its items take |
| PbEncode.EncodeRepeated | Celeste/Pods/nanopb/pb_encode.c:126-211 | an array is written as its packed or unpacked format prescribes, nothing for an empty one, failure beyond its capacity |
| PbEncode.CheckProto3Default | Celeste/Pods/nanopb/pb_encode.c:215-304 | true exactly for the slots whose field is to be left out; a member of a oneof is left out when no member is active (which == 0) |
| PbEncode.WhichIsActive | Celeste/Pods/nanopb/pb_encode.c:240-244 | the which value of a union is zero exactly when none of its members is active |
| PbEncode.CheckMessageEmpty | Celeste/Pods/nanopb/pb_encode.c:261-280 | a proto3 submessage counts as empty exactly when all its fields are to be left out |
| PbEncode.EncodeField | Celeste/Pods/nanopb/pb_encode.c:307-392 | one field is written exactly when its presence rule says so |
| PbEncode.EncodeMessage | Celeste/Pods/nanopb/pb_encode.c:494-516 | a message is written as the concatenation of its fields; it succeeds exactly when the message has an encoding and there is room for it |
| PbEncode.EncodeNullTerminated | Celeste/Pods/nanopb/pb_encode.c:523-531 | the encoding is followed by one zero byte |
| PbEncode.GetEncodedSize | Celeste/Pods/nanopb/pb_encode.c:533-542 | the reported size is exactly the length of the encoding |
| PbEncode.EncodeIntoBuffer | Celeste/Pods/nanopb/pb_encode.c:84-99 | after a sizing pass, writing succeeds exactly when that many bytes are left, and then fills exactly that many |
| PbEncode.FixedItems | Celeste/Pods/nanopb/pb_encode.c:144-152 | the shortcut size of packed fixed-width items is the length of their bytes |
| PbRequired.FlagSet | Celeste/Pods/nanopb/pb_decode.c:983-985 | setting a bit in the two-word bit field changes that flag only |
| PbRequired.RequiredAt | Celeste/Pods/nanopb/pb_common.c:46-50 | every required index below the count belongs to a required field |
| PbRequired.FlagsDecide | Celeste/Pods/nanopb/pb_decode.c:1006-1046 | all counted flags are set exactly when every one of the first 64 required fields was seen |
| PbRequired.MaskCheck | Celeste/Pods/nanopb/pb_decode.c:1033-1044 | a word with no flag beyond the count equals the shifted mask exactly when all counted flags are set |
| PbRequired.CheckRequired | Celeste/Pods/nanopb/pb_decode.c:1006-1046 | the two-word check passes if and only if each of the first 64 required fields was seen |
| PbDecode.DecodeVarint | Celeste/Pods/nanopb/pb_decode.c:250-271 | the loop reads exactly the varint the format defines, or fails where it does |
| PbDecode.DecodeVarint32 | Celeste/Pods/nanopb/pb_decode.c:182-248 | the loop reads exactly the 32-bit varint, with its own overflow rules, and reports the end of the stream |
| PbDecode.DecodeTag | Celeste/Pods/nanopb/pb_decode.c:293-314 | a zero tag ends the message |
| PbDecode.SkipVarintField | Celeste/Pods/nanopb/pb_decode.c:273-282 | a varint is skipped up to its last byte |
| PbDecode.SkipString | Celeste/Pods/nanopb/pb_decode.c:284-291 | a length-delimited field is skipped exactly |
| PbDecode.Skip | Celeste/Pods/nanopb/pb_decode.c:316-328 | an unknown field is skipped by its wire type, an unknown wire type is an error |
| PbDecode.MakeSubstream | Celeste/Pods/nanopb/pb_decode.c:367-380 | the length moves from the parent's budget to the substream |
| PbDecode.CloseSubstream | Celeste/Pods/nanopb/pb_decode.c:382-395 | the parent goes on after the substream's end, whatever was left in it |
| PbDecode.DecodeFixed | Celeste/Pods/nanopb/pb_decode.c:1254-1286 | little-endian assembly of the bytes read |
| PbDecode.FieldDefault | Celeste/Pods/nanopb/pb_decode.c:812-882 | the slot gets the default the format prescribes |
| PbDecode.SetToDefaults | Celeste/Pods/nanopb/pb_decode.c:884-895 | every slot gets its default; the cyclic iterator visits each once |
| PbDecode.StoreInteger | Celeste/Pods/nanopb/pb_decode.c:1289-1372 | a value is stored exactly when the number that the word stands for lies in the range of the field's width and sign, and then it is that number |
| PbParse.StoreIntRange | Celeste/Pods/nanopb/pb_decode.c:1289-1372 | for every word and every integer type, the casts and their tests accept exactly the numbers in the range of the member, unchanged |
| PbDecode.DecodeBlob | Celeste/Pods/nanopb/pb_decode.c:1391-1461 | a blob is read when it fits its destination, and nothing is written beyond it |
| PbDecode.DecodeData | Celeste/Pods/nanopb/pb_decode.c:1289-1508 | every field type reads exactly what the format defines for it |
| PbDecode.DecodeSubmessage | Celeste/Pods/nanopb/pb_decode.c:1463-1485 | a submessage is decoded within its own byte budget into the nested destination |
| PbDecode.DecodePackedArray | Celeste/Pods/nanopb/pb_decode.c:423-441 | a packed body is decoded item by item until its budget ends, and rejected beyond the array's capacity |
| PbDecode.DecodeStatic | Celeste/Pods/nanopb/pb_decode.c:401-475 | each presence rule stores, appends or switches the union as the format prescribes |
| PbDecode.CountRequired | Celeste/Pods/nanopb/pb_decode.c:1008-1018 | the number of required fields |
| PbDecode.MarkSeen | Celeste/Pods/nanopb/pb_decode.c:981-986 | the flag of a required field is set, up to the limit of 64 |
| PbDecode.DecodeTagged | Celeste/Pods/nanopb/pb_decode.c:919-997 | one field of the message is decoded into its slot or skipped |
| PbDecode.DecodeNoInit | Celeste/Pods/nanopb/pb_decode.c:901-1049 | the whole loop: a message decodes into the destination exactly when the format says so, with the slots and the rest it defines |
| PbDecode.DecodeInit | Celeste/Pods/nanopb/pb_decode.c:1051-1063 | as above, from the defaults |
| PbDecode.DecodeDelimited | Celeste/Pods/nanopb/pb_decode.c:1080-1093 | a length-delimited message is decoded within its budget; also when it fails to decode, the parent keeps exactly the budget of what follows it |
| DtlsFragment.ParseRoundTrip | Celeste/Pods/BoringSSL-GRPC/ssl/d1_both.cc:459-473 | a fragment's header and body are parsed back from its bytes, and what follows is left |
| DtlsFragment.HeaderFields | Celeste/Pods/BoringSSL-GRPC/ssl/d1_both.cc:511-523 | header fields are big-endian and of their widths |
| DtlsFragment.BitRangeBits | Celeste/Pods/BoringSSL-GRPC/ssl/d1_both.cc:203-206 | bit k of the mask is set exactly for start <= k < end |
| DtlsFragment.HmFragment.SetBits | Celeste/Pods/BoringSSL-GRPC/ssl/d1_both.cc:226-234 | the byte-wise marking sets exactly the bits of the range, and never one at or beyond the message length |
| DtlsFragment.HmFragment.IsComplete | Celeste/Pods/BoringSSL-GRPC/ssl/d1_both.cc:236-250 | the byte-wise test is true exactly when every byte of the message is marked |
| DtlsFragment.HmFragment.Mark | Celeste/Pods/BoringSSL-GRPC/ssl/d1_both.cc:211-251 | after any marks a byte is marked exactly when some marked range has it, and the bit mask is freed exactly when all are |
| DtlsFragment.HmFragment.Add | Celeste/Pods/BoringSSL-GRPC/ssl/d1_both.cc:387-403 | the body of a fragment is copied to its offset and marked; the bytes gathered are the union of all fragments, the last writer winning |
| DtlsReceiver.SlotIsForMessage | Celeste/Pods/BoringSSL-GRPC/ssl/d1_both.cc:273-281 | the assertion on the slot's number never fails: a slot found for a number of the window holds that number |
| DtlsReceiver.AcceptKeeps | Celeste/Pods/BoringSSL-GRPC/ssl/d1_both.cc:350-403 | every accepted fragment keeps the ring: an occupied slot i holds a number of the window that is i modulo 7 |
| DtlsReceiver.OpenRecordKeeps | Celeste/Pods/BoringSSL-GRPC/ssl/d1_both.cc:297-406 | a whole record of fragments keeps the ring |
| DtlsReceiver.NextKeeps | Celeste/Pods/BoringSSL-GRPC/ssl/d1_both.cc:426-438 | taking a message keeps the ring, with the 16-bit counter wrapping |
| DtlsReceiver.AcceptFailsExactly | Celeste/Pods/BoringSSL-GRPC/ssl/d1_both.cc:350-403 | a fragment is fatal exactly when it is out of bounds, too long, not the current message while reading encrypted, seven ahead, or contradicts the slot's type or length |
| DtlsReceiver.Receiver.GetIncomingMessage | Celeste/Pods/BoringSSL-GRPC/ssl/d1_both.cc:265-295 | the slot of the number: the one there if it agrees in type and length, a new one if it is free, none for a number outside the window |
| DtlsReceiver.Receiver.AddFragment | Celeste/Pods/BoringSSL-GRPC/ssl/d1_both.cc:350-403 | the procedure does what Accept says, for every fragment, and an error leaves the ring valid |
| DtlsReceiver.Receiver.OpenFragments | Celeste/Pods/BoringSSL-GRPC/ssl/d1_both.cc:350-405 | all fragments of a handshake record are taken in order until one fails |
| DtlsReceiver.Receiver.OpenHandshake | Celeste/Pods/BoringSSL-GRPC/ssl/d1_both.cc:297-406 | by content type: handshake fragments go to the ring, a ChangeCipherSpec in the clear with the one byte 1 is noted and any other is an error, application data is an error in the clear and discarded otherwise, every other type is an error |
| DtlsReceiver.Receiver.OpenChangeCipherSpec | Celeste/Pods/BoringSSL-GRPC/ssl/d1_both.cc:475-490 | success takes exactly one ChangeCipherSpec, from an earlier record or this one; handshake fragments met meanwhile go to the ring |
| DtlsReceiver.Receiver.HasUnprocessedHandshakeData | Celeste/Pods/BoringSSL-GRPC/ssl/d1_both.cc:440-457 | true exactly when a ChangeCipherSpec is pending or a slot other than that of the message handed out is occupied |
| DtlsReceiver.Receiver.SetReadState | Celeste/Pods/BoringSSL-GRPC/ssl/dtls_method.cc:81-95 | the epoch and the cipher change exactly when no data of the old epoch is left, so no message is assembled across the change |
| DtlsReceiver.Receiver.IsCurrentMessageComplete | Celeste/Pods/BoringSSL-GRPC/ssl/d1_both.cc:255-263 | true exactly when every byte of the current message has arrived |
| DtlsReceiver.Receiver.GetMessage | Celeste/Pods/BoringSSL-GRPC/ssl/d1_both.cc:408-424 | a message is handed out exactly when it is complete, with a header that has fragment offset zero and the full length |
| DtlsReceiver.Receiver.NextMessage | Celeste/Pods/BoringSSL-GRPC/ssl/d1_both.cc:426-432 | the current slot is freed and the window moves by one |
| DtlsSender.PassTiles | Celeste/Pods/BoringSSL-GRPC/ssl/d1_both.cc:644-734 | from any cursor, the fragments a pass puts out of one message tile the rest of it without gap or overlap, in order |
| DtlsSender.FlightTiles | Celeste/Pods/BoringSSL-GRPC/ssl/d1_both.cc:782-827 | over a whole pass the fragments of each message tile it, and joined give its body |
| DtlsSender.TilesJoin | Celeste/Pods/BoringSSL-GRPC/ssl/d1_both.cc:661-690 | fragments that tile a body join to it |
| DtlsSender.Advances | Celeste/Pods/BoringSSL-GRPC/ssl/d1_both.cc:739-780 | every packet moves the cursor forward in the order (message, offset), so a pass ends |
| DtlsSender.FlightGrows | Celeste/Pods/BoringSSL-GRPC/ssl/d1_both.cc:555-594 | queuing keeps the numbers of a flight consecutive and so distinct |
| DtlsSender.Sender.constructor | Celeste/Pods/BoringSSL-GRPC/ssl/d1_lib.cc:81-104 | nothing is queued, numbers start at zero and the invariant of the sender holds |
| DtlsSender.Sender.Clear | Celeste/Pods/BoringSSL-GRPC/ssl/d1_both.cc:500-509 | the flight is dropped and the cursor reset |
| DtlsSender.Sender.AddOutgoing | Celeste/Pods/BoringSSL-GRPC/ssl/d1_both.cc:555-594 | a message joins the flight (a new one, if the last is complete) and the transcript once, or the flight is full and only the completed one is dropped |
| DtlsSender.Sender.AddMessage | Celeste/Pods/BoringSSL-GRPC/ssl/d1_both.cc:511-537 | a message is finished with its header and its own number and queued exactly when the flight has room; otherwise nothing changes |
| DtlsSender.Sender.AddChangeCipherSpec | Celeste/Pods/BoringSSL-GRPC/ssl/d1_both.cc:600-602 | a ChangeCipherSpec is queued under the current epoch, takes no number and is not hashed |
| DtlsSender.Sender.SetWriteState | Celeste/Pods/BoringSSL-GRPC/ssl/dtls_method.cc:97-107 | the epoch steps, and the old cipher stays, so that a flight queued under it can still be sealed |
| DtlsSender.Sender.NoteReply | Celeste/Pods/BoringSSL-GRPC/ssl/d1_both.cc:433-437 | a message read after the flight was completed marks it as answered |
| DtlsSender.Sender.OnHandshakeComplete | Celeste/Pods/BoringSSL-GRPC/ssl/dtls_method.cc:71-79 | the last flight is dropped exactly when it was answered and is kept for retransmission otherwise |
| DtlsSender.Sender.RoomAtMinimum | Celeste/Pods/BoringSSL-GRPC/ssl/d1_both.cc:667-711 | with an overhead of at most 202 bytes a record of any message fits the smallest MTU |
| DtlsSender.Sender.SealNextMessage | Celeste/Pods/BoringSSL-GRPC/ssl/d1_both.cc:644-734 | sealing fails only if the message is neither of the current nor of the previous epoch, its AEAD needs more room in front than it announces in all, or the AEAD or the length fails; there is no progress exactly without room for one byte; otherwise the record continues at the cursor, is sealed under the message's own epoch, holds as much of the message as the room does and fits |
| DtlsSender.Sender.SealRecord | Celeste/Pods/BoringSSL-GRPC/ssl/dtls_record.cc:294-351 | sealing succeeds exactly if the AEAD does within what it announces and the length fits 16 bits |
| DtlsSender.Sender.SealNextPacket | Celeste/Pods/BoringSSL-GRPC/ssl/d1_both.cc:739-780 | a packet holds at least one record, is within its limit and moves the cursor along its records; it ends with the flight, inside a message or where the next record does not fit; an error comes only from sealing; if the MTU is too small the cursor is untouched |
| DtlsSender.Sender.UpdateMtu | Celeste/Pods/BoringSSL-GRPC/ssl/d1_both.cc:615-632 | an MTU of at least the minimum stays; another is replaced by the transport's answer if that is in range and by the default if not |
| DtlsSender.Sender.SendPackets | Celeste/Pods/BoringSSL-GRPC/ssl/d1_both.cc:790-814 | every packet is at most the MTU; the packets the transport took follow the cursor exactly; sending stops only at a refused packet, with the cursor back in front of it, at an MTU that is too small or at a failed seal |
| DtlsSender.Sender.SendFlight | Celeste/Pods/BoringSSL-GRPC/ssl/d1_both.cc:782-827 | an error comes only from a record that could not be sealed or a message whose keys are gone, a block only from a refused packet or flush; a pass that is sent ends behind the last message |
| DtlsSender.Sender.FlushFlight | Celeste/Pods/BoringSSL-GRPC/ssl/d1_both.cc:829-834 | the flight is complete, nothing more joins it, and it is sent from the cursor on, failing only for the same reasons |
| DtlsSender.Sender.Retransmit | Celeste/Pods/BoringSSL-GRPC/ssl/d1_both.cc:836-845 | a retransmission starts over, fails only for the same reasons, and one that is sent carries every message in full |
| DtlsNetwork.NextKeepsInv | Celeste/Pods/BoringSSL-GRPC/ssl/d1_both.cc:350-403 | every step of sender, network and receiver keeps the invariant of the whole system |
| DtlsNetwork.DeliveredInOrder | Celeste/Pods/BoringSSL-GRPC/ssl/d1_both.cc:408-438 | in every run, under loss, duplication and reordering, the messages delivered are exactly the first ones queued, each once and in order |
| DtlsNetwork.ReassembledExactly | Celeste/Pods/BoringSSL-GRPC/ssl/d1_both.cc:350-403 | in every run a slot exists exactly when a fragment of its message was accepted, is complete exactly when the accepted ones cover the message, and then holds it byte for byte |
| DtlsNetwork.GenuineFailsOnly | Celeste/Pods/BoringSSL-GRPC/ssl/d1_both.cc:380-397 | in every run a fragment of the sender's is fatal exactly when it exceeds the length limit, comes ahead while reading encrypted, or is seven ahead |
| DtlsNetwork.FullPassCompletes | Celeste/Pods/BoringSSL-GRPC/ssl/d1_both.cc:836-845 | in every run, once all fragments of one pass over the flight are accepted each of its messages is complete, whatever came before |
| DtlsEndpoint.Connect | Celeste/Pods/BoringSSL-GRPC/ssl/d1_lib.cc:81-104 | a new sender and a new receiver stand at the initial state of the system that the laws over runs are about |
| DtlsEndpoint.QueueMessage | Celeste/Pods/BoringSSL-GRPC/ssl/d1_both.cc:511-594 | queuing a message is a step of that system, or the flight is full and nothing changes |
| DtlsEndpoint.QueueCcs | Celeste/Pods/BoringSSL-GRPC/ssl/d1_both.cc:600-602 | so is queuing a ChangeCipherSpec |
| DtlsEndpoint.ChangeWriteEpoch | Celeste/Pods/BoringSSL-GRPC/ssl/dtls_method.cc:97-107 | and the change of the write keys |
| DtlsEndpoint.Flush | Celeste/Pods/BoringSSL-GRPC/ssl/d1_both.cc:829-834 | flushing completes the flight and sends what lies between the old cursor and the new one: two steps of the system, also when a write blocks |
| DtlsEndpoint.Retransmit | Celeste/Pods/BoringSSL-GRPC/ssl/d1_both.cc:836-845 | a retransmission is a rewind and a sending step, and one that is sent is a full pass over the flight |
| DtlsEndpoint.Deliver | Celeste/Pods/BoringSSL-GRPC/ssl/d1_both.cc:297-406 | opening a record that the network delivers is a step of the system, and fails exactly when that does |
| DtlsEndpoint.ChangeReadEpoch | Celeste/Pods/BoringSSL-GRPC/ssl/dtls_method.cc:81-95 | the change of the read keys is a step, refused while data is left |
| DtlsEndpoint.NextMessage | Celeste/Pods/BoringSSL-GRPC/ssl/d1_both.cc:426-438 | the window moves and the flight of the reading side, if complete, counts as answered |
| DtlsEndpoint.Consume | Celeste/Pods/BoringSSL-GRPC/ssl/d1_both.cc:408-438 | a message is handed out exactly when one is complete, and its bytes are those the peer queued under the next number |
| DtlsRecord.DiscardExactly | Celeste/Pods/BoringSSL-GRPC/ssl/dtls_record.cc:140-150 | a number is discarded exactly when it was recorded or lies 64 or more below the maximum |
| DtlsRecord.RecordTracks | Celeste/Pods/BoringSSL-GRPC/ssl/dtls_record.cc:155-175 | after recording, the 64-bit map and the maximum describe the set with the new number |
| DtlsRecord.RecordBit | Celeste/Pods/BoringSSL-GRPC/ssl/dtls_record.cc:155-175 | each bit of the map after recording: shifted by the new maximum, with the new number's bit set |
| DtlsRecord.ReadStepKeeps | Celeste/Pods/BoringSSL-GRPC/ssl/dtls_record.cc:225-259 | opening a record or changing the epoch keeps map and set in agreement, and what is taken is new |
| DtlsRecord.NoReplay | Celeste/Pods/BoringSSL-GRPC/ssl/dtls_record.cc:177-272 | over every run before the epoch wraps no number is accepted twice |
| DtlsRecord.ReplayDropExactly | Celeste/Pods/BoringSSL-GRPC/ssl/dtls_record.cc:240-246 | over every such run a number of the current epoch is dropped exactly when it was taken before or a number 64 or more above it was |
| DtlsRecord.TakenAgainExactly | Celeste/Pods/BoringSSL-GRPC/ssl/dtls_record.cc:240-259 | after any run, wraps or not, a record is taken under a number already taken exactly when that was before the last change of the read state, the epoch is again that of the number, and no number taken since is 64 or more above it or equal to it |
| DtlsRecord.ReplayExactly | Celeste/Pods/BoringSSL-GRPC/ssl/dtls_record.cc:177-272 | a run of any length takes some number twice if and only if it comes to such a record |
| DtlsRecord.ReplayAfterEpochWrap | Celeste/Pods/BoringSSL-GRPC/ssl/dtls_method.cc:81-95 | a run of the state functions that does, over 65536 changes of the read state; no connection makes that many, as there is no renegotiation over DTLS |
| DtlsRecord.NumbersUnique | Celeste/Pods/BoringSSL-GRPC/ssl/dtls_record.cc:294-351 | over every run of seals in the current or previous epoch and of epoch changes without a wrap, no two sealed records share epoch and number |
| DtlsRecord.BelowMarks | Celeste/Pods/BoringSSL-GRPC/ssl/dtls_record.cc:294-351 | over every run in which each seal gets its ciphertext, wraps or not, the numbers that went out in an epoch are exactly those below its high-water mark |
| DtlsRecord.ReuseExactly | Celeste/Pods/BoringSSL-GRPC/ssl/dtls_record.cc:294-351 | such a run uses an epoch and number twice if and only if it comes to a seal whose number is below the mark of its epoch |
| DtlsRecord.ReuseAfterWrap | Celeste/Pods/BoringSSL-GRPC/ssl/tls_record.cc:154-163 | a run that does: the seal that exhausts the 48-bit counter leaves it at zero, and the seal after it uses the first number again |
| DtlsRecordLayer.ReadLayer.ToU64 | Celeste/Pods/BoringSSL-GRPC/ssl/dtls_record.cc:128-136 | the eight bytes as a big-endian number |
| DtlsRecordLayer.ReadLayer.EpochBytes | Celeste/Pods/BoringSSL-GRPC/ssl/dtls_record.cc:218-227 | the first two bytes of the number are its epoch |
| DtlsRecordLayer.ReadLayer.BitmapShouldDiscard | Celeste/Pods/BoringSSL-GRPC/ssl/dtls_record.cc:140-150 | the test is the one the window laws are about |
| DtlsRecordLayer.ReadLayer.BitmapRecord | Celeste/Pods/BoringSSL-GRPC/ssl/dtls_record.cc:155-175 | the update is the one the window laws are about |
| DtlsRecordLayer.ReadLayer.OpenRecord | Celeste/Pods/BoringSSL-GRPC/ssl/dtls_record.cc:177-272 | a record is looked at exactly if the connection is open, header and body are complete, the length is within the limit and the version fits the cipher state, and is taken exactly if it is of the current epoch, not discarded, decrypts and is not too long; then its number is new; all else is dropped, except that an oversized plaintext is an error |
| DtlsRecordLayer.ReadLayer.SetReadState | Celeste/Pods/BoringSSL-GRPC/ssl/dtls_method.cc:81-95 | the epoch steps and the window is cleared, unless handshake data is left over |
| DtlsRecordLayer.WriteLayer.SequenceUpdate | Celeste/Pods/BoringSSL-GRPC/ssl/tls_record.cc:154-163 | the byte-wise carry adds one modulo 2^48 and fails exactly on overflow; the epoch bytes stay |
| DtlsRecordLayer.WriteLayer.SealRecord | Celeste/Pods/BoringSSL-GRPC/ssl/dtls_record.cc:294-351 | a sealed record carries type, version, epoch, number and length in their places; the number of its state then steps by one, and without a wrap the pair is new |
| DtlsRecordLayer.WriteLayer.SetWriteState | Celeste/Pods/BoringSSL-GRPC/ssl/dtls_method.cc:97-107 | the epoch steps, the old counter is kept for retransmissions and the new one starts at zero |
| Refcount.LockedCount.Increment | Celeste/Pods/BoringSSL-GRPC/crypto/refcount_lock.c:29-37 | under the lock the count steps up unless it is saturated |
| Refcount.LockedCount.DecrementAndTestZero | Celeste/Pods/BoringSSL-GRPC/crypto/refcount_lock.c:39-51 | under the lock the count steps down unless it is saturated, reports zero exactly then, and aborts at zero |
| Refcount.StepKeeps | Celeste/Pods/BoringSSL-GRPC/crypto/refcount_c11.c:37-65 | every atomic step of every thread, with spurious failures, keeps the connection between the counter and the log |
| Refcount.Linearises | Celeste/Pods/BoringSSL-GRPC/crypto/refcount_c11.c:37-65 | under every interleaving the calls take effect one at a time, each within its own duration and once, with the counts and results of the locked version |
| Refcount.CountExactly | Celeste/Pods/BoringSSL-GRPC/crypto/refcount_lock.c:29-51 | the locked count is initial plus increments minus decrements, or saturated for good from where it once was |
| Refcount.ZeroIsFinal | Celeste/Pods/BoringSSL-GRPC/crypto/refcount_lock.c:39-51 | without increments from zero, every operation after the count is zero aborts |
| Refcount.OneZero | Celeste/Pods/BoringSSL-GRPC/crypto/refcount_c11.c:49-65 | without increments from zero at most one decrement of a run reports zero |
| Refcount.LockFreeCount | Celeste/Pods/BoringSSL-GRPC/crypto/refcount_c11.c:37-65 | the same count law for the shared counter under every interleaving |
| CipherChoice.Find | Celeste/Pods/BoringSSL-GRPC/ssl/handshake_server.cc:388-397 | the first position of a cipher in a list |
| CipherChoice.ChooseGrouped | Celeste/Pods/BoringSSL-GRPC/ssl/handshake_server.cc:386-421 | the one-pass loop gives a best cipher: from the first group that has a good one, and of that group the one the client names first; none exactly when no good cipher is in a group that ends |
| CipherChoice.ChooseCipher | Celeste/Pods/BoringSSL-GRPC/ssl/handshake_server.cc:357-424 | with server preference as above; without, the client's first good cipher, and none exactly when there is no good one |
| CipherChoice.ChoiceUnique | Celeste/Pods/BoringSSL-GRPC/ssl/internal.h:1860-1889 | the description determines the cipher |
| CipherChoice.AllClosed | Celeste/Pods/BoringSSL-GRPC/ssl/internal.h:1868-1873 | every group ends exactly when the last flag is 0 |
| CipherChoice.SomeChoice | Celeste/Pods/BoringSSL-GRPC/ssl/internal.h:1860-1889 | then one good cipher is enough for the choice to find one |
| Pkcs1.IsZeroIsMask | Celeste/Pods/BoringSSL-GRPC/crypto/internal.h:303-318 | the word mask is all ones for zero and zero otherwise |
| Pkcs1.EqIsMask | Celeste/Pods/BoringSSL-GRPC/crypto/internal.h:325-328 | the word mask is all ones for equal words and zero otherwise |
| Pkcs1.ByteMasks | Celeste/Pods/BoringSSL-GRPC/crypto/internal.h:320-346 | the byte masks are 0xff and 0 for yes and no |
| Pkcs1.SelectPicks | Celeste/Pods/BoringSSL-GRPC/crypto/internal.h:351-362 | a full mask selects the first byte, an empty one the second |
| Pkcs1.CheckBlock | Celeste/Pods/BoringSSL-GRPC/ssl/handshake_server.cc:1157-1171 | the accumulated mask is 0xff exactly for a conforming block: 00 02, padding without zero, 00, and the client's version; and 0 otherwise |
| Pkcs1.ChoosePremaster | Celeste/Pods/BoringSSL-GRPC/ssl/handshake_server.cc:1142-1178 | the premaster secret is the decrypted one exactly for a conforming block and the random one otherwise; blocks that are too short are rejected |
| TlsTypes.AuthenticAt | Celeste/Pods/BoringSSL-GRPC/ssl/handshake.cc:380-476 | in a log that binds its values, each Finished and CertificateVerify is over exactly the messages before it |
| TlsTypes.TakeKeeps | Celeste/Pods/BoringSSL-GRPC/ssl/handshake.cc:215-222 | hashing and consuming a message keeps the transcript equal to the messages so far |
| TlsTypes.ResetKeeps | Celeste/Pods/BoringSSL-GRPC/ssl/handshake_client.cc:516-523 | a HelloVerifyRequest is consumed unhashed and the transcript starts anew |
| TlsTypes.QueueKeeps | Celeste/Pods/BoringSSL-GRPC/ssl/s3_both.cc:184-205 | queuing a message hashes it once |
| TlsTypes.SpanCovers | Celeste/Pods/BoringSSL-GRPC/ssl/ssl_transcript.cc:236-252 | a buffer or hash that is there covers all messages so far |
| TlsTypes.Transcript.Init | Celeste/Pods/BoringSSL-GRPC/ssl/ssl_transcript.cc:159-168 | an empty buffer and no hash |
| TlsTypes.Transcript.InitHash | Celeste/Pods/BoringSSL-GRPC/ssl/ssl_transcript.cc:181-195 | the hash starts with what is buffered |
| TlsTypes.Transcript.FreeBuffer | Celeste/Pods/BoringSSL-GRPC/ssl/ssl_transcript.cc:197-199 | the buffer is gone, the hash is kept |
| TlsTypes.Transcript.Update | Celeste/Pods/BoringSSL-GRPC/ssl/ssl_transcript.cc:236-252 | buffer and hash, whichever are there, take the message in |
| TlsTypes.Handshake.GetMessage | Celeste/Pods/BoringSSL-GRPC/ssl/s3_both.cc:427-439 | the next message is looked at and left in place |
| TlsTypes.Handshake.NextMessage | Celeste/Pods/BoringSSL-GRPC/ssl/s3_both.cc:562-585 | the message is consumed |
| TlsTypes.Handshake.HashMessage | Celeste/Pods/BoringSSL-GRPC/ssl/handshake.cc:215-222 | the message is hashed and not consumed |
| TlsTypes.Handshake.AddMessage | Celeste/Pods/BoringSSL-GRPC/ssl/s3_both.cc:184-205 | the message joins the flight and the transcript |
| TlsTypes.Handshake.GetFinished | Celeste/Pods/BoringSSL-GRPC/ssl/handshake.cc:380-429 | a Finished is accepted exactly when its body is the value over the transcript before it, then hashed and consumed once |
| TlsTypes.Handshake.SendFinished | Celeste/Pods/BoringSSL-GRPC/ssl/handshake.cc:431-476 | the Finished sent is the value over the transcript before it |
| TlsTypes.Handshake.constructor | Celeste/Pods/BoringSSL-GRPC/ssl/handshake.cc:156-163 | a new handshake has an empty transcript and nothing logged |
| TlsClient.NextKeeps | Celeste/Pods/BoringSSL-GRPC/ssl/handshake_client.cc:385-1705 | every client step keeps flow, transcript, bindings and flags, from every reachable state |
| TlsClient.RankFalls | Celeste/Pods/BoringSSL-GRPC/ssl/handshake_client.cc:1707-1789 | every change of state lowers the rank of (state, resumed), a step that asks to go on has changed the state, and no step waits for the server with a message unsent |
| TlsClient.StateReady | Celeste/Pods/BoringSSL-GRPC/ssl/handshake_client.cc:1373-1455 | when the client signs the transcript its buffer is still there and has every message so far; when it makes or checks a Finished the hash is there |
| TlsClient.DoneComplete | Celeste/Pods/BoringSSL-GRPC/ssl/handshake_client.cc:1457-1705 | a finished handshake has gone through the flow of RFC 5246 section 7.3, full or abbreviated, with each Finished and each key change in it once |
| TlsClient.DoneShape | Celeste/Pods/BoringSSL-GRPC/ssl/handshake_client.cc:1658-1672 | a full handshake ends with the server's Finished, a resumed one with the client's |
| TlsServer.NextKeeps | Celeste/Pods/BoringSSL-GRPC/ssl/handshake_server.cc:426-1537 | every server step keeps flow, transcript, bindings and flags, from every reachable state |
| TlsServer.RankFalls | Celeste/Pods/BoringSSL-GRPC/ssl/handshake_server.cc:1539-1621 | every change of state lowers the rank of (state, resumed), a step that asks to go on has changed the state, and no step waits for the client with a message unsent |
| TlsServer.StateReady | Celeste/Pods/BoringSSL-GRPC/ssl/handshake_server.cc:1269-1363 | when the client's signature is checked the buffer is still there and has every message before it |
| TlsServer.DoneComplete | Celeste/Pods/BoringSSL-GRPC/ssl/handshake_server.cc:1439-1537 | a finished handshake has gone through the flow of RFC 5246 section 7.3, full or abbreviated, with each Finished and each key change in it once |
| TlsServer.DoneShape | Celeste/Pods/BoringSSL-GRPC/ssl/handshake_server.cc:1439-1509 | a full handshake ends with the server's Finished, a resumed one with the client's |
| TlsRun.RunInv | Celeste/Pods/BoringSSL-GRPC/ssl/handshake.cc:491-628 | the invariant holds at every point of every run, interrupted and resumed at will |
| TlsRun.TranscriptExact | Celeste/Pods/BoringSSL-GRPC/ssl/handshake.cc:215-222 | at every point of every run the transcript has exactly the messages queued and consumed so far, each once and in order, from the last HelloVerifyRequest on; every Finished and CertificateVerify binds the transcript before it |
| TlsRun.BoundedChanges | Celeste/Pods/BoringSSL-GRPC/ssl/handshake_client.cc:1707-1789 | however often a handshake is interrupted, its state changes at most 24 times |
| TlsRun.DoneComplete | Celeste/Pods/BoringSSL-GRPC/ssl/handshake.cc:380-476 | a run that is done without TLS 1.3 has checked the peer's Finished once, sent its own once, received one ChangeCipherSpec, changed each direction's keys once, and has nothing unsent; the verdict on the peer's certificate was accepting wherever there was one to judge, and a needed key exchange message came |
| TlsRun.ResumesOffered | Celeste/Pods/BoringSSL-GRPC/ssl/handshake_client.cc:385-452 | a client has a session at a point of a run only if it offered one at the start |
| TlsRun.RanOnce | Celeste/Pods/BoringSSL-GRPC/ssl/handshake_client.cc:1707-1789 | what a stretch of a run comes to is determined by where it starts and what its steps meet |
| TlsChecks.ClientNext | Celeste/Pods/BoringSSL-GRPC/ssl/handshake_client.cc:385-1705 | every client step: it fails only for a failed check or a message that may not come there, and always for the latter, waits for the peer only without a message and for a callback only if that is not ready, and then changes nothing; nothing unchecked is logged; a session is resumed only if offered and taken up, and an early return is for early data or False Start only; the checks so far are kept |
| TlsChecks.ServerNext | Celeste/Pods/BoringSSL-GRPC/ssl/handshake_server.cc:426-1537 | the same for every server step; what it settles is what the lookups and the cipher say, and of the extensions only what the client offered |
| TlsChecks.ClientKeepsChecks | Celeste/Pods/BoringSSL-GRPC/ssl/handshake_client.cc:871-1071 | past its checks a client has an accepting verdict on the server's certificate, the key exchange message its cipher needs and the ticket that was announced, and optional messages only where they were announced |
| TlsChecks.ServerKeepsChecks | Celeste/Pods/BoringSSL-GRPC/ssl/handshake_server.cc:949-1056 | past its checks a server has an accepting verdict on a client certificate, which it asked for only in a full handshake with one of its own, and has sent prepared key exchange parameters |
| TlsRun.Agreement | Celeste/Pods/BoringSSL-GRPC/ssl/handshake.cc:380-476 | client and server that are done with the same keys, each having accepted the Finished the other sent, agree on every message of the handshake and on whether a session was resumed |
| TlsDriver.Resolve | Celeste/Pods/BoringSSL-GRPC/ssl/handshake.cc:491-556 | a wait is resolved by the transport and nothing else changes; a read or a flush that blocks changes nothing |
| TlsDriver.RunHandshake | Celeste/Pods/BoringSSL-GRPC/ssl/handshake.cc:491-628 | every call extends the run and comes back for a reason: completion in the last state only, a step that fails, a transport that is used up or does not deliver, or a callback that some step waits for; after a fatal error no call changes anything any more |
| TlsDriver.Connect | Celeste/Pods/BoringSSL-GRPC/ssl/handshake.cc:156-163 | a new handshake driven once: its run starts where every run does, so the laws over runs cover this and all later calls; completed without TLS 1.3 it has each Finished and each key change once, every Finished over all messages before it, an accepted certificate wherever the peer shows one, and nothing unsent |
| TlsClientSteps.DoStartConnect | Celeste/Pods/BoringSSL-GRPC/ssl/handshake_client.cc:385-452 | refines the machine's step: the offered session is dropped if it does not fit, one ClientHello is queued and flushed |
| TlsClientSteps.DoEnterEarlyData | Celeste/Pods/BoringSSL-GRPC/ssl/handshake_client.cc:454-489 | refines the machine's step: DTLS looks for a HelloVerifyRequest, early data changes the write keys first |
| TlsClientSteps.DoReadHelloVerifyRequest | Celeste/Pods/BoringSSL-GRPC/ssl/handshake_client.cc:491-533 | refines the machine's step: a HelloVerifyRequest resets the transcript and is answered by a second ClientHello, any other message is left |
| TlsClientSteps.DoReadServerHello | Celeste/Pods/BoringSSL-GRPC/ssl/handshake_client.cc:535-759 | refines the machine's step: resumption and parameters are settled, the hash starts, the message is hashed and consumed, and the buffer goes when no client certificate can follow |
| TlsClientSteps.DoTls13 | Celeste/Pods/BoringSSL-GRPC/ssl/handshake_client.cc:761-769 | refines the machine's step: the TLS 1.3 machine's wait, or its end |
| TlsClientSteps.DoReadServerCertificate | Celeste/Pods/BoringSSL-GRPC/ssl/handshake_client.cc:771-819 | refines the machine's step: a Certificate exactly for ciphers that authenticate with one |
| TlsClientSteps.DoReadCertificateStatus | Celeste/Pods/BoringSSL-GRPC/ssl/handshake_client.cc:821-869 | refines the machine's step: a CertificateStatus if it was announced and comes, otherwise the message is left |
| TlsClientSteps.DoVerifyServerCertificate | Celeste/Pods/BoringSSL-GRPC/ssl/handshake_client.cc:871-889 | refines the machine's step: asks again until the verification has decided, keeps the verdict, and goes on only with an accepting one |
| TlsClientSteps.DoReadServerKeyExchange | Celeste/Pods/BoringSSL-GRPC/ssl/handshake_client.cc:891-1071 | refines the machine's step: a ServerKeyExchange if it comes, an error if the cipher requires it and it does not |
| TlsClientSteps.DoReadCertificateRequest | Celeste/Pods/BoringSSL-GRPC/ssl/handshake_client.cc:1073-1143 | refines the machine's step: a CertificateRequest if it comes; the ServerHelloDone is left and frees the buffer |
| TlsClientSteps.DoReadServerHelloDone | Celeste/Pods/BoringSSL-GRPC/ssl/handshake_client.cc:1145-1167 | refines the machine's step: an empty ServerHelloDone |
| TlsClientSteps.DoSendClientCertificate | Celeste/Pods/BoringSSL-GRPC/ssl/handshake_client.cc:1169-1214 | refines the machine's step: a Certificate exactly if one was requested; without one the buffer goes |
| TlsClientSteps.DoSendClientKeyExchange | Celeste/Pods/BoringSSL-GRPC/ssl/handshake_client.cc:1220-1371 | refines the machine's step: one ClientKeyExchange is queued |
| TlsClientSteps.DoSendClientCertificateVerify | Celeste/Pods/BoringSSL-GRPC/ssl/handshake_client.cc:1373-1455 | refines the machine's step: a signature over the buffered transcript exactly if a certificate was sent, then the buffer goes |
| TlsClientSteps.DoSendClientFinished | Celeste/Pods/BoringSSL-GRPC/ssl/handshake_client.cc:1457-1512 | refines the machine's step: the write keys change, then the optional messages and the Finished, and a flush |
| TlsClientSteps.DoFinishFlight | Celeste/Pods/BoringSSL-GRPC/ssl/handshake_client.cc:1538-1564 | refines the machine's step: the end of a resumed handshake, or the wait for the server's last flight |
| TlsClientSteps.DoReadSessionTicket | Celeste/Pods/BoringSSL-GRPC/ssl/handshake_client.cc:1566-1647 | refines the machine's step: a NewSessionTicket if one is expected, then the ChangeCipherSpec is waited for |
| TlsClientSteps.DoProcessChangeCipherSpec | Celeste/Pods/BoringSSL-GRPC/ssl/handshake_client.cc:1649-1656 | refines the machine's step: the read keys change |
| TlsClientSteps.DoReadServerFinished | Celeste/Pods/BoringSSL-GRPC/ssl/handshake_client.cc:1658-1672 | refines the machine's step: the server's Finished is checked; a resumed handshake answers it |
| TlsClientSteps.DoFinishClientHandshake | Celeste/Pods/BoringSSL-GRPC/ssl/handshake_client.cc:1674-1705 | refines the machine's step: the handshake is done |
| TlsClientSteps.ClientHandshake | Celeste/Pods/BoringSSL-GRPC/ssl/handshake_client.cc:1707-1789 | the loop ends, and what it did is a stretch of a run that stops at the end, at an error or at a step's wait |
| TlsServerSteps.DoStartAccept | Celeste/Pods/BoringSSL-GRPC/ssl/handshake_server.cc:426-430 | refines the machine's step: the ClientHello is awaited |
| TlsServerSteps.DoReadClientHello | Celeste/Pods/BoringSSL-GRPC/ssl/handshake_server.cc:432-510 | refines the machine's step: the ClientHello is looked at and left; the connection is handed off, or the version is settled |
| TlsServerSteps.DoSelectCertificate | Celeste/Pods/BoringSSL-GRPC/ssl/handshake_server.cc:512-560 | refines the machine's step: the same ClientHello again, until the certificate is selected |
| TlsServerSteps.DoTls13 | Celeste/Pods/BoringSSL-GRPC/ssl/handshake_server.cc:562-570 | refines the machine's step: the TLS 1.3 machine's wait, or its end |
| TlsServerSteps.DoSelectParameters | Celeste/Pods/BoringSSL-GRPC/ssl/handshake_server.cc:572-684 | refines the machine's step: a session or a ticket may be waited for; resumption is settled, the hash starts, the ClientHello is hashed and consumed once, and the buffer goes unless a client certificate is requested |
| TlsServerSteps.DoSendServerHello | Celeste/Pods/BoringSSL-GRPC/ssl/handshake_server.cc:686-752 | refines the machine's step: one ServerHello; then the Finished of a resumed handshake or the Certificate of a full one |
| TlsServerSteps.DoSendServerCertificate | Celeste/Pods/BoringSSL-GRPC/ssl/handshake_server.cc:754-840 | refines the machine's step: a Certificate, and a CertificateStatus with it, exactly for ciphers that authenticate with one |
| TlsServerSteps.DoSendServerKeyExchange | Celeste/Pods/BoringSSL-GRPC/ssl/handshake_server.cc:842-912 | refines the machine's step: a ServerKeyExchange exactly when parameters are prepared |
| TlsServerSteps.DoSendServerHelloDone | Celeste/Pods/BoringSSL-GRPC/ssl/handshake_server.cc:914-947 | refines the machine's step: the CertificateRequest if one is to be made, the ServerHelloDone, and a flush |
| TlsServerSteps.DoReadClientCertificate | Celeste/Pods/BoringSSL-GRPC/ssl/handshake_server.cc:949-1040 | refines the machine's step: a Certificate exactly if one was requested; an empty one frees the buffer |
| TlsServerSteps.DoVerifyClientCertificate | Celeste/Pods/BoringSSL-GRPC/ssl/handshake_server.cc:1042-1056 | refines the machine's step: asks again until the verification has decided, keeps the verdict, and goes on only with an accepting one |
| TlsServerSteps.DoReadClientKeyExchange | Celeste/Pods/BoringSSL-GRPC/ssl/handshake_server.cc:1058-1267 | refines the machine's step: the ClientKeyExchange, hashed only once the private key has answered |
| TlsServerSteps.DoReadClientCertificateVerify | Celeste/Pods/BoringSSL-GRPC/ssl/handshake_server.cc:1269-1363 | refines the machine's step: a signature over the buffered transcript exactly if the client sent a certificate; it is hashed after the check |
| TlsServerSteps.DoReadChangeCipherSpec | Celeste/Pods/BoringSSL-GRPC/ssl/handshake_server.cc:1365-1368 | refines the machine's step: the ChangeCipherSpec is waited for |
| TlsServerSteps.DoProcessChangeCipherSpec | Celeste/Pods/BoringSSL-GRPC/ssl/handshake_server.cc:1370-1377 | refines the machine's step: the read keys change |
| TlsServerSteps.DoReadNextProto | Celeste/Pods/BoringSSL-GRPC/ssl/handshake_server.cc:1379-1413 | refines the machine's step: the next protocol message exactly if it was negotiated |
| TlsServerSteps.DoReadChannelId | Celeste/Pods/BoringSSL-GRPC/ssl/handshake_server.cc:1415-1437 | refines the machine's step: the Channel ID message exactly if it was negotiated |
| TlsServerSteps.DoReadClientFinished | Celeste/Pods/BoringSSL-GRPC/ssl/handshake_server.cc:1439-1461 | refines the machine's step: the client's Finished is checked; a full handshake answers it |
| TlsServerSteps.DoSendServerFinished | Celeste/Pods/BoringSSL-GRPC/ssl/handshake_server.cc:1463-1509 | refines the machine's step: the ticket if one is due, the change of the write keys, the Finished, and a flush |
| TlsServerSteps.DoFinishServerHandshake | Celeste/Pods/BoringSSL-GRPC/ssl/handshake_server.cc:1511-1537 | refines the machine's step: the handshake is done |
| TlsServerSteps.ServerHandshake | Celeste/Pods/BoringSSL-GRPC/ssl/handshake_server.cc:1539-1621 | the loop ends, and what it did is a stretch of a run that stops at the end, at an error or at a step's wait |

## Left out

- nanopb callbacks, extensions, pointer fields with malloc, fixed-count arrays and `PB_WITHOUT_64BIT`: static fields only, with 32-bit field sizes (`PB_FIELD_32BIT`).
- Raw struct layout: messages are trees of typed values; offsets are abstract and appear in the iterator only. A nested destination is copied in and out, so updates in place below one message level and aliasing are not captured.
- What a destination holds after a failed decode: the contracts say only that it failed.
- `size_t` is unbounded in the model; lengths on the wire are taken modulo 2^64 as the casts do.
- PbDecode.DecodeDelimited: after a failed decode says only how much of the parent is left and that its position has not passed the message, because an array overflow inside a packed field leaves the nested substream open. Custom stream callbacks are left out.
- PbCanonical.CanonicalForm: for descriptors whose defaults the encoder accepts (strings terminated, sizes within the field), as the generator writes them; the re-encoding is decoded again if it is shorter than 2^32 bytes.
- The I/O of DTLS (BIO, timers and timeouts, a connection shut down for writing): a step sends a packet or fails, and a retransmission may happen at any time with any MTU at or above the minimum.
- DtlsSender.Sender.SealNextPacket: says nothing about the cursor after the AEAD itself fails to seal, because the code does not restore it then.
- DtlsNetwork.DeliveredInOrder: for connections with fewer than 2^16 - 1 handshake messages, because the network model names a message by its number; the ring itself is proved across the wrap of the counter.
- DtlsRecord.NoReplay: for runs in which the 16-bit epoch does not wrap; for all other runs DtlsRecord.ReplayExactly says exactly which ones take a number twice. DtlsRecord.ReplayAfterEpochWrap is about the state functions alone: the library does not renegotiate over DTLS, so no connection changes its read state 65536 times (`Celeste/Pods/BoringSSL-GRPC/ssl/d1_pkt.cc:143-173`, `Celeste/Pods/BoringSSL-GRPC/ssl/d1_both.cc:319-326`).
- DtlsRecord.NumbersUnique: for runs in which no counter wraps; for runs with wraps in which every ciphertext fits DtlsRecord.ReuseExactly says exactly which ones use a number twice.
- DtlsSender.Sender.SealRecord: lengths only, given by an oracle for each record; the record's bytes and number are those of DtlsRecordLayer.WriteLayer.SealRecord.
- TlsClientSteps.DoTls13: the TLS 1.3 machine is not part of this model, so what it returns is a field of the oracle.
- TlsServerSteps.DoTls13: as for the client.
- AEADs, signatures, key derivation, random numbers, certificate checks and the parsing of message bodies and extensions: oracles, or functions with the contract stated where they are used.
- TlsRun.Agreement: takes the delivery of the two Finished messages and the injectivity of the Finished value as hypotheses, because both are cryptographic.
- TLS 1.3: its machines are not part of this model; a handshake that enters them is followed only to the states it comes back to, and the laws are about the others.
- SSL 3.0, V2ClientHello, what happens to a connection that was handed off, and renegotiation by a server. An application that changes its certificate between the client's Certificate and CertificateVerify.
- The session cache, info callbacks, alerts and the error queue.
- Memory order in the reference counts: the atomic operations are sequentially consistent steps. The initial load of a call is modelled as one of them.
- The Swift application, which has no protocol logic of its own.
