# contract: verified model of the wire and text engines

`contract` is a header-only C++ library. A type declares its fields once, with stable ids, and
adapters read and write values of that type in several formats. This project models the engines of
three of those adapters and the layers they stand on, and proves what they are for:

- **Compact**: a tagged binary format. Objects are lists of id/value records, so a reader can skip
  what it does not know. `CompactIntegers` has the variable-length integers and size headers,
  `CompactCodec` the bytes of a value and the typed and schema-less reads of any bytes,
  `CompactSkip` the agreement of the two and the bound on the skipper's work, `CompactEvolution`
  reading with another schema and the round trip, `CompactTargets` what reads of any bytes leave in
  their targets, `CompactFormat` the format in literal numbers, `CompactReader` and `CompactWriter` the
  classes that move a cursor over a window.
- **Protobuf**: the public Protocol Buffers encoding. `ProtobufWire` has varints, keys and length
  prefixes, `ProtobufCodec` the records of a value and what reading any bytes does to a target,
  `ProtobufMerge` concatenation and error offsets, `ProtobufLanding` and `ProtobufRoundTrip` what
  becomes of an encoding when it is decoded, `ProtobufFormat` the format in literal numbers,
  `ProtobufReader` and `ProtobufWriter` the classes, nested readers and the counting writer included.
- **YAML**: a line scanner over chunked input and an indentation-driven parser. `YamlText` has the
  tokens, lines and scanner, `YamlCodec` what is parsed from a document's content lines, `YamlReader`
  the parser class, `YamlLayout` block text and the proof that it decodes, `YamlScalars` what
  scalars and lines mean in character codes.
- **Below them**: `Schema` (types, values, field lookup), `KeyOrder` (map keys and entries),
  `Definition` (BASE flattening and dispatch), `ByteWindow` (the bounded cursors), `Bitset` (packed
  bits), `EncryptedFields` (the stream mask of encrypted fields in the binary adapter) and `Bytes`
  (byte and bit arithmetic).

Each format has functions on values and byte sequences that say what its code computes, and classes
with the code's own state, loops and branches, whose methods are proved to compute just that. The
theorems are about the functions and so hold of the classes. Where reader and writer share a function
or a constant, so that they would agree whatever it was, its meaning is stated apart from both.

How the model reads the code:

- Types are a `Type` tree and values a `Value` tree. An object is the list of its flattened fields. A
  `std::map` is its entries in iteration order, with the standard order on keys.
- Bytes are numbers below 256, sizes and ids carry their 64-bit bounds, and bitwise operators are
  functions on numbers whose link to arithmetic is proved. Floats are their bit patterns. A memcpy on a
  little-endian host is `ToLittle` and `FromLittle`; the shift loops for other hosts are proved equal.
- A target that is updated in place is a value passed in and returned. The protobuf functions return it
  on errors too, with everything that was read before; `CompactTargets` says it of the compact ones.
- An error is its code and, in the compact and protobuf readers, its offset. Message text, stages and
  type names are not modelled.

Where the code and its documentation differ, the model follows the code. `docs/adapters/compact.md`
says that skipping keeps depth and item limits and that records in declared order have a fast path
(lines 82 and 507); the code has neither, as lines 313 and 740 of that document say themselves. Unlike
in the Protocol Buffers guide, an optional is emptied before every record, so a repeated record of an
optional message or map replaces it and does not merge into it.

Check the project with `dafny verify dfyconfig.toml`.

## Model

| member | source | states |
|---|---|---|
| `CompactIntegers.UintRoundTrip` | include/contract/adapters/compact.hpp:479-487 | Every u64 written by the unsigned writer reads back, at any position of any buffer, and the read consumes exactly what was written |
| `CompactIntegers.IntRoundTrip` | include/contract/adapters/compact.hpp:489-500 | The same for every i64, the minimum included |
| `CompactIntegers.SizeRoundTrip` | include/contract/adapters/compact.hpp:510-525 | Size headers of every kind, inline or extended, read back for every u64 size |
| `CompactIntegers.UintShortest` | include/contract/adapters/compact.hpp:601-608 | Of all byte strings the unsigned reader accepts for a number, the writer's is the shortest, and the only one of that length |
| `CompactIntegers.IntShortest` | include/contract/adapters/compact.hpp:489-500 | The same for the signed reader and writer |
| `CompactIntegers.ReadUint` | include/contract/adapters/compact.hpp:751-820 | On any bytes: a success moves the cursor forward within the input and yields a u64; a failure leaves the cursor where it was |
| `CompactIntegers.ReadInt` | include/contract/adapters/compact.hpp:822-904 | On any bytes: a success moves the cursor forward within the input and yields an i64; a failure leaves the cursor where it was |
| `CompactFormat.UintMeans` | include/contract/adapters/compact.hpp:751-820 | What every header means to the unsigned reader: 0x00 to 0x3f stand for themselves, 0x50 to 0x57 for the base-256 digits behind them, minimal or not, and any other is refused with its code |
| `CompactFormat.IntMeans` | include/contract/adapters/compact.hpp:822-904 | The same for the signed reader: 0x40 to 0x4f are -1 to -16, 0x50 to 0x57 positive and 0x58 to 0x5f negative magnitudes |
| `CompactFormat.WidthChecked` | include/contract/adapters/compact.hpp:1408-1437 | An integer field takes the number read exactly when it fits the field's bits |
| `CompactFormat.Spelled` | include/contract/adapters/compact.hpp:291-332 | The format itself: the encoding of any value of any type is the spelling, in literal headers, sizes and digits, of what the value says, with fields in declared order behind their ids and keys before mapped values |
| `CompactFormat.FirstByte` | include/contract/adapters/compact.hpp:291-332 | The first byte of every encoding in literal numbers: 0x60 byte arrays and bitsets, 0x70 strings, 0x80 sequences and variants, 0x90 maps, 0xa0 objects, with the size in the low nibble up to 14 and 15 beyond; 0xb0 false, 0xb1 true, 0xb2 null, 0xc4 float, 0xc8 double |
| `CompactFormat.SkipExact` | include/contract/adapters/compact.hpp:1115-1241 | On any bytes, the skipper gets from one place to another exactly when a well-formed value stands between them: headers the format knows at every depth, and as many bytes, values and fields as they announce |
| `CompactFormat.WrongCount` | include/contract/adapters/compact/array.hpp:78-91 | An array or tuple whose header announces another length is refused behind the header |
| `CompactFormat.BoolMeans` | include/contract/adapters/compact.hpp:906-923 | On any bytes, a bool is header 0xb0 or 0xb1, and any other header is refused |
| `CompactFormat.RealMeans` | include/contract/adapters/compact.hpp:950-990 | On any bytes, a float or double is its own header and the base-256 digits of its bit pattern, lowest first |
| `CompactFormat.RunMeans` | include/contract/adapters/compact.hpp:1499-1518 | On any bytes, a string takes what is announced, a byte array no more than it holds with zeros behind, and a bitset exactly its bytes, lowest bit first; each other size is refused |
| `CompactFormat.OptionalMeans` | include/contract/adapters/compact/optional.hpp:24-43 | Only header 0xb2 empties an optional; behind any other stands its payload |
| `CompactFormat.VariantMeans` | include/contract/adapters/compact/variant.hpp:64-143 | A variant is two values, the index of an alternative there is and that alternative; other counts and indices are refused |
| `CompactFormat.RecordMeans` | include/contract/adapters/compact.hpp:1300-1325 | Id zero is refused, an id of no field skips a value, and any other is read into its field alone |
| `CompactFormat.EntryMeans` | include/contract/adapters/compact/map.hpp:107-131 | A key the map has already is refused once its entry is read |
| `CompactReader.ShiftLoad` | include/contract/adapters/compact.hpp:787-800 | The big-endian shift fallback loads the number that the little-endian memcpy loads |
| `Bytes.ShiftStore` | include/contract/adapters/compact.hpp:619-626 | The big-endian shift fallback stores the bytes that the little-endian memcpy stores |
| `CompactWriter.CountBytes` | include/contract/adapters/compact.hpp:334-340 | The shift loop counts the significant bytes of any u64, at least one |
| `CompactEvolution.Evolution` | include/contract/adapters/compact.hpp:1290-1327 | Schema evolution: the bytes of a value under writer schema W, with the records of every object in any order, decoded at any position with any compatible reader schema R into any target, give every shared field its written value, leave reader-only fields as they were, skip writer-only fields of any shape, and end exactly after the value |
| `CompactEvolution.SelfCompatible` | include/contract/adapters/compact.hpp:1262-1374 | Every legal type is compatible with itself, so evolution covers the plain round trip |
| `CompactEvolution.SharedFields` | include/contract/adapters/compact.hpp:1290-1327 | Object schemas are compatible both ways when every id they share names the same type, whatever fields either has besides and in whatever order |
| `CompactEvolution.ProjectSelf` | include/contract/adapters/compact/optional.hpp:12-43 | Reading with the writer's own schema changes a value exactly when an engaged optional in it holds an empty one |
| `CompactEvolution.RoundTrip` | include/contract/adapters/compact.hpp:1262-1518 | A value decodes to itself from its encoding, before any suffix, after any prefix and into any prior content, consuming exactly the encoding, if and only if no engaged optional holds an empty one |
| `CompactEvolution.HiddenNullLost` | include/contract/adapters/compact/optional.hpp:24-43 | Concrete failing input: an engaged optional over an empty optional is written as one null byte and read back as empty |
| `CompactEvolution.PrefixFree` | include/contract/adapters/compact.hpp:1262-1518 | No encoding of a type is a proper prefix of another encoding of that type, for all values |
| `CompactEvolution.EncodingNamesValue` | include/contract/adapters/compact.hpp:1262-1518 | Values with the same encoding are the same, unless an engaged optional in one of them holds an empty one |
| `CompactEvolution.EmplaceLast` | include/contract/adapters/compact/map.hpp:108-131 | A key above all others already in the map is emplaced at its end, never refused as a duplicate |
| `Schema.TrimFill` | include/contract/adapters/compact/array.hpp:126-145 | Trimming trailing zeros off a byte array and refilling with zeros gives the array back |
| `Schema.TrimMeans` | include/contract/adapters/base.hpp:62-68 | What trimming cuts off is zeros, and no zero is left at the end |
| `Schema.WidthRange` | include/contract/adapters/compact.hpp:1408-1437 | The ranges of 8 to 64 bits are those of two's complement integers |
| `Schema.DefaultZeroed` | include/contract/adapters/protobuf/optional.hpp:46-54 | A default-constructed value is zero, empty, or full of defaults, with the first alternative of a variant and the initialisers of an object |
| `CompactSkip.SkipAgrees` | include/contract/adapters/compact.hpp:1115-1241 | On arbitrary bytes: when a typed read of any type succeeds, the schema-less skip from the same position succeeds and consumes exactly as much |
| `CompactSkip.SkipWork` | include/contract/adapters/compact.hpp:1121-1238 | On arbitrary bytes, with declared counts up to 2^64: a skip enters its recursive read at most once per byte consumed, plus once when it fails |
| `CompactSkip.SkipRecordsWork` | include/contract/adapters/compact.hpp:1175-1190 | The same for the id/value pairs of an object of any declared size |
| `CompactCodec.Skip` | include/contract/adapters/compact.hpp:1192-1238 | The skipper's cursor never passes the end of the input and moves forward on success |
| `CompactWriter.ChunksFlat` | include/contract/adapters/compact.hpp:1268-1348 | Joined together, the writer's separate writes are the encoding of the value |
| `CompactWriter.Capacity` | include/contract/adapters/compact.hpp:453-473 | Capacity theorem: writing succeeds exactly when the whole encoding fits the window; otherwise the window holds the longest run of whole writes that fits, a prefix of the encoding, and the next write is the first that does not fit |
| `CompactReader.Reader.NextUint` | include/contract/adapters/compact.hpp:751-820 | Cursor, status, value and retained error are those of the unsigned read on the remaining bytes |
| `CompactReader.Reader.NextInt` | include/contract/adapters/compact.hpp:822-904 | The same for the signed read |
| `CompactReader.Reader.NextSize` | include/contract/adapters/compact.hpp:937-948 | The same for a size header and its extended tail |
| `CompactReader.Reader.ReadLeaf` | include/contract/adapters/compact.hpp:1376-1518 | The same for each scalar, string, byte-array and bitset codec, out-of-range and wrong-size errors included; on failure the target is as it was, but a string whose bytes are missing was resized and a bitset reset |
| `CompactReader.Reader.SkipValue` | include/contract/adapters/compact.hpp:1121-1238 | The recursive skipper leaves cursor and error as the skip function says and enters itself exactly the counted number of times |
| `CompactReader.Reader.SkipBytes` | include/contract/adapters/compact.hpp:1130-1141 | Discarding in 64-byte chunks consumes all the bytes, or all whole chunks present before it reports truncation |
| `CompactReader.Reader.ReadValue` | include/contract/adapters/compact.hpp:996-1000 | A typed read of any type leaves value, cursor and error as the decode function says, and on failure the target as `CompactTargets.After` says |
| `CompactReader.Reader.ReadOptional` | include/contract/adapters/compact/optional.hpp:24-43 | The null header is peeked at and consumed only when it is null; a failed read leaves the optional as it was |
| `CompactReader.Reader.ReadVariant` | include/contract/adapters/compact/variant.hpp:64-143 | A two-element array header, an index in range, and the alternative with that index; a failed read leaves the variant as it was |
| `CompactReader.Reader.ReadSequence` | include/contract/adapters/compact/vector.hpp:59-85 | Header and size check of vectors, arrays and tuples: a wrong size leaves the target as it was |
| `CompactReader.Reader.ReadItems` | include/contract/adapters/compact/vector.hpp:71-84 | The element loop: when an element fails, a vector holds the elements before it, an array or tuple also what the failed read left in its slot and the old slots behind it |
| `CompactReader.Reader.ReadMap` | include/contract/adapters/compact/map.hpp:67-131 | The counted entry loop; a duplicate key stops it with an error after the entry, and the map keeps the entries emplaced before |
| `CompactReader.Reader.ReadObject` | include/contract/adapters/compact.hpp:1290-1327 | The record loop: ids dispatched to fields, unknown ids skipped, id zero refused; on failure the fields read before stay as read and the failing field is as its own read left it |
| `CompactWriter.Writer.WriteValue` | include/contract/adapters/compact.hpp:545-549 | Into a window of any room: the status says whether all of the value's writes fit, and the window holds exactly those that did; joined, they are the encoding, whose bytes `CompactFormat.Spelled` gives in numbers |
| `CompactWriter.Writer.WriteLittle` | include/contract/adapters/compact.hpp:631-656 | Header and payload are committed together or not at all, on hosts of either byte order |
| `CompactWriter.Writer.WriteFields` | include/contract/adapters/compact.hpp:1330-1348 | Id and value of each field in declared order, stopping at the first write that does not fit |
| `Bitset.UnpackPack` | include/contract/adapters/compact/bitset.hpp:19-92 | For every size, unpacking inverts packing |
| `Bitset.RepackedBit` | include/contract/adapters/compact/bitset.hpp:19-92 | Packing what was unpacked keeps every bit that stands for a flag and clears every padding bit |
| `Bitset.PackUnpack` | include/contract/adapters/compact/bitset.hpp:19-92 | Bytes without padding come back unchanged |
| `Bitset.PackedBit` | include/contract/adapters/compact/bitset.hpp:19-36 | Bit j of packed byte k is flag 8k + j, and padding bits are zero |
| `Bitset.U64IsPacked` | include/contract/adapters/binary/bitset.hpp:17-39 | Up to 64 flags, the little-endian bytes of the number the binary adapter writes are the packed bytes and then zeros |
| `Bitset.PackLoop` | include/contract/adapters/compact/bitset.hpp:19-36 | The loop that or-s one bit at a time into a zeroed byte array produces the packed bytes |
| `Bitset.UnpackLoop` | include/contract/adapters/compact/bitset.hpp:58-92 | The byte and bit loops set exactly the flags of the packed bytes |
| `ProtobufWire.VarintRoundTrip` | include/contract/adapters/protobuf.hpp:727-737 | Every u64 reads back from its varint in front of any bytes, consuming exactly the varint |
| `ProtobufWire.ByteCountExact` | include/contract/adapters/protobuf.hpp:282-288 | For every u64 the closed form over leading zeros is the number of bytes the shift loop emits |
| `ProtobufWire.VarintLength` | include/contract/adapters/protobuf.hpp:285-288 | A number of n significant bits takes ceil(n / 7) varint bytes |
| `ProtobufWire.TagRoundTrip` | include/contract/adapters/protobuf.hpp:414-431 | Field number and wire type come back from a record key, for every 32-bit field number |
| `ProtobufWire.VarintExtends` | include/contract/adapters/protobuf.hpp:389-412 | More input behind a varint never changes a successful read of it |
| `ProtobufFormat.VarintDigits` | include/contract/adapters/protobuf.hpp:707-716 | The bytes of a varint are the base-128 digits of the number, lowest first, all but the last with the high bit |
| `ProtobufFormat.VarintSize` | include/contract/adapters/protobuf.hpp:707-716 | A varint has no digit too many |
| `ProtobufFormat.VarintMeans` | include/contract/adapters/protobuf.hpp:389-412 | On any bytes: a varint read stands for its base-128 digits, minimal or not, and the tenth byte gives bit 63 alone |
| `ProtobufFormat.VarintMissing` | include/contract/adapters/protobuf.hpp:389-412 | There is no varint exactly when none of the first ten bytes is below 128: truncated when there are fewer, invalid otherwise |
| `ProtobufFormat.KeyMeans` | include/contract/adapters/protobuf.hpp:414-431 | Any key is eight times a number plus a wire type; the field number is the low 32 bits of that number |
| `ProtobufFormat.NumberMeans` | include/contract/adapters/protobuf.hpp:971-983 | For every varint there is: a bool holds whether it is not zero, an unsigned or signed field of any width the number of its range that agrees with it in the low bits |
| `ProtobufFormat.Spelled` | include/contract/adapters/protobuf.hpp:837-1040 | The format itself: every field of any type is written as the records, in literal wire types, lengths and field numbers, that its value says; tuple elements are numbered from 1, key and mapped value of an entry are 1 and 2, negative integers are 64-bit two's complement |
| `ProtobufFormat.FieldKey` | include/contract/adapters/protobuf.hpp:40-45 | Whatever a field emits starts with a varint of eight times its number plus 0 for bools and integers, 1 for doubles, 5 for floats and 2 for everything with a length |
| `ProtobufWriter.KeyOr` | include/contract/adapters/protobuf.hpp:571-582 | Or-ing the wire type into the shifted field number is adding it: no bit is shared |
| `ProtobufWriter.StoreVarint` | include/contract/adapters/protobuf.hpp:707-716 | The shift loop stores the varint of any u64 and reports its length, at most ten, leaving the bytes before it alone |
| `ProtobufReader.OrGroup` | include/contract/adapters/protobuf.hpp:396-405 | Or-ing in the next seven-bit group adds it modulo 2^64, for each of the ten groups, the truncated tenth included |
| `ProtobufMerge.ConcatenationMerges` | include/contract/adapters/protobuf.hpp:344-387 | Concatenation is merge (Protocol Buffers Encoding guide, section "Last One Wins"): if the first part decodes, then decoding both parts in a row gives the status, object and error of decoding the second part into what the first part made of the object |
| `ProtobufMerge.FieldExtends` | include/contract/adapters/protobuf.hpp:492-525 | A record that was read completely reads the same in front of any further input |
| `ProtobufMerge.FieldShift` | include/contract/adapters/protobuf.hpp:329-335 | At any depth of messages, tuples, maps and packed arrays, adding where a nested window starts to the offset a nested reader reports gives the offset in the root buffer; value and status do not change |
| `ProtobufMerge.EntryShift` | include/contract/adapters/protobuf/map.hpp:219-261 | The same for errors raised inside a map entry |
| `ProtobufLanding.RecordLands` | include/contract/adapters/protobuf.hpp:844-902 | Decoding the encoding of one record in front of any bytes, into any target, leaves exactly the merged target and consumes exactly the record; it fails exactly when a tuple inside is not one record per element |
| `ProtobufLanding.FieldsLand` | include/contract/adapters/protobuf.hpp:777-790 | Decoding the encoding of a message into any object lands its fields one after another |
| `ProtobufLanding.ElemsLand` | include/contract/adapters/protobuf/tuple.hpp:62-101 | A tuple is accepted exactly when every element was seen once; otherwise it is refused, however the rest decodes |
| `ProtobufLanding.FieldIsRecords` | include/contract/adapters/protobuf/map.hpp:78-125 | What the writer emits for a field is one record per carried value: none for an empty optional, one per entry for a map |
| `ProtobufLanding.LeafLands` | include/contract/adapters/protobuf.hpp:904-1189 | Every scalar, string, byte array and bitset reads back in front of any bytes, whatever the target held; negative integers through sign extension to ten bytes |
| `ProtobufRoundTrip.MessageRoundTrip` | include/contract/adapters/protobuf.hpp:837-902 | A message decodes to itself, in whole, into any object of its type if and only if it fits the object: every engaged optional and every tuple element in it is sent as exactly one record, an optional that sends none finds its value already there, and maps find no keys but their own |
| `ProtobufRoundTrip.AlwaysFits` | include/contract/adapters/protobuf.hpp:837-1002 | Every value of a type whose optional payloads and tuple elements are neither optional nor map, and whose member initialisers leave optionals and maps empty, fits every target whose optionals and maps are empty |
| `ProtobufRoundTrip.DefaultRoundTrip` | include/contract/adapters/protobuf.hpp:837-1002 | So every message of such a type decodes to itself from its encoding into a default-constructed object |
| `ProtobufRoundTrip.InitialKept` | include/contract/adapters/protobuf/optional.hpp:25-32 | Concrete failing input: where a member initialiser engages an optional, a message with the optional empty is written as nothing and a default-constructed object keeps the initial value |
| `ProtobufRoundTrip.LandsFits` | include/contract/adapters/protobuf/optional.hpp:46-54 | The same equivalence for a field of any type, nested to any depth, and any target of that type |
| `ProtobufRoundTrip.OptionalMapKeepsLast` | include/contract/adapters/protobuf/optional.hpp:46-54 | An optional map arrives with its last entry alone, because every record empties the optional first; it fails exactly when some entry does |
| `ProtobufRoundTrip.HiddenOptionalLost` | include/contract/adapters/protobuf/optional.hpp:25-32 | Concrete failing input: an optional engaged over an empty one is written as nothing and read back as empty |
| `ProtobufRoundTrip.TupleRefused` | include/contract/adapters/protobuf/tuple.hpp:89-100 | A tuple with an element sent as no record or as several is written by the library and refused by it |
| `ProtobufRoundTrip.TupleGapRefused` | include/contract/adapters/protobuf/tuple.hpp:94-99 | Concrete failing input: a tuple of one empty optional is an empty payload, refused with an invalid size at offset zero |
| `ProtobufRoundTrip.FoldFresh` | include/contract/adapters/protobuf/optional.hpp:46-54 | However many records arrive, an optional keeps what the last one made of a fresh payload |
| `ProtobufWriter.PushSplit` | include/contract/adapters/protobuf.hpp:663-693 | Two writes in a row, the second only if the first fitted, leave what one write of both leaves |
| `ProtobufWriter.Capacity` | include/contract/adapters/protobuf.hpp:663-737 | Capacity theorem: a window ends up with the whole encoding when it fits and is otherwise filled to its last byte with a prefix of it; a counter always ends up with the encoding's length |
| `ProtobufWriter.Writer.WriteBytes` | include/contract/adapters/protobuf.hpp:663-693 | The prepare/commit loop commits exactly as many bytes as there is room for and fails exactly when that is not all |
| `ProtobufWriter.Writer.WriteVarint` | include/contract/adapters/protobuf.hpp:695-721 | Counting, ten-byte window and fallback path all have the effect of writing the varint's bytes |
| `ProtobufWriter.Writer.MeasureBody` | include/contract/adapters/protobuf.hpp:815-825 | The size the counting writer measures is the exact length of the payload the real writer emits, at any nesting |
| `ProtobufWriter.Writer.MeasureEntry` | include/contract/adapters/protobuf/map.hpp:80-101 | The same for the two-pass measurement of a map entry |
| `ProtobufWriter.Writer.WriteField` | include/contract/adapters/protobuf.hpp:739-763 | A field of any supported type is written as far as it fits, and the status says whether it did; its bytes are those `ProtobufFormat.Spelled` gives in numbers |
| `ProtobufWriter.Writer.WriteDelimited` | include/contract/adapters/protobuf.hpp:850-866 | Key, measured length and payload, in that order, as far as they fit |
| `ProtobufWriter.Writer.WriteEntries` | include/contract/adapters/protobuf/map.hpp:78-125 | One record per map entry, as far as they fit |
| `ProtobufWriter.Writer.WriteFields` | include/contract/adapters/protobuf.hpp:777-790 | The fields of a message in declared order, as far as they fit |
| `ProtobufReader.Reader.NextVarint` | include/contract/adapters/protobuf.hpp:389-412 | The ten-byte loop yields the varint's value modulo 2^64, or truncated or invalid with the cursor unmoved |
| `ProtobufReader.Reader.NextView` | include/contract/adapters/protobuf.hpp:455-469 | All of the requested bytes or none; a request for none never touches the cursor |
| `ProtobufReader.Reader.ReadFieldValue` | include/contract/adapters/protobuf.hpp:492-525 | On any bytes and any target: target, cursor, status and error of one field, the error's offset being the root offset of the cursor of the reader that raised it |
| `ProtobufReader.Reader.ReadMessageValue` | include/contract/adapters/protobuf.hpp:344-387 | The same for the record loop of a message, whose object keeps what was read before an error |
| `ProtobufReader.Reader.ReadTupleValue` | include/contract/adapters/protobuf/tuple.hpp:62-101 | The same for the tuple loop with its array of seen flags and its count |
| `ProtobufReader.Reader.ReadElements` | include/contract/adapters/protobuf/array.hpp:168-217 | The same for packed elements: count errors are raised on the outer reader behind the payload, element errors by the nested reader |
| `ProtobufReader.Reader.ReadMapEntry` | include/contract/adapters/protobuf/map.hpp:219-261 | The same for a map entry: default key and mapped value, fields one and two in any order, then insert or assign |
| `ProtobufReader.Reader.ReadFlags` | include/contract/adapters/protobuf/bitset.hpp:50-89 | A bitset is reset first, then set from exactly the expected number of bytes |
| `ByteWindow.WindowInput.Peek` | include/contract/io/byte_window.hpp:29-38 | At most the requested number of the remaining bytes, without moving |
| `ByteWindow.WindowOutput.Prepare` | include/contract/io/byte_window.hpp:81-90 | Offers as much as was asked for or all that is left |
| `ByteWindow.WindowOutput.Commit` | include/contract/io/byte_window.hpp:92-101 | The committed bytes grow by what was written into the window |
| `EncryptedFields.MaskSplit` | include/contract/adapters/binary.hpp:247-262 | Masking piecewise, each piece at its position in the field, is masking the whole |
| `EncryptedFields.MaskTwice` | include/contract/adapters/binary.hpp:299-317 | Masking twice gives the stream back |
| `EncryptedFields.UnwireWire` | include/contract/adapters/binary.hpp:506-529 | Round trip: whenever encrypted fields line up and sizes agree between them, reading gives the codecs exactly the plain bytes written, however reads and writes are split |
| `EncryptedFields.WireBits` | include/contract/adapters/binary.hpp:240-328 | Bit for bit: every byte of an encrypted field, nested ones included, is its plain byte with the bits flipped that are set in the key byte of its place in the outermost encrypted field; every other byte is in the clear |
| `EncryptedFields.CheckedOutput.Write` | include/contract/io/byte.hpp:48-63 | All of the bytes are appended, or none |
| `EncryptedFields.EncryptingOutput.Write` | include/contract/adapters/binary.hpp:247-262 | Bytes are masked at the current position, which advances whether or not they fit; what is appended has exactly the bits flipped that are set in the key bytes met |
| `EncryptedFields.Writer.WriteNode` | include/contract/adapters/binary.hpp:506-529 | However codecs split their writes, an encrypted field's bytes are its plain bytes XORed with the key repeated from position zero, nested encrypted fields masked once only; success exactly when all fits, and otherwise a prefix |
| `EncryptedFields.CheckedInput.ReadView` | include/contract/io/byte.hpp:133-144 | All of the requested bytes, or no view and no movement |
| `EncryptedFields.DecryptingInput.ReadView` | include/contract/adapters/binary.hpp:282-297 | The next bytes with exactly the bits flipped that are set in the key bytes met, or no movement |
| `EncryptedFields.Reader.ReadPlan` | include/contract/adapters/binary.hpp:707-761 | Whatever reads the codecs make, each encrypted field is unmasked once from position zero; success exactly when the input is long enough |
| `Definition.FlattenWalks` | include/contract/definition.hpp:93-115 | For any depth of BASE entries, the flattened list is the depth-first walk, each effective id is the declared id plus the sum of the offsets on its path, and that sum is the base offset |
| `Definition.DispatchById` | include/contract/visit.hpp:82-95 | The fold over all fields calls its function exactly once, on the first field with the id, and not at all when there is none |
| `Definition.DispatchByName` | include/contract/visit.hpp:119-132 | The same keyed by name |
| `Definition.DispatchUnique` | include/contract/detail/validation.hpp:21-24 | Under the uniqueness check, the field dispatched to is the one and only field with the id |
| `KeyOrder.KeysOrder` | include/contract/adapters/compact/map.hpp:108-131 | The order on keys of every kind a map may have is total: equivalent keys are equal, and swapping the sides flips the sign |
| `KeyOrder.KeysChain` | include/contract/adapters/compact/map.hpp:108-131 | That order is transitive, so map entries have one strictly increasing arrangement |
| `KeyOrder.KeyLess` | include/contract/adapters/compact/map.hpp:27-131 | And it is that of `std::less`: numbers as numbers, false before true, strings, byte arrays and sequences by their first difference or the shorter first, an empty optional before an engaged one, alternatives by index |
| `KeyOrder.EmplaceMap` | include/contract/adapters/compact/map.hpp:119-131 | Emplacing is refused exactly for keys that are present; otherwise the map holds the old entries and the new one, keys still strictly increasing |
| `KeyOrder.AssignMap` | include/contract/adapters/protobuf/map.hpp:259-260 | Insert-or-assign binds the key to the new value, leaves every other entry alone and keeps the order: the last of several entries with one key wins |
| `KeyOrder.AssignAllSame` | include/contract/adapters/protobuf/map.hpp:259-260 | Assigning all entries of a map over another map yields that map exactly when the other had no key besides |
| `CompactTargets.DecodeTyped` | include/contract/adapters/compact.hpp:1290-1518 | On arbitrary bytes: a successful read into a value of any type leaves a value of that type, with numbers in range, arrays and bitsets of their size, alternatives in range and map keys strictly increasing |
| `CompactTargets.AfterTyped` | include/contract/adapters/compact.hpp:1290-1518 | On arbitrary bytes: whatever a read fails on, and wherever in a nested target, what it leaves behind is still a value of the type |
| `CompactTargets.ResizedMeans` | include/contract/adapters/compact.hpp:1499-1518 | A string resized for bytes that are missing keeps what it had as far as there is room, and zeros follow |
| `YamlText.Scanner.ReadPhysicalLine` | include/contract/adapters/yaml.hpp:741-779 | For any backend that shows any non-empty chunk at every peek: one line of the remaining text, up to CRLF, LF or CR even when CR and LF lie in different windows, with the next line number; nothing only at the end |
| `YamlText.LineBreaks` | include/contract/adapters/yaml.hpp:758-772 | CRLF, LF and CR each end a line and belong to neither side |
| `YamlText.ScanSplits` | include/contract/adapters/yaml.hpp:781-809 | Scanning is splitting the whole text into lines numbered 1, 2, 3 and so on, dropping blanks and comments, and stopping at an indenting tab; no empty line follows a final break |
| `YamlText.Scanner.ReadNextContentLine` | include/contract/adapters/yaml.hpp:781-809 | The next content line with its number, indent and normalised text, or the tab error |
| `YamlText.Scanner.PeekLine` | include/contract/adapters/yaml.hpp:704-710 | Peeking shows the next content line and changes nothing that is still to be parsed |
| `YamlText.Scanner.ConsumeLine` | include/contract/adapters/yaml.hpp:712-723 | Exactly the peeked line is gone afterwards |
| `YamlCodec.ValueExtent` | include/contract/adapters/yaml.hpp:556-567 | On any input: a value read below an entry consumes only lines indented at least two more than the entry, and a block ends where nothing of it can follow |
| `YamlCodec.BodyExtent` | include/contract/adapters/yaml.hpp:577-615 | On any input: a mapping read at an indent is a contiguous run of lines indented at least that deep, up to the end, a smaller indent, or a sequence item at that indent |
| `YamlCodec.ItemsExtent` | include/contract/adapters/yaml.hpp:617-647 | The same for a sequence, up to a line at that indent that is not an item |
| `YamlReader.Reader.ReadScalarToken` | include/contract/adapters/yaml.hpp:477-515 | The inline value, or at the root the one line that is a scalar, with the error each other line gets |
| `YamlReader.Reader.BeginNested` | include/contract/adapters/yaml.hpp:674-695 | Where a nested block starts, or why there is none |
| `YamlReader.Reader.ReadMappingEntry` | include/contract/adapters/yaml.hpp:577-615 | An entry consumes its line and becomes the current value; any other line is left alone |
| `YamlReader.Reader.ReadSequenceItem` | include/contract/adapters/yaml.hpp:617-647 | The same for a sequence item |
| `YamlReader.Reader.ReadCurrentValue` | include/contract/adapters/yaml.hpp:556-567 | The value below the current entry; whatever was read, the current value is afterwards what it was before |
| `YamlReader.Reader.ReadBody` | include/contract/adapters/yaml.hpp:898-934 | The entry loop with its seen flags, then the missing-field check |
| `YamlReader.Reader.FillMissing` | include/contract/adapters/yaml.hpp:936-949 | Unseen optional fields are emptied; the first other unseen field is an error |
| `YamlReader.Reader.ReadItems` | include/contract/adapters/yaml.hpp:1046-1071 | The item loop of vectors, arrays and tuples, too many and too few items included |
| `YamlReader.Reader.ReadOptional` | include/contract/adapters/yaml.hpp:1014-1041 | Null words and missing blocks empty the optional; a block under a scalar optional is an error |
| `YamlReader.Reader.Read` | include/contract/adapters/yaml.hpp:439-459 | One value from wherever the last read stopped, in whatever state it left, then an error if a tab or any line is left; a tab that ended the last read is the end of the document for this one |
| `YamlLayout.LayoutDecodes` | include/contract/adapters/yaml.hpp:886-1168 | For every tree of objects, non-empty sequences, optionals of non-optional payload, booleans, integers of 16 to 64 bits and double-quoted strings, roots that are scalars or optionals included: its text with two spaces a level and entries in any order, scanned from text, decodes to that tree, whatever the reader's options - unless the whole document is a negative integer, which is refused |
| `YamlLayout.ValueParses` | include/contract/adapters/yaml.hpp:556-567 | A value laid out below its line parses to itself and ends exactly behind its block, wherever in a document it stands |
| `YamlLayout.UnescapeEscape` | include/contract/adapters/yaml.hpp:138-166 | The reader's escapes invert the library's escaping exactly for strings without control characters other than newline, CR and tab; any other control character is refused |
| `YamlLayout.IntegerShow` | include/contract/adapters/yaml.hpp:206-217 | Decimal text of an integer in the type's range parses to it |
| `YamlLayout.QuoteUncommented` | include/contract/adapters/yaml.hpp:110-126 | The comment scan finds nothing in a quoted string that lacks a double quote or lacks a hash sign |
| `YamlLayout.QuoteReads` | include/contract/adapters/yaml.hpp:110-182 | For every string: its quoted form, once through comment stripping, is read back as the string if and only if its escapes are known and the comment scan finds no comment in it |
| `YamlLayout.StringDecodes` | include/contract/adapters/yaml.hpp:1170-1183 | For every string alone in a document: it decodes to itself under exactly that condition |
| `YamlLayout.QuotedHashLost` | include/contract/adapters/yaml.hpp:110-126 | Concrete failing input: a double quote, a space and a hash sign, whose escaped quote closes the string for the comment scan |
| `YamlLayout.HeadedStable` | include/contract/adapters/yaml.hpp:128-130 | A key or dash with its inline value is left as it is by comment stripping and trimming |
| `YamlLayout.RowsScan` | include/contract/adapters/yaml.hpp:781-809 | Rows written one to a line scan back to themselves with consecutive line numbers |
| `YamlLayout.RootNegativeRefused` | include/contract/adapters/yaml.hpp:499-503 | A document that starts with a negative integer at its root is refused, whatever follows: the minus sign is taken for a sequence item |
| `YamlLayout.ShadowedEmpty` | include/contract/adapters/yaml.hpp:898-945 | A field behind another of its name is never reached: any document that is accepted leaves it empty |
| `YamlLayout.ShadowedRefused` | include/contract/adapters/yaml.hpp:898-945 | No document at all decodes to an object with a required field behind another of its name |
| `YamlLayout.EmptyRefused` | include/contract/adapters/yaml.hpp:674-696 | A nested object or sequence with nothing to show is refused as missing, which is why nested blocks have to have entries |
| `YamlScalars.StringReads` | include/contract/adapters/yaml.hpp:168-182 | A bare string after a colon or dash is read as its own characters, one between single quotes as what stands between them |
| `YamlScalars.StringAlone` | include/contract/adapters/yaml.hpp:479-514 | The same for a line alone in a document; a bare one needs to be without colon and leading dash |
| `YamlScalars.StringInMapping` | include/contract/adapters/yaml.hpp:577-615 | The same for an entry, from text to object |
| `YamlScalars.StringInSequence` | include/contract/adapters/yaml.hpp:617-647 | The same for an item, from text to vector |
| `YamlScalars.EntryTakes` | include/contract/adapters/yaml.hpp:898-945 | An entry of a mapping at any depth gives the field of that name its string and nothing else |
| `YamlScalars.ItemTakes` | include/contract/adapters/yaml.hpp:1044-1080 | An item of a sequence at any depth adds its string |
| `YamlScalars.OneTooMany` | include/contract/adapters/yaml.hpp:1085-1140 | An array or tuple that has all its elements refuses another item |
| `YamlScalars.DoubleReads` | include/contract/adapters/yaml.hpp:138-182 | A double-quoted string is read as x if and only if its escapes, given by character code, spell x; any other is refused |
| `YamlScalars.BoolReads` | include/contract/adapters/yaml.hpp:1204-1222 | `true` and `false`, by character code, and no other text |
| `YamlScalars.NullReads` | include/contract/adapters/yaml.hpp:1012-1042 | `null`, a tilde, or nothing with nothing below empties an optional; other text is its payload's, and a block below a scalar payload is refused |
| `YamlScalars.UnsignedReads` | include/contract/adapters/yaml.hpp:206-217 | An unsigned integer is read as n if and only if the text is the decimal digits of n, leading zeros allowed, and n fits the bits |
| `YamlScalars.SignedReads` | include/contract/adapters/yaml.hpp:206-217 | A signed one also with a minus sign |
| `YamlScalars.TrimMeans` | include/contract/adapters/yaml.hpp:92-108 | Trimming takes spaces and tabs off both ends, and all of them |
| `YamlScalars.NoComment` | include/contract/adapters/yaml.hpp:110-126 | A hash sign that is neither first nor behind a space or tab starts no comment |
| `YamlScalars.CommentLine` | include/contract/adapters/yaml.hpp:781-809 | A line with a comment behind its text is that text; one with nothing else is no line, but counts |
| `YamlScalars.BlankLine` | include/contract/adapters/yaml.hpp:781-809 | A blank line is no line, but counts |
| `YamlScalars.TabLine` | include/contract/adapters/yaml.hpp:786-795 | A tab in the indentation ends the document with an error, whatever stands behind it |
| `YamlScalars.EntryGaps` | include/contract/adapters/yaml.hpp:577-615 | Spaces and tabs around the colon belong neither to the key nor to the value |
| `YamlScalars.ItemGaps` | include/contract/adapters/yaml.hpp:617-647 | Spaces and tabs behind the dash do not belong to the item |
| `YamlScalars.LastKey` | include/contract/adapters/yaml.hpp:951-967 | The same key twice is an error if the options say so; otherwise the last value stays |
| `YamlScalars.StrangeKey` | include/contract/adapters/yaml.hpp:913-937 | A key of no field is an error if the options say so; otherwise it is passed over |
| `YamlScalars.LineRefused` | include/contract/adapters/yaml.hpp:577-647 | A line deeper than its block is refused, one less deep or of the other kind ends it, and a mapping line without colon is refused |
| `YamlScalars.Missing` | include/contract/adapters/yaml.hpp:987-1009 | A mapping is complete exactly when every field not seen is optional; those are emptied and the others stay as read |
| `YamlScalars.BlockRefused` | include/contract/adapters/yaml.hpp:439-459 | Text where a block should be is refused, and so are a line or a tab behind the document's value |
| `YamlScalars.RootRefused` | include/contract/adapters/yaml.hpp:479-514 | A scalar document is one line, not indented, no item, and without colon outside quotes |

## Left out

- Allocation failure: reserving or resizing to a huge declared count is taken to succeed, so the work
  bounds count reads and not memory.
- Field guards (`max_items`, `max_bytes`, `max_length`), attribute resolution and validation counters.
- Property and reference fields with custom get and set hooks: fields are read and written in place.
- `std::string_view`, `std::span` and `std::unordered_map` codecs, and the protobuf vector and variant
  codecs.
- Map keys that are floats, bitsets or objects, and optional keys of optional payload. Strings, integers,
  booleans, byte arrays and sequences, optionals and variants of keys are covered.
- The compact writer's branch for ids that are not positive: the static check on flattened fields
  forbids such ids.
- YamlReader.Reader.ReadValue: says nothing of the contents of the target after a failed read.
- Protobuf payloads of 2^64 bytes or more: lengths are `size_t`, so the round trip and the writer assume
  encodings below that.
- `ProtobufReader.Reader.Left` and its kin say nothing of where the cursor stands after an error inside a
  record; only the error's offset is stated.
- The field-less `read` of a protobuf map codec, which no field reaches.
- YAML floats, enumerations, 8-bit integers and string views; `from_chars` is a decimal parser with a
  range check.
- Line numbers and snippets of YAML errors. A tab error raised outside a value reads on while it builds
  its location, so the line it reports is the next content line; the status is the same.
- YamlLayout.LayoutDecodes: field names are distinct identifiers and strings pass the comment scan, which
  counts escaped quotes. YamlLayout.ShadowedEmpty and YamlLayout.StringDecodes say what becomes of the
  others.
- Encrypted fields behind the binary adapter's string views, whose bytes are only valid until the next
  read.
- The unchecked `io::input` and `io::output` cursors, file and network backends.
- JSON, console and debug output, schema text, logging: write-only, no reader to compare with.
- Scalar and container codecs of the binary adapter: raw writes here, whatever their sizes.
- Recursion depth: the code's recursion is taken to fit the stack.
