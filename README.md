# cfl chunk decoder and piece resolver, modelled in Dafny

cfl stores values as a flat stream of binary *chunks*. Each chunk is framed
big-endian as `id (2 bytes) ‖ tag (1 byte) ‖ size (2 bytes) ‖ content (size bytes)`.
The tag says what the content is: a signed or unsigned integer, UTF-8 text,
an array of chunk ids, or a map whose records are (key id, value id) pairs.
Two layers turn bytes into values:

* the **chunk reader** pulls one chunk at a time off a byte iterator. It
  classifies truncation (clean end, missing id, tag, size or content) and
  rejects unknown tag bytes. It also rejects a declared size that does not
  match the content, an id seen before in the same session, and a size the
  tag does not allow (`check_valid_size`);
* the **piece manager** holds the decoded chunks in a pool keyed by id and
  *materializes* a chunk into a typed piece. Materializing removes the chunk
  from the pool, so each chunk is materialized at most once. A map's keys are
  materialized on the spot and must be scalars; array elements and map
  values stay unresolved ids.

The repository is in the middle of a refactor. Three versions of the reader
exist side by side, and each is modelled as it is written:

| module | file | what it is |
|---|---|---|
| `Raw` | `src/raw.rs` | the first chunk reader: tags 1–5, the size rule, `read` with its own error type |
| `RawReader` | `src/raw/reader.rs` | the draft byte-level reader over `Raw`'s tags |
| `Reader` | `src/reader.rs` | the current byte-level reader: adds the `EOF` tag 0, is the first to produce `MissingSize` (the draft declares it but never uses it), and adds counts to `MissingContent` |
| `Graph` | `src/graph.rs` | the piece manager, over `Raw`'s `Tag` and `Chunk` |

Supporting modules:

* `Words` holds the fixed-width integer types and `merge_2be_u8s`.
* `Bits` holds `count_ones`, `&` and `|`, written bit by bit on naturals.
* `Cursor` holds `ByteCursor`, the `&mut impl Iterator<Item = u8>` the readers
  pull from: an owned byte sequence with a forward-only position.
* `Utf8` holds a UTF-8 decoder that stands in for `String::try_from(Vec<u8>)`.
  It implements the well-formed byte sequences of RFC 3629, section 4.
* `Pipeline` joins the two layers in one worked example.

Each stateful operation is a method of a class whose fields are the Rust
struct's fields. Examples are `ChunkReader.idsRead` and `PieceManager.chunks`.
Each method is proved equal to a pure specification function of the old
state and the inputs: `ReadChunk`, `Decode`, `Materialize`, `Convert`.
The properties the code promises are lemmas about those functions.

Points where the behaviour of the code is easy to misread:

* The current reader checks in this order: content length, then id
  collision, then the size rule (`src/reader.rs:21-32`). An id seen before
  whose size is also invalid is therefore reported as `IdColision`, not
  `InvalidSizeForTag`. The id is recorded as soon as the collision check
  passes, even when the size rule then rejects the chunk
  (`Reader.ReadRecordsIdBeforeSizeRule`).
* Int and Uint accept every power of two up to 32768 (`count_ones() == 1`,
  `src/raw.rs:63-66`). Folding more than eight bytes wraps modulo 2^64
  (`Graph.MakeUint`).
* In the draft reader, an id that cannot be read is attributed to id
  `u16::MAX` (`src/raw/reader.rs:53`); the current reader attributes it to
  id 0 (`src/reader.rs:46`).

## Model

| member | source | states |
|---|---|---|
| Words.Merge2Be | src/reader.rs:70-72 | shifting the high byte up eight bits and or-ing in the low byte gives `high * 256 + low` |
| Words.SplitMerge | src/reader.rs:70-72 | merging the high and low byte of any u16 gives the u16 back |
| Words.MergeSplit | src/reader.rs:70-72 | the high and low bytes of a merged value are the two bytes merged |
| Cursor.ByteCursor.Next | src/reader.rs:53 | `next()` yields the byte at the position and advances by one; at the end it yields None and does not move |
| Bits.SingleBitIffPowerOfTwo | src/raw.rs:63 | `count_ones(n) == 1` exactly when n is a power of two |
| Bits.AndOneIsParity | src/raw.rs:68 | `n & 0b1` is n mod 2 |
| Bits.AndThreeIsModFour | src/raw.rs:70 | `n & 0b11` is n mod 4 |
| Raw.IntegerSizeRule | src/raw.rs:62-66 | Int and Uint accept exactly the sixteen u16 powers of two; any other size gets `IntMustBePowerOfTwo` / `UintMustBePowerOfTwo` carrying that size |
| Raw.StringSizeRule | src/raw.rs:67 | a String chunk may have any size |
| Raw.ArraySizeRule | src/raw.rs:68-69 | an Array size is accepted iff it is even, else `ArrayWithOddCount(size)` |
| Raw.MapSizeRule | src/raw.rs:70-71 | a Map size is accepted iff it is divisible by four, else `MapWithNonQuadCount(size)` |
| Raw.IntegerSizeExamples | src/raw.rs:63-66 | sizes 1, 2, 4, 8 are accepted for Int and Uint; 0, 3, 5, 6, 7 are rejected |
| Raw.ChunkReader.constructor | src/raw.rs:22-24 | a new reader has seen no ids |
| Raw.ChunkReader.Read | src/raw.rs:25-46 | the result and the new id set are those `ReadChunk` gives for the old id set |
| Raw.ReadErrorsCarryId | src/raw.rs:101-108 | every error `read` returns is attributed to the chunk's own id |
| Raw.ReadSucceedsIff | src/raw.rs:25-46 | `read` succeeds iff the size matches the content, the id is new and the size rule holds; the chunk is then exactly the inputs, and its id is recorded |
| Raw.ReadRecordsIdIffLengthMatches | src/raw.rs:26-35 | a length mismatch is `UnmatchedContentLen(said, actual)` and leaves the id set unchanged; otherwise the id is recorded, even if the chunk is rejected afterwards |
| Raw.SecondReadCollides | src/raw.rs:33-34 | after a read with a matching length, reading the same id again fails with `IdColision(id)` |
| Reader.TagFromByteInvertsTagByte | src/reader.rs:93-107 | `try_from` accepts exactly the bytes 0–5 and inverts `tag as u8`; any other byte n gives `InvalidTagValue(n)` |
| Reader.SizeRuleExtendsRaw | src/reader.rs:30-32 | for the tags 1–5 the size rule is that of `Raw`; EOF accepts exactly size 0 |
| Reader.ReadU16ChunkedErr | src/reader.rs:85-87 | no byte left gives the first error, one byte gives the second error, otherwise the big-endian merge of the next two bytes; the cursor advances by the bytes taken |
| Reader.ReadU16 | src/reader.rs:89-91 | the big-endian merge of the next two bytes, or None when fewer than two remain (the cursor is then at the end) |
| Reader.GetNU8s | src/reader.rs:74-83 | the next `size` bytes when that many remain; otherwise `Err` with all the bytes that were left, fewer than `size` |
| Reader.ChunkReader.constructor | src/reader.rs:9-13 | a new reader has seen no ids |
| Reader.ChunkReader.Read | src/reader.rs:14-40 | the result and the new id set are those `ReadChunk` gives for the old id set |
| Reader.ChunkReader.GetChunk | src/reader.rs:42-67 | the result, the new id set and the number of bytes consumed are those `Decode` gives for the bytes left in the cursor |
| Reader.DecodeFrame | src/reader.rs:42-67 | a well-formed chunk with a new id, framed and followed by any bytes, decodes back to itself; its id is recorded and exactly its frame is consumed |
| Reader.DecodedChunkIsFramed | src/reader.rs:42-67 | every successful decode consumed exactly the chunk's frame; the chunk's size matches its content and its size rule; its id was new and is now recorded |
| Reader.StreamStartTruncation | src/reader.rs:44-47 | no bytes gives `EOF` and one byte gives `MissingId`, both attributed to id 0, and the id set is unchanged |
| Reader.ErrorsCarryDecodedId | src/reader.rs:48-66 | once two bytes are there, every error is attributed to the id they spell; only a size-rule rejection changes the id set |
| Reader.TruncatedContentBeforeTag | src/reader.rs:57-63 | content cut short is `MissingContent(needs: size, got: bytes left)` even when the tag byte is invalid, and consumes the rest of the input |
| Reader.TruncatedSizeIsMissingSize | src/reader.rs:56 | three or four bytes give `MissingSize` attributed to the decoded id |
| Reader.RepeatedIdCollides | src/reader.rs:27-29 | two frames with the same id: the first decodes, the second fails with `IdColision(id)` after consuming exactly its own frame |
| Reader.ReadRecordsIdBeforeSizeRule | src/reader.rs:27-32 | with a matching length and a new id, the id is recorded whether or not the size rule then rejects the chunk, and a rejection carries the size error |
| Reader.ReadRejectsMismatchThenCollision | src/reader.rs:21-29 | a length mismatch is reported before an id collision; neither changes the id set |
| Reader.ReadSuccess | src/reader.rs:34-39 | a successful read returns exactly the inputs as a chunk, with a new id that is now recorded |
| RawReader.TagFromByteInvertsTagByte | src/raw/reader.rs:86-99 | the draft `try_from` accepts exactly the bytes 1–5 and inverts `tag as u8`; any other byte n, including 0, gives `InvalidTagValue(n)` |
| RawReader.GetNU8s | src/raw/reader.rs:74-80 | the next `size` bytes when that many remain, otherwise None with the cursor at the end |
| RawReader.ChunkReader.constructor | src/raw/reader.rs:9-13 | a new reader has seen no ids |
| RawReader.ChunkReader.Read | src/raw/reader.rs:14-40 | the result and the new id set are those `ReadChunk` gives for the old id set |
| RawReader.ChunkReader.GetChunk | src/raw/reader.rs:48-67 | the result, the new id set and the number of bytes consumed are those `Decode` gives for the bytes left in the cursor |
| RawReader.ShortIdIsMissingId | src/raw/reader.rs:50-54 | fewer than two bytes give `MissingId` attributed to id 0xFFFF; there is no separate clean end |
| RawReader.ErrorsCarryDecodedId | src/raw/reader.rs:55-66 | once two bytes are there, every error is attributed to the id they spell |
| RawReader.TruncatedContentBeforeTag | src/raw/reader.rs:57-63 | content cut short is `MissingContent`, even when the tag byte is invalid |
| RawReader.TruncatedSizeIsMissingTag | src/raw/reader.rs:56 | a truncated size field is reported as `MissingTag`, which cannot be told apart from a missing tag byte |
| RawReader.DecodeFrame | src/raw/reader.rs:48-67 | a well-formed chunk with a new id, framed and followed by any bytes, decodes back to itself and consumes exactly its frame |
| RawReader.ReadChecksInOrder | src/raw/reader.rs:14-40 | length mismatch, then collision, then size rule; the id is recorded once the length matches; success iff all three pass, returning the inputs |
| Utf8.AsciiDecodes | src/graph.rs:71 | bytes below 0x80 always convert to text, one character per byte with the same code |
| Utf8.IllFormedRejected | src/graph.rs:71 | a stray continuation byte, an overlong lead byte (0xC0, 0xC1), a lead byte above 0xF4, or an encoded surrogate fail to convert |
| Graph.IntoKey | src/graph.rs:24-32 | Str, Int and Uint pieces become the key with the same content; Array and Map pieces fail with `PieceCantBeKey(id, tag)` |
| Graph.MakeUint | src/graph.rs:108-110 | the fold `(s << 8) + n` is the big-endian value of the bytes modulo 2^64 |
| Graph.MakeInt | src/graph.rs:101-106 | the signed fold has the same bit pattern as the unsigned fold |
| Graph.MakeIntReinterpretsFold | src/graph.rs:101-106 | the Int result is the big-endian value modulo 2^64 read as two's complement, with no sign extension of short content |
| Graph.ShortIntIsNotSignExtended | src/graph.rs:101-106 | for fewer than eight bytes the Int result is the plain non-negative big-endian value |
| Graph.IntegerExamples | src/graph.rs:101-110 | `[0,0,0,100]` is 100 as Uint and as Int; `[0xFF]` is 255 as Int |
| Graph.ArrayIds | src/graph.rs:74-81 | one id for every two content bytes, in order, each the big-endian merge of its pair; a trailing odd byte is dropped |
| Graph.Materialize | src/graph.rs:56-59 | the requested id is no longer in the pool afterwards, and the pool only loses entries |
| Graph.Convert | src/graph.rs:60-98 | the pool only loses entries; a piece keeps the chunk's id and tag |
| Graph.ConvertRecords | src/graph.rs:83-94 | converting map records only removes entries from the pool |
| Graph.PoolOf | src/graph.rs:49-52 | the pool's ids are exactly the chunks' ids, and each entry is stored under its own id |
| Graph.PoolOfEntriesFromChunks | src/graph.rs:49-52 | every entry of the pool is one of the given chunks |
| Graph.PoolOfDistinct | src/graph.rs:49-52 | with distinct ids every chunk is in the pool under its id |
| Graph.PieceManager.constructor | src/graph.rs:49-52 | the manager's pool is `PoolOf` of the chunks |
| Graph.PieceManager.EvalFirst | src/graph.rs:53-55 | the result and the new pool are those of materializing id 1 |
| Graph.PieceManager.EvalChunkId | src/graph.rs:56-59 | the result and the new pool are those of `Materialize` on the old pool |
| Graph.PieceManager.EvalChunk | src/graph.rs:60-98 | the result and the new pool are those of `Convert` on the old pool |
| Graph.SecondMaterializeNotFound | src/graph.rs:57 | an id not in the pool is `ChunkNotFound(id)`; materializing an id a second time is `ChunkNotFound(id)` |
| Graph.AtMostOnce | src/graph.rs:57 | after materializing an id, whatever else is materialized, that id is never found again |
| Graph.GoneStaysGone | src/graph.rs:57 | an id missing from the pool stays missing through any later materializations |
| Graph.LeafConversion | src/graph.rs:60-82 | an Int, Uint, Array or String chunk converts to the matching piece; invalid UTF-8 gives `StringParse`; only that chunk leaves the pool |
| Graph.MapNamingItselfNotFound | src/graph.rs:89-91 | a map whose first key names the map itself fails with `ChunkNotFound`, because it left the pool first |
| Graph.CompositeKeyRejected | src/graph.rs:91 | a map whose first key materializes to an Array or Map piece fails with `PieceCantBeKey` naming that piece's id and tag |
| Graph.ArrayKeyRejected | src/graph.rs:91 | a map whose first key is an Array chunk in the pool fails with `PieceCantBeKey(id, Array)` and leaves the rest of the pool |
| Graph.RecordOutcome | src/graph.rs:84-93 | for the record at any offset: a key that fails to materialize ends the map with that error; a key that materializes to an Array or Map ends it with `PieceCantBeKey(id, tag)`; a scalar key contributes `(key, value id)` in front of the later records, converted in the pool the key left |
| Graph.ScalarKeyedMap | src/graph.rs:83-97 | a one-record map keyed by a Uint chunk holding `[7]` materializes to `PMap([(PUint(7), value id)])` and empties the pool |
| Graph.MapValuesInOrder | src/graph.rs:84-94 | a successful map has one entry for every four content bytes, and each value is the unresolved id in bytes 2–3 of its record |
| Pipeline.GreetingDecodes | src/reader.rs:42-67 | the bytes `[0,1, 3, 0,4, 104,105,33,10]` decode whole to one String chunk with id 1 and content "hi!\n" |
| Pipeline.GreetingResolves | src/graph.rs:56-73 | that chunk, alone in the pool, materializes to `Piece{1, String, Str("hi!\n")}` and empties the pool |

## Left out

- `src/main.rs`: the demonstration program that builds literal buffers and prints results is not part of this model.
- `src/lib.rs`: the crate-level `ErrorKind` wrapper and the `Display` implementations only format messages. The readers' `map_err(ErrorKind::from)` is modelled as attaching the chunk id to the reader error.
- The `println!` inside `make_int` (`src/graph.rs:103`) is output only, and is left out.
- `HashSet` and `HashMap` are modelled as Dafny `set` and `map`. Hashing and iteration order are not modelled. `PieceManager::new` keeps the last chunk for a repeated id (`Graph.PoolOf`), as `collect` into a `HashMap` does.
- `FromUtf8Error`: `StringParse` carries no payload. The conversion itself is modelled by `Utf8.Decode`, a decoder written from RFC 3629.
- Utf8.AsciiDecodes: `Utf8.Decode` is proved to accept ASCII and to reject some ill-formed sequences. It is not proved equal to the full standard library behaviour on every multi-byte input.
- The copies of `merge_2be_u8s` and `read_u16` in `src/raw/reader.rs:70-84` are identical to those in `src/reader.rs`, so `Words.Merge2Be` and `Reader.ReadU16` serve both readers.
- `count_ones`, `&` and `|` on `u16` are modelled as arithmetic on naturals, bit by bit (`Bits`). Fixed-width bit-vectors are not used.
- Reader.SizeRuleExtendsRaw: the current reader calls `check_valid_size` on a tag that includes `EOF`, but `check_valid_size` (`src/raw.rs:59-73`) has no `EOF` arm. The model assumes EOF accepts only size 0, since an EOF chunk carries no payload, and rejects any other size with `EofNotEmpty(size)`.
- The current reader's chunks, which may have the `EOF` tag, are handed to the resolver through `Reader.AsRawChunk`. That function is defined for the five non-EOF tags, because the resolver's `match` on `Tag` has no `EOF` arm.
- No pull-based chunk sequence or "has more bytes" probe exists in the reader sources, so none is modelled. A caller decodes a stream by calling `GetChunk` repeatedly.
- Integer widths: `u16` ids and sizes are subset types of `int`. The `u64` and `i64` folds are written out modulo 2^64 (`Graph.Shl8U64`, `Graph.Shl8I64`). `usize` lengths are unbounded naturals.
- Graph.ConvertRecords: its own contract states only that the pool shrinks. What it computes is stated by `Graph.RecordOutcome`, `Graph.MapValuesInOrder` and the key lemmas.

## Findings

| source | as written | input that shows it | evidently intended | confidence | as-written member | corrected member |
|---|---|---|---|---|---|---|
| src/raw/reader.rs:56 | a size field cut short is reported as `MissingTag` (the `MissingSize` variant is never produced) | `[0, 1, 3]`: the tag byte is present but the size is missing, yet the result is `MissingTag` for chunk 1, the same as for `[0, 1]` | report `MissingSize`, as `src/reader.rs:56` does | high that the code does this; medium that it was unintended; not executed | RawReader.TruncatedSizeIsMissingTag | Reader.TruncatedSizeIsMissingSize |
