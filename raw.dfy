/** src/raw.rs: the tag set, the per-tag size rule, id-attributed errors and
    the chunk reader that records every id it has accepted. */
module Raw {
  import opened Wrappers
  import opened Words
  import opened Bits

  /** The chunk tags, with their wire values as discriminants (no EOF here). */
  datatype Tag = Int | Uint | String | Array | Map

  function TagByte(tag: Tag): u8
  {
    match tag
    case Int => 1
    case Uint => 2
    case String => 3
    case Array => 4
    case Map => 5
  }

  /** A framed chunk; `size` is the declared ChunkSize. */
  datatype Chunk = Chunk(tag: Tag, id: u16, size: u16, content: seq<u8>)

  datatype TagSizeError =
    | IntMustBePowerOfTwo(size: u16)
    | UintMustBePowerOfTwo(size: u16)
    | ArrayWithOddCount(size: u16)
    | MapWithNonQuadCount(size: u16)

  /** `Tag::check_valid_size`: None when the size suits the tag. */
  function CheckValidSize(tag: Tag, size: u16): Option<TagSizeError>
  {
    match tag
    case Int => if CountOnes(size) == 1 then None else Some(IntMustBePowerOfTwo(size))
    case Uint => if CountOnes(size) == 1 then None else Some(UintMustBePowerOfTwo(size))
    case String => None
    case Array => if BitAnd(size, 0x1) == 0 then None else Some(ArrayWithOddCount(size))
    case Map => if BitAnd(size, 0x3) == 0 then None else Some(MapWithNonQuadCount(size))
  }

  /** Int and Uint take exactly the power-of-two sizes 1, 2, 4, ..., 32768. */
  lemma IntegerSizeRule(size: u16)
    ensures CheckValidSize(Int, size) == None <==> size in PowersOfTwoU16
    ensures CheckValidSize(Uint, size) == None <==> size in PowersOfTwoU16
    ensures size !in PowersOfTwoU16 ==>
      CheckValidSize(Int, size) == Some(IntMustBePowerOfTwo(size)) &&
      CheckValidSize(Uint, size) == Some(UintMustBePowerOfTwo(size))
  {
    SingleBitU16(size);
  }

  /** Strings take any size. */
  lemma StringSizeRule(size: u16)
    ensures CheckValidSize(String, size) == None
  {
  }

  /** Arrays take the even sizes, 0 included. */
  lemma ArraySizeRule(size: u16)
    ensures CheckValidSize(Array, size) ==
      if size % 2 == 0 then None else Some(ArrayWithOddCount(size))
  {
    AndOneIsParity(size);
  }

  /** Maps take the multiples of four. */
  lemma MapSizeRule(size: u16)
    ensures CheckValidSize(Map, size) ==
      if size % 4 == 0 then None else Some(MapWithNonQuadCount(size))
  {
    AndThreeIsModFour(size);
  }

  /** The sizes that fit a 1-, 2-, 4- or 8-byte integer pass, 0, 3, 5, 6, 7 fail. */
  lemma IntegerSizeExamples()
    ensures forall n: u16 :: n in {1, 2, 4, 8} ==> CheckValidSize(Int, n) == None && CheckValidSize(Uint, n) == None
    ensures forall n: u16 :: n in {0, 3, 5, 6, 7} ==> CheckValidSize(Int, n).Some? && CheckValidSize(Uint, n).Some?
  {
    forall n: u16 | n in {0, 1, 2, 3, 4, 5, 6, 7, 8} {
      IntegerSizeRule(n);
    }
  }

  datatype ErrorKind =
    | InvalidSizeForTag(sizeError: TagSizeError)
    | UnmatchedContentLen(saidSize: u16, actualSize: nat)
    | IdColision(id: u16)

  /** An error together with the chunk it is about. */
  datatype Error = Error(kind: ErrorKind, chunkId: u16)

  function IntoError(kind: ErrorKind, chunkId: u16): Error
  {
    Error(kind, chunkId)
  }

  /** What a read returns, with the set of ids recorded afterwards. */
  datatype ReadOutcome = ReadOutcome(result: Result<Chunk, Error>, idsRead: set<u16>)

  /** `ChunkReader::read` on the recorded ids: length check, then the id
      (recorded from here on), then the size rule. */
  function ReadChunk(idsRead: set<u16>, tag: Tag, id: u16, size: u16, content: seq<u8>): ReadOutcome
  {
    if size != |content| then
      ReadOutcome(Err(IntoError(UnmatchedContentLen(size, |content|), id)), idsRead)
    else if id in idsRead then
      ReadOutcome(Err(IntoError(IdColision(id), id)), idsRead)
    else match CheckValidSize(tag, size)
      case Some(kind) => ReadOutcome(Err(IntoError(InvalidSizeForTag(kind), id)), idsRead + {id})
      case None => ReadOutcome(Ok(Chunk(tag, id, size, content)), idsRead + {id})
  }

  class ChunkReader {
    var idsRead: set<u16>

    constructor ()
      ensures idsRead == {}
    {
      idsRead := {};
    }

    method Read(tag: Tag, id: u16, size: u16, content: seq<u8>) returns (r: Result<Chunk, Error>)
      modifies this
      ensures ReadOutcome(r, idsRead) == ReadChunk(old(idsRead), tag, id, size, content)
    {
      if size != |content| {
        return Err(IntoError(UnmatchedContentLen(size, |content|), id));
      }
      var inserted := id !in idsRead;
      idsRead := idsRead + {id};
      if !inserted {
        return Err(IntoError(IdColision(id), id));
      }
      var kind := CheckValidSize(tag, size);
      if kind.Some? {
        return Err(IntoError(InvalidSizeForTag(kind.value), id));
      }
      return Ok(Chunk(tag, id, size, content));
    }
  }

  /** Every error a read returns names the chunk id it was given. */
  lemma ReadErrorsCarryId(idsRead: set<u16>, tag: Tag, id: u16, size: u16, content: seq<u8>)
    ensures var o := ReadChunk(idsRead, tag, id, size, content);
      o.result.Err? ==> o.result.error.chunkId == id
  {
  }

  /** A read succeeds exactly when the length matches, the id is new and the
      size suits the tag; the chunk is then the input and the id is recorded. */
  lemma ReadSucceedsIff(idsRead: set<u16>, tag: Tag, id: u16, size: u16, content: seq<u8>)
    ensures var o := ReadChunk(idsRead, tag, id, size, content);
      o.result.Ok? <==> size == |content| && id !in idsRead && CheckValidSize(tag, size) == None
    ensures var o := ReadChunk(idsRead, tag, id, size, content);
      o.result.Ok? ==> o.result.value == Chunk(tag, id, size, content) && |o.result.value.content| == size
                       && o.idsRead == idsRead + {id}
  {
  }

  /** A length mismatch is reported first and records nothing; any read whose
      length matches records its id, even one then rejected by the size rule. */
  lemma ReadRecordsIdIffLengthMatches(idsRead: set<u16>, tag: Tag, id: u16, size: u16, content: seq<u8>)
    ensures var o := ReadChunk(idsRead, tag, id, size, content);
      size != |content| ==> o == ReadOutcome(Err(Error(UnmatchedContentLen(size, |content|), id)), idsRead)
    ensures var o := ReadChunk(idsRead, tag, id, size, content);
      size == |content| ==> o.idsRead == idsRead + {id}
  {
  }

  /** Once a read with matching length has seen an id, any later read of it
      with matching length collides, whatever tag and size either carries. */
  lemma SecondReadCollides(idsRead: set<u16>, id: u16, tag1: Tag, size1: u16, content1: seq<u8>,
                           tag2: Tag, size2: u16, content2: seq<u8>)
    requires size1 == |content1| && size2 == |content2|
    ensures var first := ReadChunk(idsRead, tag1, id, size1, content1);
      ReadChunk(first.idsRead, tag2, id, size2, content2) ==
        ReadOutcome(Err(Error(IdColision(id), id)), first.idsRead)
  {
  }
}
