/** src/reader.rs: the current chunk decoder. It pulls id, tag, size and
    content from a byte iterator, classifies every truncation point, maps the
    tag byte (0 meaning EOF) and hands the parts to `read`, which enforces
    length agreement, id uniqueness and the per-tag size rule. */
module Reader {
  import opened Wrappers
  import opened Words
  import opened Cursor
  import Raw

  /** The decoder's tag set: the raw tags plus EOF, wire value 0. */
  datatype Tag = EOF | Int | Uint | String | Array | Map

  /** `Tag::try_from(u8)`. */
  function TagFromByte(value: u8): Result<Tag, ReaderError>
  {
    match value
    case 0 => Ok(Tag.EOF)
    case 1 => Ok(Int)
    case 2 => Ok(Uint)
    case 3 => Ok(String)
    case 4 => Ok(Array)
    case 5 => Ok(Map)
    case n => Err(InvalidTagValue(n))
  }

  /** The wire value of a tag, as `try_from` reads it. */
  function TagByte(tag: Tag): u8
  {
    match tag
    case EOF => 0
    case Int => 1
    case Uint => 2
    case String => 3
    case Array => 4
    case Map => 5
  }

  function ToRaw(tag: Tag): Raw.Tag
    requires tag != Tag.EOF
  {
    match tag
    case Int => Raw.Int
    case Uint => Raw.Uint
    case String => Raw.String
    case Array => Raw.Array
    case Map => Raw.Map
  }

  /** `try_from` accepts exactly 0..=5, names every other byte, and is the
      inverse of the wire value. */
  lemma {:induction false} TagFromByteInvertsTagByte(value: u8, tag: Tag)
    ensures TagFromByte(value).Ok? <==> value <= 5
    ensures value > 5 ==> TagFromByte(value) == Err(InvalidTagValue(value))
    ensures TagFromByte(TagByte(tag)) == Ok(tag)
    ensures TagFromByte(value) == Ok(tag) ==> TagByte(tag) == value
  {
  }

  datatype SizeError =
    | TagRule(rawError: Raw.TagSizeError)
    | EofNotEmpty(size: u16)

  /** The size rule for this tag set: the raw rule for the raw tags and,
      for EOF, an empty payload (raw.rs has no EOF arm; this rule is assumed). */
  function CheckValidSize(tag: Tag, size: u16): Option<SizeError>
  {
    if tag == Tag.EOF then
      if size == 0 then None else Some(EofNotEmpty(size))
    else match Raw.CheckValidSize(ToRaw(tag), size)
      case None => None
      case Some(e) => Some(TagRule(e))
  }

  datatype ReaderError =
    | EOF
    | MissingId
    | MissingSize
    | MissingTag
    | MissingContent(needs: u16, got: nat)
    | InvalidTagValue(value: u8)
    | UnmatchedContentLen(saidSize: u16, actualSize: nat)
    | IdColision(id: u16)
    | InvalidSizeForTag(sizeError: SizeError)

  /** A reader error attributed to a chunk id (`ErrorKind::into_error`). */
  datatype Error = Error(kind: ReaderError, chunkId: u16)

  datatype Chunk = Chunk(tag: Tag, id: u16, size: u16, content: seq<u8>)

  /** The same chunk seen by the resolver, which has no EOF tag. */
  function AsRawChunk(c: Chunk): Raw.Chunk
    requires c.tag != Tag.EOF
  {
    Raw.Chunk(ToRaw(c.tag), c.id, c.size, c.content)
  }

  datatype ReadOutcome = ReadOutcome(result: Result<Chunk, ReaderError>, idsRead: set<u16>)

  /** `ChunkReader::read` on the recorded ids: length, then the id (recorded
      from here on), then the size rule. */
  function ReadChunk(idsRead: set<u16>, tag: Tag, id: u16, size: u16, content: seq<u8>): ReadOutcome
  {
    if size != |content| then
      ReadOutcome(Err(UnmatchedContentLen(size, |content|)), idsRead)
    else if id in idsRead then
      ReadOutcome(Err(IdColision(id)), idsRead)
    else match CheckValidSize(tag, size)
      case Some(kind) => ReadOutcome(Err(InvalidSizeForTag(kind)), idsRead + {id})
      case None => ReadOutcome(Ok(Chunk(tag, id, size, content)), idsRead + {id})
  }

  /** The outcome of one `get_chunk` on the remaining bytes: its result, the
      ids recorded afterwards and how many bytes it pulled. */
  datatype Step = Step(result: Result<Chunk, Error>, idsRead: set<u16>, consumed: nat)

  /** `ChunkReader::get_chunk` on the bytes left in the iterator. */
  function Decode(idsRead: set<u16>, s: seq<u8>): (st: Step)
    ensures st.consumed <= |s|
  {
    if |s| == 0 then Step(Err(Error(ReaderError.EOF, 0)), idsRead, 0)
    else if |s| == 1 then Step(Err(Error(MissingId, 0)), idsRead, 1)
    else
      var id := Merge2Be(s[0], s[1]);
      if |s| == 2 then Step(Err(Error(MissingTag, id)), idsRead, 2)
      else if |s| < 5 then Step(Err(Error(MissingSize, id)), idsRead, |s|)
      else
        var size := Merge2Be(s[3], s[4]);
        if |s| - 5 < size then Step(Err(Error(MissingContent(size, |s| - 5), id)), idsRead, |s|)
        else match TagFromByte(s[2])
          case Err(e) => Step(Err(Error(e, id)), idsRead, 5 + size)
          case Ok(tag) =>
            var o := ReadChunk(idsRead, tag, id, size, s[5..5 + size]);
            match o.result
            case Err(e) => Step(Err(Error(e, id)), o.idsRead, 5 + size)
            case Ok(c) => Step(Ok(c), o.idsRead, 5 + size)
  }

  /** `read_u16_chunked_err`: a big-endian u16, failing with m1 when no byte
      is left and with m2 when only one is. */
  method ReadU16ChunkedErr<E>(itr: ByteCursor, m1: E, m2: E) returns (r: Result<u16, E>)
    requires itr.Valid()
    modifies itr
    ensures itr.Valid()
    ensures var rest := old(itr.Remaining());
      && (|rest| == 0 ==> r == Err(m1) && itr.pos == old(itr.pos))
      && (|rest| == 1 ==> r == Err(m2) && itr.pos == old(itr.pos) + 1)
      && (|rest| >= 2 ==> r == Ok(Merge2Be(rest[0], rest[1])) && itr.pos == old(itr.pos) + 2)
  {
    var high := itr.Next();
    if high.None? {
      return Err(m1);
    }
    var low := itr.Next();
    if low.None? {
      return Err(m2);
    }
    return Ok(Merge2Be(high.value, low.value));
  }

  /** `read_u16`: a big-endian u16, or None when fewer than two bytes are left. */
  method ReadU16(itr: ByteCursor) returns (r: Option<u16>)
    requires itr.Valid()
    modifies itr
    ensures itr.Valid()
    ensures var rest := old(itr.Remaining());
      && (|rest| < 2 ==> r == None && itr.pos == |itr.data|)
      && (|rest| >= 2 ==> r == Some(Merge2Be(rest[0], rest[1])) && itr.pos == old(itr.pos) + 2)
  {
    var high := itr.Next();
    if high.None? {
      return None;
    }
    var low := itr.Next();
    if low.None? {
      return None;
    }
    return Some(Merge2Be(high.value, low.value));
  }

  /** `get_n_u8s`: the next `size` bytes in stream order, or, when the stream
      ends first, Err of the strictly shorter prefix that was left. */
  method GetNU8s(itr: ByteCursor, size: u16) returns (r: Result<seq<u8>, seq<u8>>)
    requires itr.Valid()
    modifies itr
    ensures itr.Valid()
    ensures var rest := old(itr.Remaining());
      && (size <= |rest| ==> r == Ok(rest[..size]) && itr.pos == old(itr.pos) + size)
      && (size > |rest| ==> r == Err(rest) && |r.error| < size && itr.pos == |itr.data|)
  {
    ghost var rest := itr.Remaining();
    var vec: seq<u8> := [];
    var n := 0;
    while n < size
      invariant 0 <= n <= size
      invariant itr.Valid()
      invariant itr.pos == old(itr.pos) + n
      invariant n <= |rest| && vec == rest[..n]
    {
      var b := itr.Next();
      if b.None? {
        assert n == |rest| && vec == rest[..n] == rest;
        return Err(vec);
      }
      vec := vec + [b.value];
      n := n + 1;
    }
    return Ok(vec);
  }

  class ChunkReader {
    var idsRead: set<u16>

    constructor ()
      ensures idsRead == {}
    {
      idsRead := {};
    }

    method Read(tag: Tag, id: u16, size: u16, content: seq<u8>) returns (r: Result<Chunk, ReaderError>)
      modifies this
      ensures ReadOutcome(r, idsRead) == ReadChunk(old(idsRead), tag, id, size, content)
    {
      if size != |content| {
        return Err(UnmatchedContentLen(size, |content|));
      }
      var inserted := id !in idsRead;
      idsRead := idsRead + {id};
      if !inserted {
        return Err(IdColision(id));
      }
      var kind := CheckValidSize(tag, size);
      if kind.Some? {
        return Err(InvalidSizeForTag(kind.value));
      }
      return Ok(Chunk(tag, id, size, content));
    }

    method GetChunk(itr: ByteCursor) returns (r: Result<Chunk, Error>)
      requires itr.Valid()
      modifies this, itr
      ensures itr.Valid()
      ensures var st := Decode(old(idsRead), old(itr.Remaining()));
        r == st.result && idsRead == st.idsRead && itr.pos == old(itr.pos) + st.consumed
    {
      ghost var s := itr.Remaining();
      var idResult := ReadU16ChunkedErr(itr, ReaderError.EOF, MissingId);
      if idResult.Err? {
        return Err(Error(idResult.error, 0));
      }
      var id := idResult.value;
      var tagByte := itr.Next();
      if tagByte.None? {
        return Err(Error(MissingTag, id));
      }
      var size := ReadU16(itr);
      if size.None? {
        return Err(Error(MissingSize, id));
      }
      assert s[3] == itr.data[itr.pos - 2] && s[4] == itr.data[itr.pos - 1];
      var content := GetNU8s(itr, size.value);
      if content.Err? {
        return Err(Error(MissingContent(size.value, |content.error|), id));
      }
      assert content.value == s[5..5 + size.value];
      var tag := TagFromByte(tagByte.value);
      if tag.Err? {
        return Err(Error(tag.error, id));
      }
      var chunk := Read(tag.value, id, size.value, content.value);
      if chunk.Err? {
        return Err(Error(chunk.error, id));
      }
      return Ok(chunk.value);
    }
  }

  /** The wire form of a chunk: id, tag byte, size (both big-endian), content. */
  function Frame(c: Chunk): seq<u8>
  {
    [High(c.id), Low(c.id), TagByte(c.tag), High(c.size), Low(c.size)] + c.content
  }

  /** A chunk with a fresh id whose size matches its content and suits its tag
      decodes from its frame, whatever follows, pulling exactly the frame. */
  lemma DecodeFrame(idsRead: set<u16>, c: Chunk, rest: seq<u8>)
    requires c.size == |c.content| && CheckValidSize(c.tag, c.size) == None && c.id !in idsRead
    ensures Decode(idsRead, Frame(c) + rest) == Step(Ok(c), idsRead + {c.id}, 5 + c.size)
  {
    var s := Frame(c) + rest;
    SplitMerge(c.id);
    SplitMerge(c.size);
    TagFromByteInvertsTagByte(TagByte(c.tag), c.tag);
    assert s[5..5 + c.size] == c.content;
  }

  /** Conversely a successful decode returns a fresh, well-sized chunk whose
      frame is exactly the bytes it pulled, and records its id. */
  lemma DecodedChunkIsFramed(idsRead: set<u16>, s: seq<u8>)
    requires Decode(idsRead, s).result.Ok?
    ensures var st := Decode(idsRead, s); var c := st.result.value;
      && st.consumed == 5 + c.size == |Frame(c)|
      && s[..st.consumed] == Frame(c)
      && c.size == |c.content| && CheckValidSize(c.tag, c.size) == None
      && c.id !in idsRead && st.idsRead == idsRead + {c.id}
  {
    var c := Decode(idsRead, s).result.value;
    MergeSplit(s[0], s[1]);
    MergeSplit(s[3], s[4]);
    TagFromByteInvertsTagByte(s[2], c.tag);
    assert s[..5 + c.size] == s[..5] + s[5..5 + c.size];
  }

  /** No bytes left is the clean end; a single byte is a truncated id; both
      are attributed to the invalid id 0 and pull what was there. */
  lemma StreamStartTruncation(idsRead: set<u16>, b: u8)
    ensures Decode(idsRead, []) == Step(Err(Error(ReaderError.EOF, 0)), idsRead, 0)
    ensures Decode(idsRead, [b]) == Step(Err(Error(MissingId, 0)), idsRead, 1)
  {
  }

  /** Once two bytes of id are read, every error names that id, and no error
      other than a rejection after the length check records an id. */
  lemma ErrorsCarryDecodedId(idsRead: set<u16>, s: seq<u8>)
    requires |s| >= 2
    ensures var st := Decode(idsRead, s);
      st.result.Err? ==> st.result.error.chunkId == Merge2Be(s[0], s[1])
    ensures var st := Decode(idsRead, s);
      st.result.Err? && !st.result.error.kind.InvalidSizeForTag? ==> st.idsRead == idsRead
  {
  }

  /** A stream cut inside the content reports the declared and the obtained
      byte counts; this is decided before the tag byte is looked at. */
  lemma TruncatedContentBeforeTag(idsRead: set<u16>, s: seq<u8>)
    requires |s| >= 5 && |s| - 5 < Merge2Be(s[3], s[4])
    ensures Decode(idsRead, s) ==
      Step(Err(Error(MissingContent(Merge2Be(s[3], s[4]), |s| - 5), Merge2Be(s[0], s[1]))), idsRead, |s|)
  {
  }

  /** A stream cut inside the size field reports the missing size. */
  lemma TruncatedSizeIsMissingSize(idsRead: set<u16>, s: seq<u8>)
    requires 3 <= |s| < 5
    ensures Decode(idsRead, s) == Step(Err(Error(MissingSize, Merge2Be(s[0], s[1]))), idsRead, |s|)
  {
  }

  /** Two chunks sharing an id in one stream: the first decodes, the second
      is pulled whole and fails with a collision naming the id. */
  lemma RepeatedIdCollides(idsRead: set<u16>, c1: Chunk, c2: Chunk)
    requires c1.size == |c1.content| && CheckValidSize(c1.tag, c1.size) == None && c1.id !in idsRead
    requires c2.size == |c2.content| && c2.id == c1.id
    ensures var first := Decode(idsRead, Frame(c1) + Frame(c2));
      && first == Step(Ok(c1), idsRead + {c1.id}, |Frame(c1)|)
      && Decode(first.idsRead, (Frame(c1) + Frame(c2))[first.consumed..]) ==
           Step(Err(Error(IdColision(c1.id), c1.id)), first.idsRead, |Frame(c2)|)
  {
    DecodeFrame(idsRead, c1, Frame(c2));
    assert (Frame(c1) + Frame(c2))[|Frame(c1)|..] == Frame(c2) + [];
    SplitMerge(c2.id);
    SplitMerge(c2.size);
    TagFromByteInvertsTagByte(TagByte(c2.tag), c2.tag);
    assert Frame(c2)[5..5 + c2.size] == c2.content;
  }

  /** A read whose length matches records its id before the size rule is
      applied, so a chunk rejected for its size still occupies its id. */
  lemma ReadRecordsIdBeforeSizeRule(idsRead: set<u16>, tag: Tag, id: u16, size: u16, content: seq<u8>)
    requires size == |content| && id !in idsRead
    ensures var o := ReadChunk(idsRead, tag, id, size, content);
      && o.idsRead == idsRead + {id}
      && (o.result.Ok? <==> CheckValidSize(tag, size) == None)
      && (CheckValidSize(tag, size).Some? ==> o.result == Err(InvalidSizeForTag(CheckValidSize(tag, size).value)))
  {
  }

  /** A length mismatch fails first and leaves the recorded ids alone; a
      known id then collides and leaves them alone too. */
  lemma ReadRejectsMismatchThenCollision(idsRead: set<u16>, tag: Tag, id: u16, size: u16, content: seq<u8>)
    ensures size != |content| ==>
      ReadChunk(idsRead, tag, id, size, content) == ReadOutcome(Err(UnmatchedContentLen(size, |content|)), idsRead)
    ensures size == |content| && id in idsRead ==>
      ReadChunk(idsRead, tag, id, size, content) == ReadOutcome(Err(IdColision(id)), idsRead)
  {
  }

  /** A successful read returns exactly its inputs as a chunk and grows the
      recorded ids by exactly that id. */
  lemma ReadSuccess(idsRead: set<u16>, tag: Tag, id: u16, size: u16, content: seq<u8>)
    ensures var o := ReadChunk(idsRead, tag, id, size, content);
      o.result.Ok? ==> o.result.value == Chunk(tag, id, size, content) && |content| == size
                       && id !in idsRead && o.idsRead == idsRead + {id}
  {
  }

  /** The EOF tag takes only an empty payload; every other tag follows the raw rule. */
  lemma SizeRuleExtendsRaw(tag: Tag, size: u16)
    ensures tag == Tag.EOF ==> (CheckValidSize(tag, size) == None <==> size == 0)
    ensures tag != Tag.EOF ==> (CheckValidSize(tag, size) == None <==> Raw.CheckValidSize(ToRaw(tag), size) == None)
  {
  }
}
