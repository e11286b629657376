/** src/raw/reader.rs: the earlier draft of the chunk decoder. It reads the
    raw tag set (no EOF), attributes a short id to the id u16::MAX, has no
    clean end-of-stream case and reports truncated content without counts. */
module RawReader {
  import opened Wrappers
  import opened Words
  import opened Cursor
  import Raw
  import Reader

  /** The draft `Tag::try_from(u8)`: only 1..=5 are tags. */
  function TagFromByte(value: u8): Result<Raw.Tag, ReaderError>
  {
    match value
    case 1 => Ok(Raw.Int)
    case 2 => Ok(Raw.Uint)
    case 3 => Ok(Raw.String)
    case 4 => Ok(Raw.Array)
    case 5 => Ok(Raw.Map)
    case n => Err(InvalidTagValue(n))
  }

  /** The draft accepts exactly the wire values 1..=5 of the raw tags, so a
      zero byte is an invalid tag, not EOF. */
  lemma {:induction false} TagFromByteInvertsTagByte(value: u8, tag: Raw.Tag)
    ensures TagFromByte(value).Ok? <==> 1 <= value <= 5
    ensures !(1 <= value <= 5) ==> TagFromByte(value) == Err(InvalidTagValue(value))
    ensures TagFromByte(0) == Err(InvalidTagValue(0))
    ensures TagFromByte(Raw.TagByte(tag)) == Ok(tag)
    ensures TagFromByte(value) == Ok(tag) ==> Raw.TagByte(tag) == value
  {
  }

  datatype ReaderError =
    | MissingId
    | MissingSize
    | MissingTag
    | MissingContent
    | InvalidTagValue(value: u8)
    | UnmatchedContentLen(saidSize: u16, actualSize: nat)
    | IdColision(id: u16)
    | InvalidSizeForTag(sizeError: Raw.TagSizeError)

  /** A reader error attributed to a chunk id. */
  datatype Error = Error(kind: ReaderError, chunkId: u16)

  /** `wrap_err`: a missing value becomes the error e attributed to id. */
  function WrapErr<T>(m: Option<T>, e: ReaderError, id: u16): Result<T, Error>
  {
    match m
    case Some(v) => Ok(v)
    case None => Err(Error(e, id))
  }

  datatype ReadOutcome = ReadOutcome(result: Result<Raw.Chunk, ReaderError>, idsRead: set<u16>)

  /** The draft `ChunkReader::read`: length, then the id (recorded from here
      on), then the raw size rule. */
  function ReadChunk(idsRead: set<u16>, tag: Raw.Tag, id: u16, size: u16, content: seq<u8>): ReadOutcome
  {
    if size != |content| then
      ReadOutcome(Err(UnmatchedContentLen(size, |content|)), idsRead)
    else if id in idsRead then
      ReadOutcome(Err(IdColision(id)), idsRead)
    else match Raw.CheckValidSize(tag, size)
      case Some(kind) => ReadOutcome(Err(InvalidSizeForTag(kind)), idsRead + {id})
      case None => ReadOutcome(Ok(Raw.Chunk(tag, id, size, content)), idsRead + {id})
  }

  datatype Step = Step(result: Result<Raw.Chunk, Error>, idsRead: set<u16>, consumed: nat)

  /** The draft `ChunkReader::get_chunk` on the bytes left in the iterator. */
  function Decode(idsRead: set<u16>, s: seq<u8>): (st: Step)
    ensures st.consumed <= |s|
  {
    if |s| < 2 then Step(Err(Error(MissingId, 0xFFFF)), idsRead, |s|)
    else
      var id := Merge2Be(s[0], s[1]);
      if |s| == 2 then Step(Err(Error(MissingTag, id)), idsRead, 2)
      // the size field is read through `wrap_err(.., MissingTag, id)` as well
      else if |s| < 5 then Step(Err(Error(MissingTag, id)), idsRead, |s|)
      else
        var size := Merge2Be(s[3], s[4]);
        if |s| - 5 < size then Step(Err(Error(MissingContent, id)), idsRead, |s|)
        else match TagFromByte(s[2])
          case Err(e) => Step(Err(Error(e, id)), idsRead, 5 + size)
          case Ok(tag) =>
            var o := ReadChunk(idsRead, tag, id, size, s[5..5 + size]);
            match o.result
            case Err(e) => Step(Err(Error(e, id)), o.idsRead, 5 + size)
            case Ok(c) => Step(Ok(c), o.idsRead, 5 + size)
  }

  /** The draft `get_n_u8s`: the next `size` bytes in stream order, or None
      when the stream ends first (after pulling what was left). */
  method GetNU8s(itr: ByteCursor, size: u16) returns (r: Option<seq<u8>>)
    requires itr.Valid()
    modifies itr
    ensures itr.Valid()
    ensures var rest := old(itr.Remaining());
      && (size <= |rest| ==> r == Some(rest[..size]) && itr.pos == old(itr.pos) + size)
      && (size > |rest| ==> r == None && itr.pos == |itr.data|)
  {
    ghost var rest := itr.Remaining();
    var vec: seq<u8> := [];
    var n := 0;
    while n < size
      invariant 0 <= n <= size
      invariant itr.Valid()
      invariant itr.pos == old(itr.pos) + n
      invariant n <= |rest| && vec == rest[..n]
    {
      var b := itr.Next();
      if b.None? {
        return None;
      }
      vec := vec + [b.value];
      n := n + 1;
    }
    return Some(vec);
  }

  class ChunkReader {
    var idsRead: set<u16>

    constructor ()
      ensures idsRead == {}
    {
      idsRead := {};
    }

    method Read(tag: Raw.Tag, id: u16, size: u16, content: seq<u8>) returns (r: Result<Raw.Chunk, ReaderError>)
      modifies this
      ensures ReadOutcome(r, idsRead) == ReadChunk(old(idsRead), tag, id, size, content)
    {
      if size != |content| {
        return Err(UnmatchedContentLen(size, |content|));
      }
      var inserted := id !in idsRead;
      idsRead := idsRead + {id};
      if !inserted {
        return Err(IdColision(id));
      }
      var kind := Raw.CheckValidSize(tag, size);
      if kind.Some? {
        return Err(InvalidSizeForTag(kind.value));
      }
      return Ok(Raw.Chunk(tag, id, size, content));
    }

    method GetChunk(itr: ByteCursor) returns (r: Result<Raw.Chunk, Error>)
      requires itr.Valid()
      modifies this, itr
      ensures itr.Valid()
      ensures var st := Decode(old(idsRead), old(itr.Remaining()));
        r == st.result && idsRead == st.idsRead && itr.pos == old(itr.pos) + st.consumed
    {
      ghost var s := itr.Remaining();
      var idField := Reader.ReadU16(itr);
      if idField.None? {
        return Err(Error(MissingId, 0xFFFF));
      }
      var id := idField.value;
      var tagByte := itr.Next();
      var tagWrapped := WrapErr(tagByte, MissingTag, id);
      if tagWrapped.Err? {
        return Err(tagWrapped.error);
      }
      var sizeField := Reader.ReadU16(itr);
      var size := WrapErr(sizeField, MissingTag, id);
      if size.Err? {
        return Err(size.error);
      }
      assert s[3] == itr.data[itr.pos - 2] && s[4] == itr.data[itr.pos - 1];
      var content := GetNU8s(itr, size.value);
      if content.None? {
        return Err(Error(MissingContent, id));
      }
      assert content.value == s[5..5 + size.value];
      var tag := TagFromByte(tagWrapped.value);
      if tag.Err? {
        return Err(Error(tag.error, id));
      }
      var chunk := Read(tag.value, id, size.value, content.value);
      if chunk.Err? {
        return Err(Error(chunk.error, id));
      }
      return Ok(chunk.value);
    }
  }

  /** Fewer than two bytes is always a missing id attributed to u16::MAX:
      the draft has no clean end of stream. */
  lemma ShortIdIsMissingId(idsRead: set<u16>, s: seq<u8>)
    requires |s| < 2
    ensures Decode(idsRead, s) == Step(Err(Error(MissingId, 0xFFFF)), idsRead, |s|)
  {
  }

  /** Once two bytes of id are read, every error names that id (`wrap_err`
      and the final `into_error`). */
  lemma ErrorsCarryDecodedId(idsRead: set<u16>, s: seq<u8>)
    requires |s| >= 2
    ensures var st := Decode(idsRead, s);
      st.result.Err? ==> st.result.error.chunkId == Merge2Be(s[0], s[1])
  {
  }

  /** A stream cut inside the content fails with MissingContent, before the
      tag byte is looked at, after pulling every byte left. */
  lemma TruncatedContentBeforeTag(idsRead: set<u16>, s: seq<u8>)
    requires |s| >= 5 && |s| - 5 < Merge2Be(s[3], s[4])
    ensures Decode(idsRead, s) == Step(Err(Error(MissingContent, Merge2Be(s[0], s[1]))), idsRead, |s|)
  {
  }

  /** As written, a stream cut inside the size field is reported as a missing
      tag, so the answer no longer tells a cut after the id from a cut after
      the tag: [0, 1] and [0, 1, 3] both fail with MissingTag for chunk 1. */
  lemma TruncatedSizeIsMissingTag(idsRead: set<u16>, s: seq<u8>)
    requires 3 <= |s| < 5
    ensures Decode(idsRead, s) == Step(Err(Error(MissingTag, Merge2Be(s[0], s[1]))), idsRead, |s|)
    ensures Decode(idsRead, [0, 1]).result == Decode(idsRead, [0, 1, 3]).result == Err(Error(MissingTag, 1))
  {
  }

  /** A chunk with a fresh id whose size matches its content and suits its tag
      decodes from its frame, whatever follows, pulling exactly the frame. */
  lemma DecodeFrame(idsRead: set<u16>, c: Raw.Chunk, rest: seq<u8>)
    requires c.size == |c.content| && Raw.CheckValidSize(c.tag, c.size) == None && c.id !in idsRead
    ensures var frame := [High(c.id), Low(c.id), Raw.TagByte(c.tag), High(c.size), Low(c.size)] + c.content;
      Decode(idsRead, frame + rest) == Step(Ok(c), idsRead + {c.id}, 5 + c.size)
  {
    var s := [High(c.id), Low(c.id), Raw.TagByte(c.tag), High(c.size), Low(c.size)] + c.content + rest;
    SplitMerge(c.id);
    SplitMerge(c.size);
    TagFromByteInvertsTagByte(Raw.TagByte(c.tag), c.tag);
    assert s[5..5 + c.size] == c.content;
  }

  /** Same order as the current reader: length, then collision, then size
      rule, with the id recorded before the size rule is applied. */
  lemma ReadChecksInOrder(idsRead: set<u16>, tag: Raw.Tag, id: u16, size: u16, content: seq<u8>)
    ensures var o := ReadChunk(idsRead, tag, id, size, content);
      && (size != |content| ==> o == ReadOutcome(Err(UnmatchedContentLen(size, |content|)), idsRead))
      && (size == |content| && id in idsRead ==> o == ReadOutcome(Err(IdColision(id)), idsRead))
      && (size == |content| ==> o.idsRead == idsRead + {id})
      && (o.result.Ok? <==> size == |content| && id !in idsRead && Raw.CheckValidSize(tag, size) == None)
      && (o.result.Ok? ==> o.result.value == Raw.Chunk(tag, id, size, content))
  {
  }
}
