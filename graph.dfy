/** src/graph.rs: the resolver. A pool of decoded chunks keyed by id; taking
    a chunk out of the pool turns it into a typed piece. Integers are folded
    big-endian, arrays become id lists, and maps resolve each key chunk on
    the spot while their values stay ids. */
module Graph {
  import opened Wrappers
  import opened Words
  import Raw
  import Utf8

  datatype PieceContent =
    | PStr(s: string)
    | PInt(i: i64)
    | PUint(u: u64)
    | PArray(ids: seq<u16>)
    | PMap(entries: seq<(PieceKey, u16)>)

  /** The scalar pieces, the only ones usable as map keys. */
  datatype PieceKey =
    | PStr(s: string)
    | PInt(i: i64)
    | PUint(u: u64)

  datatype Piece = Piece(id: u16, tag: Raw.Tag, content: PieceContent)

  datatype ParseContentError =
    | StringParse
    | ChunkNotFound(id: u16)
    | PieceCantBeKey(id: u16, tag: Raw.Tag)

  /** A key as the piece content it came from. */
  function KeyContent(k: PieceKey): PieceContent
  {
    match k
    case PStr(s) => PieceContent.PStr(s)
    case PInt(i) => PieceContent.PInt(i)
    case PUint(u) => PieceContent.PUint(u)
  }

  /** `Piece::into_key`: scalar pieces become keys, composite ones are refused
      with their own id and tag. */
  function IntoKey(p: Piece): (r: Result<PieceKey, ParseContentError>)
    ensures r.Ok? <==> !p.content.PArray? && !p.content.PMap?
    ensures r.Ok? ==> KeyContent(r.value) == p.content
    ensures r.Err? ==> r.error == PieceCantBeKey(p.id, p.tag)
  {
    match p.content
    case PStr(s) => Ok(PieceKey.PStr(s))
    case PInt(i) => Ok(PieceKey.PInt(i))
    case PUint(u) => Ok(PieceKey.PUint(u))
    case PMap(_) => Err(PieceCantBeKey(p.id, p.tag))
    case PArray(_) => Err(PieceCantBeKey(p.id, p.tag))
  }

  // ---------------------------------------------------------------------
  // Integer folds

  /** The unbounded big-endian value of a byte string. */
  function BigEndian(bytes: seq<u8>): nat
  {
    if bytes == [] then 0 else BigEndian(bytes[..|bytes| - 1]) * 256 + bytes[|bytes| - 1]
  }

  function BytePower(n: nat): nat
  {
    if n == 0 then 1 else 256 * BytePower(n - 1)
  }

  /** `s << 8` on a u64: the bits shifted out at the top are lost. */
  function Shl8U64(s: u64): u64
  {
    (s * 256) % 0x1_0000_0000_0000_0000
  }

  /** The i64 with the same 64-bit pattern as a u64 (`as i64`) and back (`as u64`). */
  function ToSigned(u: u64): i64
  {
    if u < 0x8000_0000_0000_0000 then u else u - 0x1_0000_0000_0000_0000
  }

  function ToUnsigned(v: i64): u64
  {
    if v < 0 then v + 0x1_0000_0000_0000_0000 else v
  }

  /** `s << 8` on an i64 shifts the bit pattern, so the sign can flip. */
  function Shl8I64(s: i64): i64
  {
    ToSigned(Shl8U64(ToUnsigned(s)))
  }

  lemma ModOfMultiplePlus(q: int, t: int)
    requires 0 <= t < 0x1_0000_0000_0000_0000
    ensures (q * 0x1_0000_0000_0000_0000 + t) % 0x1_0000_0000_0000_0000 == t
  {
  }

  /** Shifting a byte into the low end of a value reduced mod 2^64 is the
      same as shifting into the unbounded value and reducing afterwards; the
      shift leaves the low byte clear, so adding the byte cannot carry out. */
  lemma ShiftInByte(x: nat, n: u8)
    ensures Shl8U64(x % 0x1_0000_0000_0000_0000) % 256 == 0
    ensures Shl8U64(x % 0x1_0000_0000_0000_0000) + n == (x * 256 + n) % 0x1_0000_0000_0000_0000
  {
    var r := x % 0x1_0000_0000_0000_0000;
    var c := r % 0x100_0000_0000_0000;
    var a := r / 0x100_0000_0000_0000;
    assert r * 256 == a * 0x1_0000_0000_0000_0000 + c * 256;
    ModOfMultiplePlus(a, c * 256);
    var q := x / 0x1_0000_0000_0000_0000;
    assert x * 256 + n == (q * 256 + a) * 0x1_0000_0000_0000_0000 + (c * 256 + n);
    ModOfMultiplePlus(q * 256 + a, c * 256 + n);
  }

  /** `make_uint`: the big-endian fold `(s << 8) + n` over the content in u64,
      which is the big-endian value modulo 2^64. */
  function MakeUint(content: seq<u8>): (r: u64)
    ensures r == BigEndian(content) % 0x1_0000_0000_0000_0000
  {
    if content == [] then 0
    else
      var prefix := content[..|content| - 1];
      var n := content[|content| - 1];
      ShiftInByte(BigEndian(prefix), n);
      Shl8U64(MakeUint(prefix)) + n
  }

  /** The i64 fold step `(s << 8) + n` stays in range and keeps the bit
      pattern of the u64 step. */
  lemma SignedShiftAdd(s: i64, n: u8)
    ensures -0x8000_0000_0000_0000 <= Shl8I64(s) + n < 0x8000_0000_0000_0000
    ensures ToUnsigned(Shl8I64(s) + n) == Shl8U64(ToUnsigned(s)) + n
  {
    var u := ToUnsigned(s);
    ShiftInByte(u, n);
    assert u % 0x1_0000_0000_0000_0000 == u;
  }

  /** `make_int`: the same fold in i64. There is no sign extension: the
      result has the bit pattern of the unsigned fold. */
  function MakeInt(content: seq<u8>): (r: i64)
    ensures ToUnsigned(r) == MakeUint(content)
  {
    if content == [] then 0
    else
      var prefix := content[..|content| - 1];
      var n := content[|content| - 1];
      SignedShiftAdd(MakeInt(prefix), n);
      Shl8I64(MakeInt(prefix)) + n
  }

  lemma {:induction false} BigEndianBound(bytes: seq<u8>)
    ensures BigEndian(bytes) < BytePower(|bytes|)
  {
    if bytes != [] {
      BigEndianBound(bytes[..|bytes| - 1]);
    }
  }

  /** An Int is the unsigned fold reinterpreted as i64 ... */
  lemma MakeIntReinterpretsFold(content: seq<u8>)
    ensures MakeInt(content) == ToSigned(BigEndian(content) % 0x1_0000_0000_0000_0000)
  {
  }

  /** ... so content shorter than eight bytes is never negative: [0xFF] is
      255, not -1. */
  lemma {:induction false} ShortIntIsNotSignExtended(content: seq<u8>)
    requires |content| < 8
    ensures MakeInt(content) == BigEndian(content) >= 0
  {
    var x := BigEndian(content);
    BigEndianBound(content);
    BytePowerGrows(|content|, 7);
    BytePowerSeven();
    assert x < 0x8000_0000_0000_0000;
    assert x % 0x1_0000_0000_0000_0000 == x;
    MakeIntReinterpretsFold(content);
  }

  lemma BytePowerSeven()
    ensures BytePower(7) == 0x100_0000_0000_0000
  {
    assert BytePower(1) == 0x100;
    assert BytePower(2) == 0x1_0000;
    assert BytePower(3) == 0x100_0000;
    assert BytePower(4) == 0x1_0000_0000;
    assert BytePower(5) == 0x100_0000_0000;
    assert BytePower(6) == 0x1_0000_0000_0000;
  }

  lemma {:induction false} BytePowerGrows(j: nat, k: nat)
    requires j <= k
    ensures BytePower(j) <= BytePower(k)
  {
    if j < k {
      BytePowerGrows(j, k - 1);
    }
  }

  // ---------------------------------------------------------------------
  // Array content

  /** The array content `chunks_exact(2)` as big-endian ids; a trailing odd
      byte is dropped. */
  function ArrayIds(content: seq<u8>): (ids: seq<u16>)
    ensures |ids| == |content| / 2
    ensures forall i :: 0 <= i < |ids| ==> ids[i] == Merge2Be(content[2 * i], content[2 * i + 1])
  {
    if |content| < 2 then [] else [Merge2Be(content[0], content[1])] + ArrayIds(content[2..])
  }

  // ---------------------------------------------------------------------
  // The pool and its specification

  type Pool = map<u16, Raw.Chunk>

  /** The pool only lost entries; those left are unchanged. */
  ghost predicate Shrinks(after: Pool, before: Pool)
  {
    after.Keys <= before.Keys && forall k :: k in after ==> after[k] == before[k]
  }

  lemma ShrinkCard(after: Pool, before: Pool)
    requires after.Keys <= before.Keys
    ensures |after| <= |before|
  {
    assert |after.Keys| <= |before.Keys| by {
      SubsetCard(after.Keys, before.Keys);
    }
  }

  lemma {:induction false} SubsetCard(a: set<u16>, b: set<u16>)
    requires a <= b
    ensures |a| <= |b|
    decreases |b|
  {
    if a != {} {
      var x :| x in a;
      SubsetCard(a - {x}, b - {x});
    }
  }

  /** The result of an operation on the pool and the pool it leaves. */
  datatype Eval<T> = Eval(result: Result<T, ParseContentError>, pool: Pool)

  function Prepend(entries: seq<(PieceKey, u16)>, e: Eval<seq<(PieceKey, u16)>>): Eval<seq<(PieceKey, u16)>>
  {
    match e.result
    case Ok(rest) => Eval(Ok(entries + rest), e.pool)
    case Err(_) => e
  }

  lemma PrependNothing(e: Eval<seq<(PieceKey, u16)>>)
    ensures Prepend([], e) == e
  {
    if e.result.Ok? {
      assert [] + e.result.value == e.result.value;
    }
  }

  lemma PrependTwice(entries: seq<(PieceKey, u16)>, entry: (PieceKey, u16), e: Eval<seq<(PieceKey, u16)>>)
    ensures Prepend(entries, Prepend([entry], e)) == Prepend(entries + [entry], e)
  {
    if e.result.Ok? {
      assert entries + ([entry] + e.result.value) == entries + [entry] + e.result.value;
    }
  }

  /** `eval_chunk_id`: take the chunk out of the pool, then convert it. */
  function Materialize(pool: Pool, id: u16): (e: Eval<Piece>)
    ensures Shrinks(e.pool, pool) && id !in e.pool
    decreases |pool|, 0, 0
  {
    if id !in pool then Eval(Err(ChunkNotFound(id)), pool)
    else
      var rest := pool - {id};
      assert |rest| < |pool| by {
        assert rest.Keys + {id} == pool.Keys;
      }
      Convert(rest, pool[id])
  }

  /** `eval_chunk`: convert a chunk by its tag; the piece keeps the chunk's
      own id and tag. */
  function Convert(pool: Pool, c: Raw.Chunk): (e: Eval<Piece>)
    ensures Shrinks(e.pool, pool)
    ensures e.result.Ok? ==> e.result.value.id == c.id && e.result.value.tag == c.tag
    decreases |pool|, 2, 0
  {
    match c.tag
    case Int => Eval(Ok(Piece(c.id, c.tag, PieceContent.PInt(MakeInt(c.content)))), pool)
    case Uint => Eval(Ok(Piece(c.id, c.tag, PieceContent.PUint(MakeUint(c.content)))), pool)
    case String =>
      (match Utf8.Decode(c.content)
       case None => Eval(Err(StringParse), pool)
       case Some(s) => Eval(Ok(Piece(c.id, c.tag, PieceContent.PStr(s))), pool))
    case Array => Eval(Ok(Piece(c.id, c.tag, PieceContent.PArray(ArrayIds(c.content)))), pool)
    case Map =>
      var records := ConvertRecords(pool, c.content, 0);
      match records.result
      case Err(err) => Eval(Err(err), records.pool)
      case Ok(entries) => Eval(Ok(Piece(c.id, c.tag, PieceContent.PMap(entries))), records.pool)
  }

  /** The map records from byte offset i on (`chunks_exact(4)`), each key
      materialized at once; the first failure ends the map. */
  function ConvertRecords(pool: Pool, content: seq<u8>, i: nat): (e: Eval<seq<(PieceKey, u16)>>)
    ensures Shrinks(e.pool, pool)
    decreases |pool|, 1, |content| - i
  {
    if i + 4 > |content| then Eval(Ok([]), pool)
    else
      var k := Merge2Be(content[i], content[i + 1]);
      var v := Merge2Be(content[i + 2], content[i + 3]);
      var key := Materialize(pool, k);
      match key.result
      case Err(err) => Eval(Err(err), key.pool)
      case Ok(p) =>
        match IntoKey(p)
        case Err(err) => Eval(Err(err), key.pool)
        case Ok(pk) =>
          ShrinkCard(key.pool, pool);
          Prepend([(pk, v)], ConvertRecords(key.pool, content, i + 4))
  }

  /** `PieceManager::new`: the pool of the given chunks keyed by their ids;
      with a repeated id the later chunk wins, as in `collect`. */
  function PoolOf(chunks: seq<Raw.Chunk>): (pool: Pool)
    ensures pool.Keys == set c | c in chunks :: c.id
    ensures forall k :: k in pool ==> pool[k].id == k
  {
    if chunks == [] then map[]
    else
      var last := chunks[|chunks| - 1];
      var before := PoolOf(chunks[..|chunks| - 1]);
      assert chunks == chunks[..|chunks| - 1] + [last];
      before[last.id := last]
  }

  class PieceManager {
    var chunks: Pool

    constructor (cs: seq<Raw.Chunk>)
      ensures chunks == PoolOf(cs)
    {
      chunks := PoolOf(cs);
    }

    /** `eval_first`: the document root is chunk 1. */
    method EvalFirst() returns (r: Result<Piece, ParseContentError>)
      modifies this
      ensures var e := Materialize(old(chunks), 1); r == e.result && chunks == e.pool
    {
      r := EvalChunkId(1);
    }

    method EvalChunkId(chunkId: u16) returns (r: Result<Piece, ParseContentError>)
      modifies this
      ensures var e := Materialize(old(chunks), chunkId); r == e.result && chunks == e.pool
      decreases |chunks|, 0
    {
      if chunkId !in chunks {
        return Err(ChunkNotFound(chunkId));
      }
      var x := chunks[chunkId];
      chunks := chunks - {chunkId};
      assert chunks.Keys + {chunkId} == old(chunks).Keys;
      r := EvalChunk(x);
    }

    method EvalChunk(c: Raw.Chunk) returns (r: Result<Piece, ParseContentError>)
      modifies this
      ensures var e := Convert(old(chunks), c); r == e.result && chunks == e.pool
      decreases |chunks|, 1
    {
      match c.tag {
        case Int =>
          r := Ok(Piece(c.id, c.tag, PieceContent.PInt(MakeInt(c.content))));
        case Uint =>
          r := Ok(Piece(c.id, c.tag, PieceContent.PUint(MakeUint(c.content))));
        case String =>
          var s := Utf8.Decode(c.content);
          if s.None? {
            return Err(StringParse);
          }
          r := Ok(Piece(c.id, c.tag, PieceContent.PStr(s.value)));
        case Array =>
          r := Ok(Piece(c.id, c.tag, PieceContent.PArray(ArrayIds(c.content))));
        case Map =>
          var entries: seq<(PieceKey, u16)> := [];
          var i := 0;
          PrependNothing(ConvertRecords(chunks, c.content, 0));
          while i + 4 <= |c.content|
            invariant i <= |c.content|
            invariant Shrinks(chunks, old(chunks))
            invariant ConvertRecords(old(chunks), c.content, 0) == Prepend(entries, ConvertRecords(chunks, c.content, i))
            decreases |c.content| - i
          {
            var k := Merge2Be(c.content[i], c.content[i + 1]);
            var v := Merge2Be(c.content[i + 2], c.content[i + 3]);
            ShrinkCard(chunks, old(chunks));
            var piece := EvalChunkId(k);
            if piece.Err? {
              return Err(piece.error);
            }
            var key := IntoKey(piece.value);
            if key.Err? {
              return Err(key.error);
            }
            PrependTwice(entries, (key.value, v), ConvertRecords(chunks, c.content, i + 4));
            entries := entries + [(key.value, v)];
            i := i + 4;
          }
          assert entries + [] == entries;
          r := Ok(Piece(c.id, c.tag, PieceContent.PMap(entries)));
      }
    }
  }

  // ---------------------------------------------------------------------
  // Properties of the resolver

  /** An id that is not in the pool, never there or already taken, fails as
      not found and leaves the pool alone; in particular the second
      materialization of an id fails even though the first found it. */
  lemma SecondMaterializeNotFound(pool: Pool, id: u16)
    ensures id !in pool ==> Materialize(pool, id) == Eval(Err(ChunkNotFound(id)), pool)
    ensures var first := Materialize(pool, id);
      Materialize(first.pool, id) == Eval(Err(ChunkNotFound(id)), first.pool)
  {
  }

  /** The pool left after materializing each of a list of ids in turn. */
  function PoolAfter(pool: Pool, ids: seq<u16>): Pool
  {
    if ids == [] then pool else PoolAfter(Materialize(pool, ids[0]).pool, ids[1..])
  }

  /** A chunk is materialized at most once: after its id has been taken, no
      sequence of further materializations brings it back. */
  lemma {:induction false} AtMostOnce(pool: Pool, id: u16, later: seq<u16>)
    ensures var after := PoolAfter(Materialize(pool, id).pool, later);
      Materialize(after, id) == Eval(Err(ChunkNotFound(id)), after)
  {
    GoneStaysGone(Materialize(pool, id).pool, id, later);
  }

  lemma {:induction false} GoneStaysGone(pool: Pool, id: u16, later: seq<u16>)
    requires id !in pool
    ensures id !in PoolAfter(pool, later)
  {
    if later != [] {
      GoneStaysGone(Materialize(pool, later[0]).pool, id, later[1..]);
    }
  }

  /** Scalars and arrays take exactly their own entry out of the pool, even
      when the conversion fails, and convert as their tag says. */
  lemma LeafConversion(pool: Pool, id: u16)
    requires id in pool && pool[id].tag != Raw.Map
    ensures var c := pool[id]; var e := Materialize(pool, id);
      && e.pool == pool - {id}
      && (c.tag == Raw.Int ==> e.result == Ok(Piece(c.id, c.tag, PieceContent.PInt(MakeInt(c.content)))))
      && (c.tag == Raw.Uint ==> e.result == Ok(Piece(c.id, c.tag, PieceContent.PUint(MakeUint(c.content)))))
      && (c.tag == Raw.Array ==> e.result == Ok(Piece(c.id, c.tag, PieceContent.PArray(ArrayIds(c.content)))))
      && (c.tag == Raw.String ==>
            e.result == if Utf8.Decode(c.content).Some?
                        then Ok(Piece(c.id, c.tag, PieceContent.PStr(Utf8.Decode(c.content).value)))
                        else Err(StringParse))
  {
  }

  /** A map whose first key names the map itself fails as not found: the map
      left the pool before its keys were resolved. */
  lemma MapNamingItselfNotFound(pool: Pool, id: u16)
    requires id in pool && pool[id].tag == Raw.Map
    requires |pool[id].content| >= 4 && Merge2Be(pool[id].content[0], pool[id].content[1]) == id
    ensures Materialize(pool, id) == Eval(Err(ChunkNotFound(id)), pool - {id})
  {
    var rest := pool - {id};
    assert Materialize(rest, id) == Eval(Err(ChunkNotFound(id)), rest);
    assert ConvertRecords(rest, pool[id].content, 0) == Eval(Err(ChunkNotFound(id)), rest);
  }

  /** A map whose first key resolves to an array or a map fails with
      PieceCantBeKey naming that key chunk's id and tag, and both chunks are
      gone from the pool. */
  lemma CompositeKeyRejected(pool: Pool, c: Raw.Chunk)
    requires c.tag == Raw.Map && |c.content| >= 4
    requires var k := Merge2Be(c.content[0], c.content[1]);
      var key := Materialize(pool, k);
      key.result.Ok? && (key.result.value.content.PArray? || key.result.value.content.PMap?)
    ensures var k := Merge2Be(c.content[0], c.content[1]);
      var key := Materialize(pool, k);
      Convert(pool, c) == Eval(Err(PieceCantBeKey(key.result.value.id, key.result.value.tag)), key.pool)
  {
  }

  /** In particular an array chunk is never a key. */
  lemma ArrayKeyRejected(pool: Pool, c: Raw.Chunk)
    requires c.tag == Raw.Map && |c.content| >= 4
    requires var k := Merge2Be(c.content[0], c.content[1]);
      k in pool && pool[k].tag == Raw.Array
    ensures var k := Merge2Be(c.content[0], c.content[1]);
      Convert(pool, c) == Eval(Err(PieceCantBeKey(pool[k].id, Raw.Array)), pool - {k})
  {
    var k := Merge2Be(c.content[0], c.content[1]);
    assert Materialize(pool, k) == Convert(pool - {k}, pool[k]);
    assert Materialize(pool, k).result == Ok(Piece(pool[k].id, Raw.Array, PieceContent.PArray(ArrayIds(pool[k].content))));
    CompositeKeyRejected(pool, c);
  }

  /** The record at byte offset i: a key that fails to resolve ends the whole
      map with that error; a key that resolves to an array or a map ends it
      with PieceCantBeKey; a key that resolves to a scalar contributes the
      entry (that key, the record's value id) in front of the records after
      it, converted in the pool the key left behind. */
  lemma RecordOutcome(pool: Pool, content: seq<u8>, i: nat)
    requires i + 4 <= |content|
    ensures var k := Merge2Be(content[i], content[i + 1]);
      var key := Materialize(pool, k);
      key.result.Err? ==> ConvertRecords(pool, content, i) == Eval(Err(key.result.error), key.pool)
    ensures var k := Merge2Be(content[i], content[i + 1]);
      var key := Materialize(pool, k);
      key.result.Ok? && IntoKey(key.result.value).Err? ==>
        ConvertRecords(pool, content, i) == Eval(Err(IntoKey(key.result.value).error), key.pool)
    ensures var k := Merge2Be(content[i], content[i + 1]);
      var key := Materialize(pool, k);
      key.result.Ok? && IntoKey(key.result.value).Ok? ==>
        ConvertRecords(pool, content, i) ==
          Prepend([(IntoKey(key.result.value).value, Merge2Be(content[i + 2], content[i + 3]))],
                  ConvertRecords(key.pool, content, i + 4))
    ensures var k := Merge2Be(content[i], content[i + 1]);
      var key := Materialize(pool, k);
      var e := ConvertRecords(pool, content, i);
      e.result.Ok? ==> key.result.Ok? && KeyContent(e.result.value[0].0) == key.result.value.content
  {
  }

  /** A map of one record whose key is a Uint chunk resolves to that key,
      decoded, paired with the unresolved value id; both chunks leave the
      pool. */
  lemma ScalarKeyedMap()
    ensures var key := Raw.Chunk(Raw.Uint, 2, 1, [7]);
      var m := Raw.Chunk(Raw.Map, 1, 4, [0, 2, 0, 3]);
      Materialize(map[1 := m, 2 := key], 1)
        == Eval(Ok(Piece(1, Raw.Map, PieceContent.PMap([(PieceKey.PUint(7), 3)]))), map[])
  {
    var key := Raw.Chunk(Raw.Uint, 2, 1, [7]);
    var m := Raw.Chunk(Raw.Map, 1, 4, [0, 2, 0, 3]);
    var pool := map[1 := m, 2 := key];
    assert pool - {1} == map[2 := key];
    assert map[2 := key] - {2} == map[];
    assert Merge2Be(0, 2) == 2 && Merge2Be(0, 3) == 3;
    assert MakeUint([7]) == 7 by {
      assert [7][..0] == [];
    }
    assert Materialize(map[2 := key], 2) == Eval(Ok(Piece(2, Raw.Uint, PieceContent.PUint(7))), map[]);
    var piece := Piece(2, Raw.Uint, PieceContent.PUint(7));
    assert IntoKey(piece) == Ok(PieceKey.PUint(7));
    RecordOutcome(map[2 := key], m.content, 0);
    assert ConvertRecords(map[], m.content, 4) == Eval(Ok([]), map[]);
    assert [(PieceKey.PUint(7), 3 as u16)] + [] == [(PieceKey.PUint(7), 3)];
    assert ConvertRecords(map[2 := key], m.content, 0) == Eval(Ok([(PieceKey.PUint(7), 3)]), map[]);
  }

  /** A map that resolves has one entry per whole 4-byte record, in order,
      whose values are the records' value ids, left unresolved. */
  lemma {:induction false} MapValuesInOrder(pool: Pool, content: seq<u8>, i: nat)
    requires ConvertRecords(pool, content, i).result.Ok?
    ensures var entries := ConvertRecords(pool, content, i).result.value;
      && |entries| == (if i + 4 > |content| then 0 else (|content| - i) / 4)
      && forall j :: 0 <= j < |entries| ==>
           entries[j].1 == Merge2Be(content[i + 4 * j + 2], content[i + 4 * j + 3])
    decreases |content| - i
  {
    if i + 4 <= |content| {
      var k := Merge2Be(content[i], content[i + 1]);
      var key := Materialize(pool, k);
      var rest := ConvertRecords(key.pool, content, i + 4);
      MapValuesInOrder(key.pool, content, i + 4);
      var entries := ConvertRecords(pool, content, i).result.value;
      assert entries[1..] == rest.result.value;
      forall j | 0 <= j < |entries|
        ensures entries[j].1 == Merge2Be(content[i + 4 * j + 2], content[i + 4 * j + 3])
      {
        if j > 0 {
          assert entries[j] == rest.result.value[j - 1];
        }
      }
    }
  }

  /** Every entry of the pool is one of the given chunks. */
  lemma {:induction false} PoolOfEntriesFromChunks(chunks: seq<Raw.Chunk>)
    ensures forall k :: k in PoolOf(chunks) ==> PoolOf(chunks)[k] in chunks
  {
    if chunks != [] {
      var init := chunks[..|chunks| - 1];
      var last := chunks[|chunks| - 1];
      PoolOfEntriesFromChunks(init);
      forall k | k in PoolOf(chunks)
        ensures PoolOf(chunks)[k] in chunks
      {
        if k != last.id {
          var j :| 0 <= j < |init| && init[j] == PoolOf(init)[k];
          assert chunks[j] == init[j];
        }
      }
    }
  }

  /** With distinct ids every chunk sits in the pool under its own id. */
  lemma PoolOfDistinct(chunks: seq<Raw.Chunk>)
    requires forall i, j :: 0 <= i < j < |chunks| ==> chunks[i].id != chunks[j].id
    ensures forall i :: 0 <= i < |chunks| ==> chunks[i].id in PoolOf(chunks) && PoolOf(chunks)[chunks[i].id] == chunks[i]
  {
    forall i | 0 <= i < |chunks|
      ensures chunks[i].id in PoolOf(chunks) && PoolOf(chunks)[chunks[i].id] == chunks[i]
    {
      PoolOfDistinctAt(chunks, i);
    }
  }

  /** One chunk of PoolOfDistinct, by induction on the chunks after it. */
  lemma {:induction false} PoolOfDistinctAt(chunks: seq<Raw.Chunk>, i: nat)
    requires forall a, b :: 0 <= a < b < |chunks| ==> chunks[a].id != chunks[b].id
    requires i < |chunks|
    ensures chunks[i].id in PoolOf(chunks) && PoolOf(chunks)[chunks[i].id] == chunks[i]
    decreases |chunks|
  {
    var n := |chunks| - 1;
    if i == n {
      PoolOfLast(chunks);
    } else {
      var init := chunks[..n];
      forall a, b | 0 <= a < b < |init|
        ensures init[a].id != init[b].id
      {
        assert init[a] == chunks[a] && init[b] == chunks[b];
      }
      PoolOfDistinctAt(init, i);
      assert init[i] == chunks[i];
      PoolOfOther(chunks, chunks[i].id);
    }
  }

  /** The last chunk is the one stored under its id. */
  lemma PoolOfLast(chunks: seq<Raw.Chunk>)
    requires chunks != []
    ensures chunks[|chunks| - 1].id in PoolOf(chunks)
    ensures PoolOf(chunks)[chunks[|chunks| - 1].id] == chunks[|chunks| - 1]
  {
  }

  /** Any other id is looked up as without the last chunk. */
  lemma PoolOfOther(chunks: seq<Raw.Chunk>, k: u16)
    requires chunks != [] && k != chunks[|chunks| - 1].id
    requires k in PoolOf(chunks[..|chunks| - 1])
    ensures k in PoolOf(chunks) && PoolOf(chunks)[k] == PoolOf(chunks[..|chunks| - 1])[k]
  {
  }

  /** The four bytes [0, 0, 0, 100] are 100 both as Uint and as Int; the one
      byte 0xFF is 255 as Int. */
  lemma IntegerExamples()
    ensures MakeUint([0, 0, 0, 100]) == 100
    ensures MakeInt([0, 0, 0, 100]) == 100
    ensures MakeInt([0xFF]) == 255
  {
    var c: seq<u8> := [0, 0, 0, 100];
    assert c[..3] == [0, 0, 0] && [0, 0, 0][..2] == [0, 0] && [0, 0][..1] == [0] && [0][..0] == [];
    ShortIntIsNotSignExtended(c);
    var ff: seq<u8> := [0xFF];
    assert ff[..0] == [];
    ShortIntIsNotSignExtended(ff);
  }
}
