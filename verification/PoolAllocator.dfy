/**
 The pool allocator of rapidjson (3rd_party/rapidjson/allocators.h:113-279): blocks are cut from the
 head of a list of chunks; only the last one can grow in place. Addresses are numbers, and a new
 chunk lies wherever the base allocator puts it.
 */
module PoolAllocator {
  import opened Wrappers
  import opened BitStream

  /** sizeof(ChunkHeader), already a multiple of eight. */
  const Header: nat := 24

  function Align(size: nat): (r: nat)
    ensures size <= r < size + 8 && r % 8 == 0
    ensures size % 8 == 0 ==> r == size
  {
    (size + 7) / 8 * 8
  }

  /** A chunk at address base: its header, then `capacity` bytes of which `size` are in use. */
  datatype Chunk = Chunk(base: nat, capacity: nat, size: nat)

  function Data(c: Chunk): nat {
    c.base + Header
  }

  function End(c: Chunk): nat {
    Data(c) + c.size
  }

  predicate Apart(a: Chunk, b: Chunk) {
    Data(a) + a.capacity <= b.base || Data(b) + b.capacity <= a.base
  }

  predicate Overlap(p: nat, n: nat, q: nat, m: nat) {
    p < q + m && q < p + n
  }

  /** Block p of n bytes lies in the used part of a chunk. */
  predicate InChunk(c: Chunk, p: nat, n: nat) {
    Data(c) <= p && p + n <= End(c)
  }

  ghost predicate Inside(chunks: seq<Chunk>, p: nat, n: nat) {
    exists k: nat :: k < |chunks| && InChunk(chunks[k], p, n)
  }

  ghost predicate ChunkPair(chunks: seq<Chunk>, i: nat, j: nat) {
    i < j < |chunks| ==> Apart(chunks[i], chunks[j])
  }

  ghost predicate ChunksOk(chunks: seq<Chunk>) {
    && (forall k: nat :: k < |chunks| ==> chunks[k].size <= chunks[k].capacity)
    && (forall i: nat, j: nat :: ChunkPair(chunks, i, j))
  }

  ghost predicate LiveInside(chunks: seq<Chunk>, live: map<nat, nat>, p: nat) {
    p in live ==> live[p] > 0 && Inside(chunks, p, live[p])
  }

  ghost predicate Separate(live: map<nat, nat>, p: nat, q: nat) {
    p in live && q in live && p != q ==> !Overlap(p, live[p], q, live[q])
  }

  /** Live blocks lie inside chunks and do not overlap. */
  ghost predicate BlocksOk(chunks: seq<Chunk>, live: map<nat, nat>) {
    (forall p :: LiveInside(chunks, live, p)) && forall p, q :: Separate(live, p, q)
  }

  /** The bytes of live blocks are as before. */
  ghost predicate Kept(live: map<nat, nat>, mem: map<nat, byte>, mem': map<nat, byte>) {
    forall p :: p in live ==> BlockKept(mem, mem', p, live[p])
  }

  ghost predicate BlockKept(mem: map<nat, byte>, mem': map<nat, byte>, p: nat, n: nat) {
    forall a: nat :: p <= a < p + n ==> ByteOf(mem', a) == ByteOf(mem, a)
  }

  /** n bytes at `from` are now at `to`. */
  ghost predicate BlockMoved(mem: map<nat, byte>, mem': map<nat, byte>, from: nat, to: nat, n: nat) {
    forall a: nat :: from <= a < from + n ==> ByteOf(mem', to + (a - from)) == ByteOf(mem, a)
  }

  function ByteOf(mem: map<nat, byte>, a: nat): byte {
    if a in mem then mem[a] else 0
  }

  function SizeOf(chunks: seq<Chunk>): nat {
    if chunks == [] then 0 else chunks[0].size + SizeOf(chunks[1..])
  }

  function CapacityOf(chunks: seq<Chunk>): nat {
    if chunks == [] then 0 else chunks[0].capacity + CapacityOf(chunks[1..])
  }

  lemma {:induction false} SizeWithinCapacity(chunks: seq<Chunk>)
    requires ChunksOk(chunks)
    ensures SizeOf(chunks) <= CapacityOf(chunks)
  {
    if chunks != [] {
      forall i: nat, j: nat ensures ChunkPair(chunks[1..], i, j) {
        assert ChunkPair(chunks, i + 1, j + 1);
      }
      SizeWithinCapacity(chunks[1..]);
    }
  }

  // ---------------------------------------------------------------- cutting off the head

  /** Using n more bytes of the head overlaps no live block. */
  lemma HeadIsFree(chunks: seq<Chunk>, live: map<nat, nat>, n: nat, p: nat)
    requires chunks != [] && ChunksOk(chunks) && BlocksOk(chunks, live) && chunks[0].size + n <= chunks[0].capacity
    requires p in live
    ensures !Overlap(p, live[p], End(chunks[0]), n)
  {
    assert LiveInside(chunks, live, p);
    var k: nat :| k < |chunks| && InChunk(chunks[k], p, live[p]);
    assert ChunkPair(chunks, 0, k);
  }

  function Grown(chunks: seq<Chunk>, n: nat): seq<Chunk>
    requires chunks != []
  {
    chunks[0 := chunks[0].(size := chunks[0].size + n)]
  }

  lemma GrownChunksOk(chunks: seq<Chunk>, n: nat)
    requires chunks != [] && ChunksOk(chunks) && chunks[0].size + n <= chunks[0].capacity
    ensures ChunksOk(Grown(chunks, n))
  {
    forall i: nat, j: nat ensures ChunkPair(Grown(chunks, n), i, j) {
      assert ChunkPair(chunks, i, j);
    }
  }

  lemma StaysInside(chunks: seq<Chunk>, live: map<nat, nat>, n: nat, p: nat)
    requires chunks != [] && LiveInside(chunks, live, p)
    ensures LiveInside(Grown(chunks, n), live, p)
  {
    if p in live {
      var k: nat :| k < |chunks| && InChunk(chunks[k], p, live[p]);
      assert InChunk(Grown(chunks, n)[k], p, live[p]);
    }
  }

  /** A new block of n bytes at the end of the head. */
  lemma CutBlock(chunks: seq<Chunk>, live: map<nat, nat>, n: nat)
    requires chunks != [] && ChunksOk(chunks) && BlocksOk(chunks, live) && n > 0
    requires chunks[0].size + n <= chunks[0].capacity
    ensures End(chunks[0]) !in live && ChunksOk(Grown(chunks, n))
    ensures BlocksOk(Grown(chunks, n), live[End(chunks[0]) := n])
  {
    var p := End(chunks[0]);
    GrownChunksOk(chunks, n);
    assert LiveInside(chunks, live, p);
    if p in live {
      HeadIsFree(chunks, live, n, p);
    }
    var live' := live[p := n];
    assert InChunk(Grown(chunks, n)[0], p, n);
    forall q ensures LiveInside(Grown(chunks, n), live', q) {
      assert LiveInside(chunks, live, q);
      StaysInside(chunks, live, n, q);
    }
    forall q, r ensures Separate(live', q, r) {
      assert Separate(live, q, r);
      if q in live {
        HeadIsFree(chunks, live, n, q);
      }
      if r in live {
        HeadIsFree(chunks, live, n, r);
      }
    }
  }

  /** A block that ends where the head's used part ends is the last one there. */
  lemma LastIsExact(chunks: seq<Chunk>, live: map<nat, nat>, p: nat, m: nat)
    requires chunks != [] && ChunksOk(chunks) && BlocksOk(chunks, live)
    requires p in live && m <= live[p] && p + m == End(chunks[0])
    ensures live[p] == m && Data(chunks[0]) <= p
  {
    assert LiveInside(chunks, live, p);
    var k: nat :| k < |chunks| && InChunk(chunks[k], p, live[p]);
    assert ChunkPair(chunks, 0, k);
  }

  /** So it can grow. */
  lemma GrowBlock(chunks: seq<Chunk>, live: map<nat, nat>, p: nat, m: nat, n: nat)
    requires chunks != [] && ChunksOk(chunks) && BlocksOk(chunks, live) && chunks[0].size + n <= chunks[0].capacity
    requires p in live && live[p] == m > 0 && Data(chunks[0]) <= p && p + m == End(chunks[0])
    ensures ChunksOk(Grown(chunks, n)) && BlocksOk(Grown(chunks, n), live[p := m + n])
  {
    GrownChunksOk(chunks, n);
    var live' := live[p := m + n];
    assert InChunk(Grown(chunks, n)[0], p, m + n);
    forall q ensures LiveInside(Grown(chunks, n), live', q) {
      assert LiveInside(chunks, live, q);
      StaysInside(chunks, live, n, q);
    }
    forall q, r ensures Separate(live', q, r) {
      assert Separate(live, q, r) && LiveInside(chunks, live, q) && LiveInside(chunks, live, r);
      if q in live && r in live {
        HeadIsFree(chunks, live, n, q);
        HeadIsFree(chunks, live, n, r);
      }
    }
  }

  // ---------------------------------------------------------------- the allocator

  /** What the base allocator may answer: no memory, or an address clear of all chunks. */
  ghost predicate Placeable(chunks: seq<Chunk>, base: Option<nat>, capacity: nat) {
    base.Some? ==> base.value > 0 && forall k: nat :: k < |chunks| ==> Apart(chunks[k], Chunk(base.value, capacity, 0))
  }

  predicate HeadHasRoom(chunks: seq<Chunk>, n: nat) {
    chunks != [] && chunks[0].size + n <= chunks[0].capacity
  }

  /** The block of m bytes at p is the head's last one, and n more bytes fit behind it. */
  predicate CanGrow(chunks: seq<Chunk>, p: nat, m: nat, n: nat) {
    HeadHasRoom(chunks, n) && p + m == End(chunks[0])
  }

  class MemoryPoolAllocator {
    /** The chunk list, head first. */
    var chunks: seq<Chunk>
    const chunk_capacity: nat
    /** The address of the user's buffer, or 0. */
    const userBuffer: nat
    var mem: map<nat, byte>
    /** Blocks handed out, with their rounded sizes; nothing is ever given back one by one. */
    ghost var live: map<nat, nat>

    ghost predicate Valid()
      reads this
    {
      && ChunksOk(chunks) && BlocksOk(chunks, live) && (forall k: nat :: k < |chunks| ==> chunks[k].base > 0)
      && (userBuffer > 0 ==> chunks != [] && chunks[|chunks| - 1].base == userBuffer)
    }

    constructor (chunkSize: nat)
      ensures Valid() && chunks == [] && live == map[] && chunk_capacity == chunkSize && userBuffer == 0
    {
      chunks, chunk_capacity, userBuffer, mem, live := [], chunkSize, 0, map[], map[];
    }

    constructor WithBuffer(buffer: nat, size: nat, chunkSize: nat)
      requires buffer > 0 && size > Header
      ensures Valid() && chunks == [Chunk(buffer, size - Header, 0)] && live == map[] && chunk_capacity == chunkSize
      ensures userBuffer == buffer
    {
      chunks, chunk_capacity, userBuffer := [Chunk(buffer, size - Header, 0)], chunkSize, buffer;
      mem, live := map[], map[];
    }

    /** What the next AddChunk would ask the base allocator for. */
    function ChunkSize(size: nat): nat {
      if chunk_capacity > size then chunk_capacity else size
    }

    method AddChunk(capacity: nat, base: Option<nat>) returns (ok: bool)
      requires Valid() && Placeable(chunks, base, capacity)
      modifies this`chunks
      ensures Valid() && ok == base.Some?
      ensures chunks == if ok then [Chunk(base.value, capacity, 0)] + old(chunks) else old(chunks)
    {
      if base.None? {
        return false;
      }
      ghost var before := chunks;
      chunks := [Chunk(base.value, capacity, 0)] + chunks;
      forall p ensures LiveInside(chunks, live, p) {
        assert LiveInside(before, live, p);
        if p in live {
          var k: nat :| k < |before| && InChunk(before[k], p, live[p]);
          assert chunks[k + 1] == before[k];
        }
      }
      forall i: nat, j: nat ensures ChunkPair(chunks, i, j) {
        if 0 < i < j < |chunks| {
          assert ChunkPair(before, i - 1, j - 1);
        }
      }
      ok := true;
    }

    /** A block clear of all live ones, or none if none was asked for or there is no memory. */
    method Malloc(size0: nat, base: Option<nat>) returns (p: Option<nat>)
      requires Valid() && Placeable(chunks, base, ChunkSize(Align(size0)))
      modifies this`chunks, this`live
      ensures Valid()
      ensures p.Some? ==> p.value !in old(live) && live == old(live)[p.value := Align(size0)]
      ensures p.None? ==> live == old(live)
      ensures size0 > 0 && (base.Some? || HeadHasRoom(old(chunks), Align(size0))) ==> p.Some?
      ensures size0 == 0 ==> p.None?
      ensures p.None? ==> chunks == old(chunks)
      ensures p.Some? && HeadHasRoom(old(chunks), Align(size0)) ==>
        p.value == End(old(chunks)[0]) && chunks == Grown(old(chunks), Align(size0))
      ensures p.Some? && !HeadHasRoom(old(chunks), Align(size0)) ==>
        base.Some? && p.value == base.value + Header &&
        chunks == Grown([Chunk(base.value, ChunkSize(Align(size0)), 0)] + old(chunks), Align(size0))
    {
      if size0 == 0 {
        return None;
      }
      var size := Align(size0);
      if chunks == [] || chunks[0].size + size > chunks[0].capacity {
        var ok := AddChunk(ChunkSize(size), base);
        if !ok {
          return None;
        }
      }
      var buffer := End(chunks[0]);
      CutBlock(chunks, live, size);
      chunks := Grown(chunks, size);
      live := live[buffer := size];
      p := Some(buffer);
    }

    /** memcpy of n bytes between blocks that do not overlap. */
    method Copy(to: nat, from: nat, n: nat)
      requires !Overlap(to, n, from, n)
      modifies this`mem
      ensures BlockMoved(old(mem), mem, from, to, n)
      ensures forall a: nat :: a < to || a >= to + n ==> ByteOf(mem, a) == ByteOf(old(mem), a)
    {
      for i := 0 to n
        invariant BlockMoved(old(mem), mem, from, to, i)
        invariant forall a: nat :: a < to || a >= to + i ==> ByteOf(mem, a) == ByteOf(old(mem), a)
      {
        mem := mem[to + i := ByteOf(mem, from + i)];
      }
    }

    /** Grows a block in place if it is the last one of the head, and its chunk has room. */
    method GrowInPlace(p: nat, originalSize: nat, newSize: nat) returns (ok: bool)
      requires Valid() && p in live && originalSize <= live[p] && originalSize < newSize
      modifies this`chunks, this`live
      ensures Valid()
      ensures ok <==> CanGrow(old(chunks), p, originalSize, newSize - originalSize)
      ensures ok ==> live == old(live)[p := newSize] && old(live)[p] <= newSize
      ensures ok ==> chunks == Grown(old(chunks), newSize - originalSize)
      ensures !ok ==> live == old(live) && chunks == old(chunks)
    {
      // chunks is not empty, since p lies in one
      if chunks != [] && p + originalSize == End(chunks[0]) {
        var increment := newSize - originalSize;
        if chunks[0].size + increment <= chunks[0].capacity {
          LastIsExact(chunks, live, p, originalSize);
          assert LiveInside(chunks, live, p);
          GrowBlock(chunks, live, p, originalSize, increment);
          chunks := Grown(chunks, increment);
          live := live[p := newSize];
          return true;
        }
      }
      return false;
    }

    /** A new block with the contents of an old one. */
    method MoveBlock(from: nat, originalSize: nat, newSize: nat, base: Option<nat>) returns (p: Option<nat>)
      requires Valid() && Placeable(chunks, base, ChunkSize(Align(newSize)))
      requires from in live && originalSize <= live[from] && originalSize < newSize
      modifies this`chunks, this`live, this`mem
      ensures Valid() && Kept(old(live), old(mem), mem)
      ensures forall q :: q in old(live) ==> q in live && live[q] == old(live)[q]
      ensures p.Some? ==> p.value in live && live[p.value] == Align(newSize)
      ensures p.Some? ==> BlockMoved(old(mem), mem, from, p.value, originalSize)
      ensures base.Some? ==> p.Some?
    {
      p := Malloc(newSize, base);
      if p.Some? && originalSize > 0 {
        assert Separate(live, p.value, from);
        Copy(p.value, from, originalSize);
        forall q | q in old(live) ensures BlockKept(old(mem), mem, q, old(live)[q]) {
          assert Separate(live, p.value, q);
        }
      }
    }

    /**
     Resizes a block: the result starts with the old contents, and no byte of any live block, the old
     one included, changes.
     */
    method Realloc(originalPtr: Option<nat>, originalSize0: nat, newSize0: nat, base: Option<nat>)
      returns (p: Option<nat>)
      requires Valid() && Placeable(chunks, base, ChunkSize(Align(newSize0)))
      requires originalPtr.Some? ==> originalPtr.value in live && Align(originalSize0) <= live[originalPtr.value]
      modifies this`chunks, this`live, this`mem
      ensures Valid() && Kept(old(live), old(mem), mem)
      ensures forall q :: q in old(live) ==> q in live && live[q] >= old(live)[q]
      ensures p.Some? ==> p.value in live && live[p.value] >= newSize0
      ensures p.Some? && originalPtr.Some? ==>
        BlockMoved(old(mem), mem, originalPtr.value, p.value,
          if originalSize0 < newSize0 then originalSize0 else newSize0)
      ensures newSize0 > 0 && base.Some? ==> p.Some?
      ensures originalPtr.Some? && 0 < newSize0 && Align(newSize0) <= Align(originalSize0) ==>
        p == originalPtr && chunks == old(chunks)
      ensures originalPtr.Some? && Align(originalSize0) < Align(newSize0) ==>
        CanGrow(old(chunks), originalPtr.value, Align(originalSize0), Align(newSize0) - Align(originalSize0)) ==>
          p == originalPtr && chunks == Grown(old(chunks), Align(newSize0) - Align(originalSize0))
    {
      if originalPtr.None? {
        p := Malloc(newSize0, base);
        return;
      }
      if newSize0 == 0 {
        return None;
      }
      var originalSize, newSize := Align(originalSize0), Align(newSize0);
      if originalSize >= newSize {
        return originalPtr;
      }
      var ok := GrowInPlace(originalPtr.value, originalSize, newSize);
      if ok {
        return originalPtr;
      }
      p := MoveBlock(originalPtr.value, originalSize, newSize, base);
    }

    /** Frees all chunks but the user's buffer, which becomes empty. */
    method Clear()
      requires Valid()
      modifies this`chunks, this`live
      ensures Valid() && live == map[] && SizeOf(chunks) == 0
      ensures chunks == if userBuffer > 0 then [old(chunks)[|old(chunks)| - 1].(size := 0)] else []
    {
      live := map[];
      ghost var before := chunks;
      while chunks != [] && chunks[0].base != userBuffer
        invariant |chunks| <= |before| && chunks == before[|before| - |chunks|..] && live == map[]
        invariant userBuffer > 0 ==> chunks != []
        decreases |chunks|
      {
        chunks := chunks[1..];
      }
      if chunks != [] {
        assert ChunkPair(before, |before| - |chunks|, |before| - 1);
        chunks := chunks[0 := chunks[0].(size := 0)];
      }
    }

    /** Totals over the chunk list. */
    method Size() returns (size: nat)
      requires Valid()
      ensures size == SizeOf(chunks) <= CapacityOf(chunks)
    {
      size := 0;
      var k := 0;
      while k < |chunks|
        invariant k <= |chunks| && size + SizeOf(chunks[k..]) == SizeOf(chunks)
      {
        size := size + chunks[k].size;
        k := k + 1;
      }
      SizeWithinCapacity(chunks);
    }

    method Capacity() returns (capacity: nat)
      requires Valid()
      ensures capacity == CapacityOf(chunks)
    {
      capacity := 0;
      var k := 0;
      while k < |chunks|
        invariant k <= |chunks| && capacity + CapacityOf(chunks[k..]) == CapacityOf(chunks)
      {
        capacity := capacity + chunks[k].capacity;
        k := k + 1;
      }
    }
  }
}
