// Memory of an object stack: chunks obtained from malloc, with objects placed one after the other.

module ObstackModel {
  import opened Prelude

  type Memory = map<int, byte>

  /** A chunk occupies [addr, limit); a header comes first. */
  datatype Chunk = Chunk(addr: int, limit: int)

  /** A finished object. */
  datatype Obj = Obj(addr: int, data: seq<byte>) {
    function End(): int { addr + |data| }
  }

  /** What malloc answers: an address, and whatever its bytes happen to be. */
  datatype Grant = Grant(at: int, junk: int -> byte)

  const HEADER := 16
  const COPYING_UNIT := 4
  const DEFAULT_ALIGNMENT := 16
  const DEFAULT_SIZE := 4064

  /** The first multiple of mask + 1 at or after `p`. */
  function Align(p: int, mask: nat): int {
    p + mask - (p + mask) % (mask + 1)
  }

  /** Where the first object of a chunk goes. */
  function FirstObject(c: Chunk, mask: nat): int {
    Align(c.addr + HEADER, mask)
  }

  function NewSize(objSize: nat, length: nat, mask: nat, chunkSize: int): int {
    var size := objSize + length + objSize / 8 + mask + 100;
    if size < chunkSize then chunkSize else size
  }

  function Max(a: nat, b: nat): nat {
    if a < b then b else a
  }

  predicate Apart(c: Chunk, d: Chunk) {
    c.limit <= d.addr || d.limit <= c.addr
  }

  ghost predicate Grants(chunks: seq<Chunk>, g: Grant, size: int) {
    0 < g.at && forall i :: 0 <= i < |chunks| ==> Apart(chunks[i], Chunk(g.at, g.at + size))
  }

  function Store(mem: Memory, at: int, data: seq<byte>): (m: Memory)
    ensures m.Keys == mem.Keys
    ensures forall a :: a in mem && !(at <= a < at + |data|) ==> m[a] == mem[a]
    ensures forall a :: a in mem && at <= a < at + |data| ==> m[a] == data[a - at]
  {
    map a | a in mem :: if at <= a < at + |data| then data[a - at] else mem[a]
  }

  function Allocate(mem: Memory, g: Grant, size: int): (m: Memory)
    ensures forall a :: a in m <==> a in mem || g.at <= a < g.at + size
    ensures forall a :: a in mem && !(g.at <= a < g.at + size) ==> m[a] == mem[a]
  {
    mem + map a | g.at <= a < g.at + size :: g.junk(a)
  }

  function Release(mem: Memory, c: Chunk): (m: Memory)
    ensures forall a :: a in m <==> a in mem && !(c.addr <= a < c.limit)
    ensures forall a :: a in m ==> m[a] == mem[a]
  {
    map a | a in mem && !(c.addr <= a < c.limit) :: mem[a]
  }

  /** The bytes at `at` are `data`. */
  ghost predicate Holds(mem: Memory, at: int, data: seq<byte>) {
    forall a {:trigger a in mem} :: at <= a < at + |data| ==> a in mem && mem[a] == data[a - at]
  }

  ghost predicate Mapped(mem: Memory, c: Chunk) {
    forall a {:trigger a in mem} :: c.addr <= a < c.limit ==> a in mem
  }

  ghost predicate Placed(mem: Memory, c: Chunk, o: Obj, mask: nat) {
    && FirstObject(c, mask) <= o.addr && o.End() <= c.limit
    && Holds(mem, o.addr, o.data)
    && (o.addr % (mask + 1) == 0 || o.addr == c.limit)
  }

  /** A chunk whose bytes are there and whose finished objects lie in it in order, from its first place on. */
  ghost predicate ChunkValid(mem: Memory, c: Chunk, objs: seq<Obj>, mask: nat) {
    && 0 < c.addr && FirstObject(c, mask) <= c.limit
    && Mapped(mem, c)
    && (forall k :: 0 <= k < |objs| ==> Placed(mem, c, objs[k], mask))
    && (forall k, l :: 0 <= k < l < |objs| ==> objs[k].End() <= objs[l].addr)
    && (objs != [] ==> objs[0].addr == FirstObject(c, mask))
  }

  ghost predicate ChunksValid(mem: Memory, chunks: seq<Chunk>, live: seq<seq<Obj>>, mask: nat) {
    && |chunks| == |live|
    && (forall i :: 0 <= i < |chunks| ==> ChunkValid(mem, chunks[i], live[i], mask))
    && (forall i, j :: 0 <= i < j < |chunks| ==> Apart(chunks[i], chunks[j]))
  }

  predicate Covers(c: Chunk, a: int) {
    c.addr <= a < c.limit
  }

  ghost predicate Covered(chunks: seq<Chunk>, a: int) {
    exists i :: 0 <= i < |chunks| && Covers(chunks[i], a)
  }

  /** The memory is that of the chunks of the chain: what left the chain was released. */
  ghost predicate Exact(mem: Memory, chunks: seq<Chunk>) {
    forall a :: a in mem <==> Covered(chunks, a)
  }

  /** Exactly the addresses of some chunks are gone, and the others keep their bytes. */
  ghost predicate Lost(before: Memory, after: Memory, gone: seq<Chunk>) {
    && (forall a :: a in after <==> a in before && !Covered(gone, a))
    && forall a :: a in after ==> after[a] == before[a]
  }

  /** All finished objects, oldest first. */
  function Flat(live: seq<seq<Obj>>): seq<Obj> {
    if live == [] then [] else Flat(live[1..]) + live[0]
  }

  // ---------- Alignment ----------

  lemma {:induction false} AlignProperties(p: int, mask: nat)
    ensures p <= Align(p, mask) <= p + mask
    ensures Align(p, mask) % (mask + 1) == 0
    ensures p % (mask + 1) == 0 ==> Align(p, mask) == p
  {
    var a, x := mask + 1, p + mask;
    assert x - x % a == a * (x / a);
    MultipleOf(a, x / a);
    if p % a == 0 {
      MultipleOf(a, p / a);
      assert x == a * (p / a) + mask;
      DivisionOf(a, p / a, mask);
    }
  }

  lemma {:induction false} MultipleOf(a: nat, q: int)
    requires a > 0
    ensures (a * q) % a == 0
  {
    DivisionOf(a, q, 0);
  }

  // ---------- The room in a new chunk ----------

  /**
   * After header and rounding, a new chunk holds the moved object, the bytes asked for, and some more: an eighth
   * of the object and 84 to 100 bytes when it is larger than usual, and the usual size when that is enough.
   */
  lemma {:induction false} NewChunkHasRoom(at: int, objSize: nat, length: nat, mask: nat, chunkSize: int)
    ensures var c := Chunk(at, at + NewSize(objSize, length, mask, chunkSize));
            && FirstObject(c, mask) + objSize + length + objSize / 8 + 84 <= c.limit
            && 9 * objSize + 8 * length <= 8 * (c.limit - FirstObject(c, mask))
            && at + HEADER <= FirstObject(c, mask)
            && at + chunkSize <= c.limit
            && (at + chunkSize < c.limit ==> c.limit <= FirstObject(c, mask) + objSize + length + objSize / 8 + mask + 84)
  {
    AlignProperties(at + HEADER, mask);
  }

  // ---------- What memory there is ----------

  lemma {:induction false} CoveredFirst(c: Chunk, chunks: seq<Chunk>, a: int)
    ensures Covered([c] + chunks, a) <==> Covers(c, a) || Covered(chunks, a)
  {
    var cs := [c] + chunks;
    if Covers(c, a) { assert Covers(cs[0], a); }
    if Covered(chunks, a) {
      var i :| 0 <= i < |chunks| && Covers(chunks[i], a);
      assert Covers(cs[i + 1], a);
    }
    if Covered(cs, a) {
      var i :| 0 <= i < |cs| && Covers(cs[i], a);
      assert i > 0 ==> Covers(chunks[i - 1], a);
    }
  }

  lemma {:induction false} CoveredLast(chunks: seq<Chunk>, c: Chunk, a: int)
    ensures Covered(chunks + [c], a) <==> Covered(chunks, a) || Covers(c, a)
  {
    var cs := chunks + [c];
    if Covers(c, a) { assert Covers(cs[|chunks|], a); }
    if Covered(chunks, a) {
      var i :| 0 <= i < |chunks| && Covers(chunks[i], a);
      assert Covers(cs[i], a);
    }
    if Covered(cs, a) {
      var i :| 0 <= i < |cs| && Covers(cs[i], a);
      assert i < |chunks| ==> Covers(chunks[i], a);
    }
  }

  lemma {:induction false} ExactAllocated(mem: Memory, g: Grant, size: int, chunks: seq<Chunk>)
    requires Exact(mem, chunks)
    ensures Exact(Allocate(mem, g, size), [Chunk(g.at, g.at + size)] + chunks)
  {
    hide Covered, Allocate;
    forall a ensures a in Allocate(mem, g, size) <==> Covered([Chunk(g.at, g.at + size)] + chunks, a) {
      CoveredFirst(Chunk(g.at, g.at + size), chunks, a);
    }
  }

  lemma {:induction false} ApartFromAll(c: Chunk, chunks: seq<Chunk>, a: int)
    requires forall i :: 0 <= i < |chunks| ==> Apart(c, chunks[i])
    ensures !(Covers(c, a) && Covered(chunks, a))
  {
  }

  lemma {:induction false} ExactReleased(mem: Memory, c: Chunk, chunks: seq<Chunk>)
    requires Exact(mem, [c] + chunks)
    requires forall i :: 0 <= i < |chunks| ==> Apart(c, chunks[i])
    ensures Exact(Release(mem, c), chunks)
  {
    hide Covered, Release;
    forall a ensures a in Release(mem, c) <==> Covered(chunks, a) {
      CoveredFirst(c, chunks, a);
      ApartFromAll(c, chunks, a);
    }
  }

  lemma {:induction false} ExactSecondReleased(mem: Memory, b: Chunk, c: Chunk, chunks: seq<Chunk>)
    requires Exact(mem, [b] + ([c] + chunks)) && Apart(b, c)
    requires forall i :: 0 <= i < |chunks| ==> Apart(c, chunks[i])
    ensures Exact(Release(mem, c), [b] + chunks)
  {
    hide Covered, Release;
    forall a ensures a in Release(mem, c) <==> Covered([b] + chunks, a) {
      CoveredFirst(b, [c] + chunks, a);
      CoveredFirst(c, chunks, a);
      CoveredFirst(b, chunks, a);
      ApartFromAll(c, chunks, a);
    }
  }

  lemma {:induction false} LostMore(before: Memory, mem: Memory, gone: seq<Chunk>, c: Chunk)
    requires Lost(before, mem, gone)
    ensures Lost(before, Release(mem, c), gone + [c])
  {
    hide Covered, Release;
    forall a ensures a in Release(mem, c) <==> a in before && !Covered(gone + [c], a) {
      CoveredLast(gone, c, a);
    }
  }

  // ---------- Frames ----------

  ghost predicate Same(mem: Memory, mem': Memory, lo: int, hi: int) {
    forall a {:trigger a in mem'} {:trigger a in mem} :: lo <= a < hi && a in mem ==> a in mem' && mem'[a] == mem[a]
  }

  lemma {:induction false} HoldsFramed(mem: Memory, mem': Memory, at: int, data: seq<byte>)
    requires Holds(mem, at, data) && Same(mem, mem', at, at + |data|)
    ensures Holds(mem', at, data)
  {
    forall a | at <= a < at + |data|
      ensures a in mem' && mem'[a] == data[a - at]
    {
      assert a in mem;
    }
  }

  /** Memory that is the same over a chunk keeps the chunk and its objects. */
  lemma {:induction false} ChunkFramed(mem: Memory, mem': Memory, c: Chunk, objs: seq<Obj>, mask: nat)
    requires ChunkValid(mem, c, objs, mask) && Same(mem, mem', c.addr, c.limit)
    ensures ChunkValid(mem', c, objs, mask)
  {
    AlignProperties(c.addr + HEADER, mask);
    forall k | 0 <= k < |objs|
      ensures Placed(mem', c, objs[k], mask)
    {
      assert Placed(mem, c, objs[k], mask);
      HoldsFramed(mem, mem', objs[k].addr, objs[k].data);
    }
  }

  lemma {:induction false} ChunksFramed(mem: Memory, mem': Memory, chunks: seq<Chunk>, live: seq<seq<Obj>>, mask: nat)
    requires ChunksValid(mem, chunks, live, mask)
    requires forall i :: 0 <= i < |chunks| ==> Same(mem, mem', chunks[i].addr, chunks[i].limit)
    ensures ChunksValid(mem', chunks, live, mask)
  {
    forall i | 0 <= i < |chunks|
      ensures ChunkValid(mem', chunks[i], live[i], mask)
    {
      ChunkFramed(mem, mem', chunks[i], live[i], mask);
    }
  }

  /** A chunk apart from all the others joins the chain in front. */
  lemma {:induction false} ChunkJoins(mem: Memory, c: Chunk, chunks: seq<Chunk>, live: seq<seq<Obj>>, mask: nat)
    requires ChunksValid(mem, chunks, live, mask) && ChunkValid(mem, c, [], mask)
    requires forall i :: 0 <= i < |chunks| ==> Apart(c, chunks[i])
    ensures ChunksValid(mem, [c] + chunks, [[]] + live, mask)
  {
  }

  /** Releasing a chunk leaves the others as they were. */
  lemma {:induction false} ChunkLeaves(mem: Memory, chunks: seq<Chunk>, live: seq<seq<Obj>>, mask: nat)
    requires ChunksValid(mem, chunks, live, mask) && chunks != []
    ensures |live| == |chunks| && ChunksValid(Release(mem, chunks[0]), chunks[1..], live[1..], mask)
  {
    assert ChunksValid(mem, chunks[1..], live[1..], mask);
    ChunksFramed(mem, Release(mem, chunks[0]), chunks[1..], live[1..], mask);
  }

  /** Memory written only outside a range is the same over the range. */
  lemma {:induction false} WrittenElsewhere(mem: Memory, mem': Memory, lo: int, hi: int, chunks: seq<Chunk>)
    requires forall a :: a in mem ==> a in mem'
    requires forall a :: a in mem && !(lo <= a < hi) ==> mem'[a] == mem[a]
    requires forall i :: 0 <= i < |chunks| ==> Apart(Chunk(lo, hi), chunks[i])
    ensures forall i :: 0 <= i < |chunks| ==> Same(mem, mem', chunks[i].addr, chunks[i].limit)
  {
  }

  /** A new chunk is allocated and written to: the others are as they were, and it joins the chain. */
  lemma {:induction false} MoveKeepsChunks(
      mem: Memory, m1: Memory, m2: Memory, g: Grant, size: int, chunks: seq<Chunk>, live: seq<seq<Obj>>, mask: nat)
    requires ChunksValid(mem, chunks, live, mask) && Grants(chunks, g, size)
    requires m1 == Allocate(mem, g, size) && m2.Keys == m1.Keys
    requires forall a :: a in m1 && !(g.at <= a < g.at + size) ==> m2[a] == m1[a]
    requires FirstObject(Chunk(g.at, g.at + size), mask) <= g.at + size
    ensures ChunksValid(m2, [Chunk(g.at, g.at + size)] + chunks, [[]] + live, mask)
  {
    var c := Chunk(g.at, g.at + size);
    WrittenElsewhere(mem, m2, c.addr, c.limit, chunks);
    ChunksFramed(mem, m2, chunks, live, mask);
    assert ChunkValid(m2, c, [], mask);
    ChunkJoins(m2, c, chunks, live, mask);
  }

  /** The chunk behind the newest one is taken out and released. */
  lemma {:induction false} SecondLeaves(mem: Memory, c: Chunk, chunks: seq<Chunk>, live: seq<seq<Obj>>, mask: nat)
    requires chunks != [] && live != [] && ChunksValid(mem, [c] + chunks, [[]] + live, mask)
    ensures ChunksValid(Release(mem, chunks[0]), [c] + chunks[1..], [[]] + live[1..], mask)
  {
    var cs, ls := [c] + chunks, [[]] + live;
    var cs', ls' := [c] + chunks[1..], [[]] + live[1..];
    assert forall i :: 1 <= i < |cs'| ==> cs'[i] == cs[i + 1] && ls'[i] == ls[i + 1];
    assert cs'[0] == cs[0] && ls'[0] == ls[0] && cs[1] == chunks[0];
    assert ChunksValid(mem, cs', ls', mask);
    ChunksFramed(mem, Release(mem, chunks[0]), cs', ls', mask);
  }

  /** Objects that lie in an empty space are empty. */
  lemma {:induction false} NoRoomNoObjects(mem: Memory, c: Chunk, objs: seq<Obj>, mask: nat)
    requires ChunkValid(mem, c, objs, mask)
    requires forall k :: 0 <= k < |objs| ==> objs[k].End() <= FirstObject(c, mask) && objs[k].data != []
    ensures objs == []
  {
  }

  /** Bytes written above the finished objects of the newest chunk change no finished object. */
  lemma {:induction false} WrittenAbove(mem: Memory, at: int, data: seq<byte>,
                                        chunks: seq<Chunk>, live: seq<seq<Obj>>, mask: nat)
    requires ChunksValid(mem, chunks, live, mask) && chunks != []
    requires chunks[0].addr <= at && at + |data| <= chunks[0].limit
    requires forall k :: 0 <= k < |live[0]| ==> live[0][k].End() <= at
    ensures ChunksValid(Store(mem, at, data), chunks, live, mask)
  {
    var m := Store(mem, at, data);
    var c, objs := chunks[0], live[0];
    forall i | 0 <= i < |chunks|
      ensures ChunkValid(m, chunks[i], live[i], mask)
    {
      if i > 0 {
        assert Apart(c, chunks[i]);
        ChunkFramed(mem, m, chunks[i], live[i], mask);
      } else {
        forall k | 0 <= k < |objs|
          ensures Placed(m, c, objs[k], mask)
        {
          assert Placed(mem, c, objs[k], mask);
          HoldsFramed(mem, m, objs[k].addr, objs[k].data);
        }
      }
    }
  }

  lemma {:induction false} HoldsAppended(mem: Memory, at: int, a: seq<byte>, b: seq<byte>)
    requires Holds(mem, at, a) && Mapped(mem, Chunk(at, at + |a| + |b|))
    ensures Holds(Store(mem, at + |a|, b), at, a + b)
  {
    var m := Store(mem, at + |a|, b);
    forall x | at <= x < at + |a + b|
      ensures x in m && m[x] == (a + b)[x - at]
    {
      assert x in mem;
    }
  }

  /** The bytes at an address. */
  function Bytes(mem: Memory, at: int, n: nat): (data: seq<byte>)
    requires forall a :: at <= a < at + n ==> a in mem
    ensures |data| == n && Holds(mem, at, data)
  {
    seq(n, i requires 0 <= i < n => mem[at + i])
  }
}
