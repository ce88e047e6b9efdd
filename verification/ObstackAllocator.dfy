// The object stack itself: one growing object, and finished objects that are freed newest first.

module ObstackAllocator {
  import opened Prelude
  import opened ObstackModel

  datatype Outcome = Freed | FreedAll | Aborted

  /** An object at `obj` lies in this chunk, perhaps an empty one at its very end. */
  predicate InChunk(c: Chunk, obj: int) {
    c.addr < obj <= c.limit
  }

  /** The chunk the walk from the newest one stops at; |chunks| when it runs off the end. */
  function Walk(chunks: seq<Chunk>, obj: int): (i: nat)
    ensures i <= |chunks|
    ensures i < |chunks| ==> InChunk(chunks[i], obj)
  {
    if chunks == [] || InChunk(chunks[0], obj) then 0 else Walk(chunks[1..], obj) + 1
  }

  /** The current chunk: the object being built comes after its finished objects. */
  ghost predicate Current(mem: Memory, c: Chunk, objs: seq<Obj>, mask: nat,
                          objectBase: int, nextFree: int, chunkLimit: int, maybeEmpty: bool, growing: seq<byte>)
  {
    && chunkLimit == c.limit
    && FirstObject(c, mask) <= objectBase
    && nextFree == objectBase + |growing| <= chunkLimit
    && Holds(mem, objectBase, growing)
    && (objectBase % (mask + 1) == 0 || objectBase == chunkLimit)
    && (forall k :: 0 <= k < |objs| ==> objs[k].End() <= objectBase)
    && (maybeEmpty || forall k :: 0 <= k < |objs| ==> objs[k].data != [])
    && (objs == [] ==> objectBase == FirstObject(c, mask))
  }

  /** Where the next object goes after one that ended at `end`: aligned, or at the limit of the chunk. */
  function NextBase(end: int, mask: nat, limit: int): int {
    if Align(end, mask) > limit then limit else Align(end, mask)
  }

  lemma {:induction false} NextBaseNear(end: int, mask: nat, limit: int)
    requires end <= limit
    ensures end <= NextBase(end, mask, limit) <= end + mask
  {
    AlignProperties(end, mask);
  }

  lemma {:induction false} CurrentFinished(mem: Memory, c: Chunk, objs: seq<Obj>, mask: nat,
                                           base: int, end: int, maybeEmpty: bool, growing: seq<byte>)
    requires Current(mem, c, objs, mask, base, end, c.limit, maybeEmpty, growing)
    ensures var next := NextBase(end, mask, c.limit);
            Current(mem, c, objs + [Obj(base, growing)], mask, next, next, c.limit, maybeEmpty || growing == [], [])
    ensures Placed(mem, c, Obj(base, growing), mask)
    ensures growing != [] ==> base % (mask + 1) == 0
  {
    AlignProperties(end, mask);
  }

  lemma {:induction false} CurrentAfterFree(mem: Memory, c: Chunk, objs: seq<Obj>, k: nat, mask: nat, maybeEmpty: bool)
    requires ChunkValid(mem, c, objs, mask) && k < |objs|
    requires maybeEmpty || forall j :: 0 <= j < |objs| ==> objs[j].data != []
    ensures Current(mem, c, objs[..k], mask, objs[k].addr, objs[k].addr, c.limit, maybeEmpty, [])
  {
    assert Placed(mem, c, objs[k], mask);
  }

  lemma {:induction false} HoldsJoined(mem: Memory, at: int, a: seq<byte>, b: seq<byte>)
    requires Holds(mem, at, a) && Holds(mem, at + |a|, b)
    ensures Holds(mem, at, a + b)
  {
    forall x | at <= x < at + |a + b|
      ensures x in mem && mem[x] == (a + b)[x - at]
    {
    }
  }

  lemma {:induction false} HoldsAllocated(mem: Memory, g: Grant, size: int, c: Chunk, at: int, data: seq<byte>)
    requires Apart(c, Chunk(g.at, g.at + size)) && c.addr <= at && at + |data| <= c.limit && Holds(mem, at, data)
    ensures Holds(Allocate(mem, g, size), at, data)
  {
    HoldsFramed(mem, Allocate(mem, g, size), at, data);
  }

  lemma {:induction false} NothingExact()
    ensures Exact(map[], [])
  {
    assert forall a :: !Covered([], a);
  }

  lemma {:induction false} NothingHeld(mem: Memory, at: int)
    ensures Holds(mem, at, [])
  {
  }

  lemma {:induction false} MappedAhead(mem: Memory, chunks: seq<Chunk>, live: seq<seq<Obj>>, mask: nat, at: int, n: nat)
    requires ChunksValid(mem, chunks, live, mask) && chunks != []
    requires chunks[0].addr <= at && at + n <= chunks[0].limit
    ensures forall a {:trigger a in mem} :: at <= a < at + n ==> a in mem
  {
    assert Mapped(mem, chunks[0]);
  }

  lemma {:induction false} MappedAllocated(mem: Memory, g: Grant, size: int, at: int, n: nat)
    requires g.at <= at && at + n <= g.at + size
    ensures Mapped(Allocate(mem, g, size), Chunk(at, at + n))
  {
  }

  /** The place of the moved object in its new chunk is aligned and leaves the room asked for. */
  lemma {:induction false} NewPlace(at: int, objSize: nat, length: nat, mask: nat, chunkSize: int)
    ensures var limit := at + NewSize(objSize, length, mask, chunkSize);
            var base := FirstObject(Chunk(at, limit), mask);
            && at <= base && base % (mask + 1) == 0 && base + objSize + length <= limit
            && 9 * objSize + 8 * length <= 8 * (limit - base)
  {
    NewChunkHasRoom(at, objSize, length, mask, chunkSize);
    AlignProperties(at + HEADER, mask);
  }

  function DefaultAlignment(alignment: nat): (a: nat)
    ensures a > 0
  {
    if alignment == 0 then DEFAULT_ALIGNMENT else alignment
  }

  function DefaultSize(size: int): int {
    if size == 0 then DEFAULT_SIZE else size
  }

  class Obstack {
    var chunkSize: int
    var mask: nat
    var chunks: seq<Chunk>  // newest first
    var mem: Memory
    var objectBase: int
    var nextFree: int
    var chunkLimit: int
    var maybeEmpty: bool

    ghost var growing: seq<byte>     // the bytes of the object being built
    ghost var live: seq<seq<Obj>>    // the finished objects of each chunk, in order of address
    ghost var copied: nat            // bytes moved for the object being built
    ghost var peak: nat              // the largest size it had, or had room made for

    ghost predicate Valid()
      reads this
    {
      && |chunks| > 0
      && ChunksValid(mem, chunks, live, mask) && Exact(mem, chunks)
      && Current(mem, chunks[0], live[0], mask, objectBase, nextFree, chunkLimit, maybeEmpty, growing)
    }

    /** Bytes moved for the object being built stay within 8 times its room, and 9 times its largest size. */
    ghost predicate Amortised()
      reads `growing, `peak, `copied, `chunkLimit, `objectBase
    {
      |growing| <= peak && copied <= 9 * peak && copied <= 8 * (chunkLimit - objectBase)
    }

    /** A first chunk too small for its aligned first object is taken as well, and is not a valid stack. */
    constructor Begin(size: int, alignment: nat, g: Grant)
      requires 0 < g.at
      ensures chunks == [Chunk(g.at, g.at + chunkSize)]
      ensures Valid() <==> FirstObject(chunks[0], mask) <= g.at + chunkSize
      ensures HEADER + mask <= chunkSize ==> Valid()
      ensures Valid() ==> Amortised() && NoneWasted()
      ensures Flat(live) == [] && growing == [] && peak == 0 && !maybeEmpty
      ensures mask == DefaultAlignment(alignment) - 1 && chunkSize == DefaultSize(size)
    {
      hide Exact, Allocate, Holds, Align;
      var n, m := DefaultSize(size), DefaultAlignment(alignment) - 1;
      var c := Chunk(g.at, g.at + n);
      AlignProperties(g.at + HEADER, m);
      chunkSize, mask := n, m;
      chunks, mem := [c], Allocate(map[], g, n);
      objectBase, nextFree, chunkLimit := FirstObject(c, m), FirstObject(c, m), c.limit;
      maybeEmpty := false;
      growing, live := [], [[]];
      copied, peak := 0, 0;
      new;
      NothingHeld(mem, objectBase);
      NothingExact();
      if n >= 0 { MappedAllocated(map[], g, n, c.addr, n); }
      assert ChunkValid(mem, c, [], mask) <==> FirstObject(c, mask) <= c.limit;
      ExactAllocated(map[], g, n, []);
      AppendNone([c]);
    }

    /** Move bytes to a new chunk: words from the last to the first when aligned, then the odd bytes. */
    method CopyObject(from: int, to: int, ghost data: seq<byte>)
      requires nextFree - objectBase == |data| && from == objectBase
      requires Holds(mem, from, data) && Mapped(mem, Chunk(to, to + |data|))
      requires from + |data| <= to || to + |data| <= from
      modifies `mem
      ensures Holds(mem, to, data)
      ensures mem.Keys == old(mem.Keys)
      ensures forall a :: a in old(mem) && !(to <= a < to + |data|) ==> mem[a] == old(mem)[a]
    {
      var n := nextFree - objectBase;
      var already := 0;
      if mask + 1 >= DEFAULT_ALIGNMENT {
        already := CopyWords(from, to, n, data);
      }
      var i := already;
      while i < n
        invariant already <= i <= n
        invariant mem.Keys == old(mem.Keys)
        invariant forall a :: a in mem && !(to <= a < to + n) ==> mem[a] == old(mem)[a]
        invariant forall a :: to <= a < to + i ==> a in mem && mem[a] == data[a - to]
      {
        assert from + i in old(mem) && to + i in old(mem);
        mem := mem[to + i := mem[from + i]];
        i := i + 1;
      }
    }

    method CopyWords(from: int, to: int, n: nat, ghost data: seq<byte>) returns (already: nat)
      requires n == |data| && Holds(mem, from, data) && Mapped(mem, Chunk(to, to + n))
      requires from + n <= to || to + n <= from
      modifies `mem
      ensures already <= n && forall a :: to <= a < to + already ==> a in mem && mem[a] == data[a - to]
      ensures mem.Keys == old(mem.Keys)
      ensures forall a :: a in old(mem) && !(to <= a < to + n) ==> mem[a] == old(mem)[a]
    {
      var i := n / COPYING_UNIT - 1;
      while i >= 0
        invariant -1 <= i < n / COPYING_UNIT
        invariant mem.Keys == old(mem.Keys)
        invariant forall a :: a in mem && !(to <= a < to + n) ==> mem[a] == old(mem)[a]
        invariant forall a :: to + 4 * (i + 1) <= a < to + 4 * (n / 4) ==> a in mem && mem[a] == data[a - to]
      {
        var j := 4 * i;
        assert from + j in old(mem) && from + j + 1 in old(mem) && from + j + 2 in old(mem) && from + j + 3 in old(mem);
        mem := Store(mem, to + j, [mem[from + j], mem[from + j + 1], mem[from + j + 2], mem[from + j + 3]]);
        i := i - 1;
      }
      already := n / COPYING_UNIT * COPYING_UNIT;
    }

    /** The chunk that NewChunk would ask malloc for. */
    ghost function Next(g: Grant, length: nat): Chunk
      reads this
    {
      Chunk(g.at, g.at + NewSize(|growing|, length, mask, chunkSize))
    }

    ghost predicate Granted(g: Grant, length: nat)
      reads this
    {
      Grants(chunks, g, NewSize(|growing|, length, mask, chunkSize))
    }

    /** Every chunk behind the newest holds a finished object, and the newest does when an empty one is on record. */
    ghost predicate NoneWasted()
      reads `live, `maybeEmpty
    {
      && (maybeEmpty && live != [] ==> live[0] != [])
      && forall j :: 1 <= j < |live| ==> live[j] != []
    }

    /** The object being built is the first of its chunk, and no empty object is known to lie in front of it. */
    predicate Unused()
      requires chunks != []
      reads this
    {
      !maybeEmpty && objectBase == FirstObject(chunks[0], mask)
    }

    /** The object being built lies in the newest chunk. */
    lemma GrowingInChunk()
      requires Valid()
      ensures chunks != [] && nextFree == objectBase + |growing|
      ensures chunks[0].addr <= objectBase && objectBase + |growing| <= chunks[0].limit
    {
      AlignProperties(chunks[0].addr + HEADER, mask);
    }

    /** Put a chunk in front of the chain and copy the object being built to it. */
    method AddChunk(g: Grant, size: int, base: int)
      requires Valid() && Grants(chunks, g, size)
      requires FirstObject(Chunk(g.at, g.at + size), mask) == base && g.at <= base && base + |growing| <= g.at + size
      modifies `mem, `chunks, `live
      ensures chunks == [Chunk(g.at, g.at + size)] + old(chunks) && live == [[]] + old(live)
      ensures ChunksValid(mem, chunks, live, mask) && Exact(mem, chunks) && Holds(mem, base, growing)
    {
      hide Exact, ChunksValid, Holds, Mapped, Allocate, FirstObject, Align;
      ghost var before := mem;
      GrowingInChunk();
      assert Apart(chunks[0], Chunk(g.at, g.at + size));
      MappedAllocated(mem, g, size, base, |growing|);
      HoldsAllocated(mem, g, size, chunks[0], objectBase, growing);
      mem := Allocate(mem, g, size);
      ghost var granted := mem;
      CopyObject(objectBase, base, growing);
      MoveKeepsChunks(before, granted, mem, g, size, chunks, live, mask);
      ExactAllocated(before, g, size, chunks);
      ExactSame(granted, mem, [Chunk(g.at, g.at + size)] + chunks);
      chunks, live := [Chunk(g.at, g.at + size)] + chunks, [[]] + live;
    }

    /** Take the second chunk, which holds no object, out of the chain and release it. */
    method ReleaseOld(base: int)
      requires |chunks| >= 2 && ChunksValid(mem, chunks, live, mask) && Exact(mem, chunks) && live[0] == []
      requires Holds(mem, base, growing) && chunks[0].addr <= base && base + |growing| <= chunks[0].limit
      modifies `mem, `chunks, `live
      ensures chunks == [old(chunks)[0]] + old(chunks)[2..] && live == [[]] + old(live)[2..]
      ensures ChunksValid(mem, chunks, live, mask) && Exact(mem, chunks) && Holds(mem, base, growing)
    {
      var c, d, cs := chunks[0], chunks[1], chunks[2..];
      SecondChunk(mem, chunks, live, mask);
      hide Exact, ChunksValid, Holds, Release;
      ExactSecondReleased(mem, c, d, cs);
      SecondLeaves(mem, c, chunks[1..], live[1..], mask);
      ReleasedElsewhere(mem, c, d, base, growing);
      mem := Release(mem, d);
      chunks, live := [c] + cs, [[]] + live[2..];
    }

    /** The numbers of a valid stack, and that the code's test finds exactly the chunks without an object on record. */
    lemma UnusedIsEmpty()
      requires Valid()
      ensures chunks != [] && |live| == |chunks| && nextFree - objectBase == |growing|
      ensures Unused() <==> live[0] == [] && !maybeEmpty
    {
      if Unused() {
        NoRoomNoObjects(mem, chunks[0], live[0], mask);
      }
    }

    /**
     * Start a new chunk with room for `length` more bytes, and move the object being built to it.
     * The old chunk is released exactly when it holds no finished object and had no empty one on record.
     */
    method NewChunk(length: nat, g: Grant)
      requires Valid() && Granted(g, length)
      modifies this
      ensures Valid() && mask == old(mask) && chunkSize == old(chunkSize)
      ensures growing == old(growing) && Flat(live) == Flat(old(live))
      ensures nextFree + length <= chunkLimit
      ensures copied == old(copied) + |growing| && peak == Max(old(peak), |growing| + length)
      ensures old(Amortised()) && |growing| + length > old(chunkLimit - objectBase) ==> Amortised()
      ensures old(live) != [] && old(chunks) != []
      ensures var wasted := old(live)[0] == [] && !old(maybeEmpty);
              && chunks == [old(Next(g, length))] + (if wasted then old(chunks)[1..] else old(chunks))
              && live == [[]] + (if wasted then old(live)[1..] else old(live))
      ensures !maybeEmpty && (old(NoneWasted()) ==> NoneWasted())
    {
      hide ChunksValid, Exact, Current, Flat, Holds, Grants, NewSize, FirstObject, Amortised, Max, Unused;
      UnusedIsEmpty();
      var objSize := nextFree - objectBase;
      var size := NewSize(objSize, length, mask, chunkSize);
      var base := FirstObject(Chunk(g.at, g.at + size), mask);
      NewPlace(g.at, objSize, length, mask, chunkSize);
      var unused := Unused();
      Relocate(g, size, base, unused);
      Adopt(base, length);
    }

    /** Copy the object being built to a new chunk, and release the old one if nothing else was in it. */
    method Relocate(g: Grant, size: int, base: int, unused: bool)
      requires Valid() && Grants(chunks, g, size) && (unused ==> live[0] == [])
      requires FirstObject(Chunk(g.at, g.at + size), mask) == base && g.at <= base && base + |growing| <= g.at + size
      modifies `mem, `chunks, `live
      ensures ChunksValid(mem, chunks, live, mask) && Exact(mem, chunks) && Holds(mem, base, growing)
      ensures chunks == [Chunk(g.at, g.at + size)] + (if unused then old(chunks)[1..] else old(chunks))
      ensures live == [[]] + (if unused then old(live)[1..] else old(live)) && Flat(live) == Flat(old(live))
    {
      UnusedIsEmpty();
      hide Exact, ChunksValid, Current, Flat, Holds, Grants, FirstObject, Unused;
      FlatOf(live);
      WithoutSecond(Chunk(g.at, g.at + size), chunks);
      WithoutSecond([], live);
      AddChunk(g, size, base);
      if unused {
        ReleaseOld(base);
      }
    }

    /** The newest chunk, still without objects, becomes the current one. */
    method Adopt(base: int, ghost length: nat)
      requires |chunks| > 0 && ChunksValid(mem, chunks, live, mask) && Exact(mem, chunks) && live[0] == []
      requires base == FirstObject(chunks[0], mask) && base % (mask + 1) == 0 && base + |growing| <= chunks[0].limit
      requires Holds(mem, base, growing) && nextFree - objectBase == |growing|
      requires 9 * |growing| + 8 * length <= 8 * (chunks[0].limit - base)
      modifies `objectBase, `nextFree, `chunkLimit, `maybeEmpty, `copied, `peak
      ensures Valid() && objectBase == base && nextFree == base + |growing| && chunkLimit == chunks[0].limit
      ensures !maybeEmpty
      ensures copied == old(copied) + |growing| && peak == Max(old(peak), |growing| + length)
      ensures old(Amortised()) && |growing| + length > old(chunkLimit - objectBase) ==> Amortised()
    {
      hide ChunksValid, Exact, Holds;
      nextFree, objectBase := base + (nextFree - objectBase), base;
      chunkLimit, maybeEmpty := chunks[0].limit, false;
      copied, peak := copied + |growing|, Max(peak, |growing| + length);
    }

    /** What every growing step keeps: the finished objects, and the bound on bytes moved. */
    twostate predicate Grew(data: seq<byte>)
      reads this
    {
      && Valid() && mask == old(mask) && chunkSize == old(chunkSize)
      && growing == old(growing) + data
      && Flat(live) == old(Flat(live))
      && peak == Max(old(peak), |growing|) && (old(NoneWasted()) ==> NoneWasted())
      && (old(Amortised()) ==> Amortised())
    }

    /** Copy bytes behind the object being built; there is room for them. */
    method Append(data: seq<byte>)
      requires Valid() && nextFree + |data| <= chunkLimit
      modifies `mem, `nextFree, `growing, `peak
      ensures Valid() && growing == old(growing) + data && peak == Max(old(peak), |growing|)
    {
      hide Exact;
      AlignProperties(chunks[0].addr + HEADER, mask);
      ExactSame(mem, Store(mem, nextFree, data), chunks);
      WrittenAbove(mem, nextFree, data, chunks, live, mask);
      HoldsAppended(mem, objectBase, growing, data);
      mem := Store(mem, nextFree, data);
      nextFree, growing := nextFree + |data|, growing + data;
      peak := Max(peak, |growing|);
    }

    /** Add `data` to the object being built. */
    method Grow(data: seq<byte>, g: Grant)
      requires Valid() && (nextFree + |data| > chunkLimit ==> Granted(g, |data|))
      modifies this
      ensures Grew(data)
    {
      if nextFree + |data| > chunkLimit {
        NewChunk(|data|, g);
      }
      Append(data);
    }

    /** Add `data` and a final zero. */
    method Grow0(data: seq<byte>, g: Grant)
      requires Valid() && (nextFree + |data| + 1 > chunkLimit ==> Granted(g, |data| + 1))
      modifies this
      ensures Grew(data + [0])
    {
      if nextFree + |data| + 1 > chunkLimit {
        NewChunk(|data| + 1, g);
      }
      Append(data);
      Append([0]);
      assert old(growing) + (data + [0]) == old(growing) + data + [0];
    }

    /** Add one byte. */
    method Grow1(c: byte, g: Grant)
      requires Valid() && (nextFree + 1 > chunkLimit ==> Granted(g, 1))
      modifies this
      ensures Grew([c])
    {
      if nextFree + 1 > chunkLimit {
        NewChunk(1, g);
      }
      Append([c]);
    }

    /** Add `n` bytes, whatever the chunk holds there, or take bytes off the end when `n` is negative. */
    method Blank(n: int, g: Grant) returns (ghost data: seq<byte>)
      requires Valid() && -|growing| <= n && (chunkLimit - nextFree < n ==> Granted(g, n))
      modifies this
      ensures n >= 0 ==> |data| == n && Grew(data)
      ensures n < 0 ==> Valid() && growing == old(growing)[..|old(growing)| + n]
      ensures n < 0 ==> mask == old(mask) && chunks == old(chunks) && mem == old(mem) && live == old(live)
      ensures n < 0 ==> maybeEmpty == old(maybeEmpty) && peak == old(peak) && chunkSize == old(chunkSize)
      ensures n < 0 && old(Amortised()) ==> Amortised()
    {
      if chunkLimit - nextFree < n {
        NewChunk(n, g);
      }
      if n >= 0 {
        data := Skip(n);
      } else {
        data := [];
        Shrink(-n);
      }
    }

    method Shrink(n: nat)
      requires Valid() && n <= |growing|
      modifies `nextFree, `growing
      ensures Valid() && growing == old(growing)[..|old(growing)| - n]
    {
      HoldsPrefix(mem, objectBase, growing, |growing| - n);
      nextFree, growing := nextFree - n, growing[..|growing| - n];
    }

    method Skip(n: nat) returns (ghost data: seq<byte>)
      requires Valid() && nextFree + n <= chunkLimit
      modifies `nextFree, `growing, `peak
      ensures |data| == n && Valid() && growing == old(growing) + data && peak == Max(old(peak), |growing|)
    {
      hide ChunksValid, Exact, Bytes, Max, Mapped, FirstObject, Align;
      GrowingInChunk();
      MappedAhead(mem, chunks, live, mask, nextFree, n);
      data := Bytes(mem, nextFree, n);
      HoldsJoined(mem, objectBase, growing, data);
      nextFree, growing := nextFree + n, growing + data;
      peak := Max(peak, |growing|);
    }

    /** Make room without growing. */
    method MakeRoom(n: nat, g: Grant)
      requires Valid() && (chunkLimit - nextFree < n ==> Granted(g, n))
      modifies this
      ensures Valid() && growing == old(growing) && Flat(live) == old(Flat(live))
      ensures mask == old(mask) && chunkSize == old(chunkSize) && n <= chunkLimit - nextFree
      ensures peak == Max(old(peak), |growing| + n) && (old(Amortised()) ==> Amortised())
      ensures old(NoneWasted()) ==> NoneWasted()
    {
      if chunkLimit - nextFree < n {
        NewChunk(n, g);
      }
      peak := Max(peak, |growing| + n);
    }

    /** End the object being built, and give its address. */
    method Finish() returns (value: int)
      requires Valid()
      modifies `objectBase, `nextFree, `maybeEmpty, `growing, `live, `copied, `peak
      ensures Valid() && Amortised() && peak == 0
      ensures value == old(objectBase) && growing == []
      ensures live == old(live)[0 := old(live)[0] + [Obj(value, old(growing))]]
      ensures Flat(live) == old(Flat(live)) + [Obj(value, old(growing))]
      ensures old(growing) != [] ==> value % (mask + 1) == 0
      ensures old(nextFree) <= objectBase <= old(nextFree) + mask && nextFree == objectBase
      ensures old(NoneWasted()) ==> NoneWasted()
    {
      value := objectBase;
      if nextFree == value {
        maybeEmpty := true;
      }
      assert nextFree == objectBase + |growing| && chunkLimit == chunks[0].limit && |live| == |chunks|;
      CurrentFinished(mem, chunks[0], live[0], mask, objectBase, nextFree, maybeEmpty, growing);
      ghost var o := Obj(value, growing);
      ObjectFinished(mem, chunks, live, o, mask);
      NextBaseNear(nextFree, mask, chunkLimit);
      hide ChunksValid, Exact, Current, Placed, Flat, NextBase;
      StartNext(o);
    }

    /** The next object starts behind the one just finished, aligned or at the limit of the chunk. */
    method StartNext(ghost o: Obj)
      requires chunks != [] && live != [] && ChunksValid(mem, chunks, live[0 := live[0] + [o]], mask) && Exact(mem, chunks)
      requires chunkLimit == chunks[0].limit
      requires var next := NextBase(nextFree, mask, chunkLimit);
               Current(mem, chunks[0], live[0] + [o], mask, next, next, chunkLimit, maybeEmpty, [])
      modifies `objectBase, `nextFree, `growing, `live, `copied, `peak
      ensures Valid() && Amortised() && peak == 0 && growing == [] && live == old(live)[0 := old(live)[0] + [o]]
      ensures objectBase == nextFree == NextBase(old(nextFree), mask, chunkLimit)
    {
      hide ChunksValid, Exact, Current, Align;
      var end := Align(nextFree, mask);
      if end > chunkLimit {
        end := chunkLimit;
      }
      nextFree, objectBase := end, end;
      growing, live := [], live[0 := live[0] + [o]];
      copied, peak := 0, 0;
    }

    /** Whether some chunk holds `obj`. */
    method AllocatedP(obj: int) returns (b: bool)
      ensures b <==> Walk(chunks, obj) < |chunks|
    {
      var lp := chunks;
      while lp != [] && (lp[0].addr >= obj || lp[0].limit < obj)
        invariant Walk(lp, obj) < |lp| <==> Walk(chunks, obj) < |chunks|
        decreases lp
      {
        lp := lp[1..];
      }
      b := lp != [];
    }

    method StartAt(obj: int)
      requires chunks != []
      modifies `objectBase, `nextFree, `chunkLimit, `growing, `copied, `peak
      ensures objectBase == nextFree == obj && chunkLimit == chunks[0].limit
      ensures growing == [] && copied == peak == 0
    {
      objectBase, nextFree, chunkLimit := obj, obj, chunks[0].limit;
      growing, copied, peak := [], 0, 0;
    }

    /** The walk over the chunks `cs` has released the first `i`, and nothing else. */
    ghost predicate Walked(cs: seq<Chunk>, ls: seq<seq<Obj>>, before: Memory, empty: bool, i: nat)
      reads `chunks, `live, `mem, `maybeEmpty, `mask
    {
      && i <= |cs| == |ls| && chunks == cs[i..] && live == ls[i..]
      && ChunksValid(mem, chunks, live, mask) && Exact(mem, chunks) && Lost(before, mem, cs[..i])
      && maybeEmpty == (empty || i > 0)
    }

    method ReleaseNewest(ghost cs: seq<Chunk>, ghost ls: seq<seq<Obj>>,
                         ghost before: Memory, ghost empty: bool, ghost i: nat)
      requires chunks != [] && Walked(cs, ls, before, empty, i)
      modifies `mem, `chunks, `live, `maybeEmpty
      ensures chunks == old(chunks)[1..] && Walked(cs, ls, before, empty, i + 1)
    {
      hide Exact, Release, Lost;
      ChunkLeaves(mem, chunks, live, mask);
      FirstChunk(mem, chunks, live, mask);
      ExactReleased(mem, chunks[0], chunks[1..]);
      LostMore(before, mem, cs[..i], chunks[0]);
      assert cs[..i + 1] == cs[..i] + [cs[i]];
      mem := Release(mem, chunks[0]);
      chunks, live := chunks[1..], live[1..];
      maybeEmpty := true;
    }

    /** The function behind the macro: release chunks from the newest on, until one holds `obj`. */
    method FreeFunction(obj: int) returns (outcome: Outcome)
      requires ChunksValid(mem, chunks, live, mask) && Exact(mem, chunks)
      modifies `mem, `chunks, `live, `maybeEmpty, `objectBase, `nextFree, `chunkLimit
      modifies `growing, `copied, `peak
      ensures Walked(old(chunks), old(live), old(mem), old(maybeEmpty), Walk(old(chunks), obj))
      ensures outcome == if Walk(old(chunks), obj) < |old(chunks)| then Freed else if obj != 0 then Aborted else FreedAll
      ensures outcome == Freed ==> objectBase == nextFree == obj && chunks != [] && chunkLimit == chunks[0].limit
      ensures outcome == Freed ==> growing == [] && copied == peak == 0
    {
      ghost var i := 0;
      NothingLost(mem);
      assert Walked(chunks, live, mem, maybeEmpty, 0);
      hide ChunksValid, Exact, Release, Lost, Walked;
      while chunks != [] && (chunks[0].addr >= obj || chunks[0].limit < obj)
        invariant Walked(old(chunks), old(live), old(mem), old(maybeEmpty), i)
        invariant i <= |old(chunks)| && chunks == old(chunks)[i..]
        invariant i + Walk(chunks, obj) == Walk(old(chunks), obj)
        decreases chunks
      {
        ReleaseNewest(old(chunks), old(live), old(mem), old(maybeEmpty), i);
        i := i + 1;
      }
      if chunks != [] {
        StartAt(obj);
        outcome := Freed;
      } else {
        outcome := if obj != 0 then Aborted else FreedAll;
      }
    }

    /**
     * Free finished object `k` of chunk `i` and everything newer: what was finished before it stays,
     * and exactly the newer chunks are released.
     */
    method Free(obj: int, ghost i: nat, ghost k: nat)
      requires Valid() && i < |live| && k < |live[i]| && live[i][k].addr == obj
      modifies `mem, `chunks, `live, `maybeEmpty, `objectBase, `nextFree, `chunkLimit
      modifies `growing, `copied, `peak
      ensures Valid() && Amortised() && growing == [] && peak == 0
      ensures chunks == old(chunks)[i..] && live == [old(live)[i][..k]] + old(live)[i + 1..]
      ensures Lost(old(mem), mem, old(chunks)[..i])
      ensures Flat(live) <= old(Flat(live)) && |Flat(live)| == |Flat(old(live)[i + 1..])| + k
    {
      hide *;
      ghost var ls := live;
      ReleaseNewer(obj, i, k);
      Forget(k);
      FlatDropped(ls, i, k);
    }

    /** Release the chunks newer than that of the object, and start the next object in its place. */
    method ReleaseNewer(obj: int, ghost i: nat, ghost k: nat)
      requires Valid() && i < |live| && k < |live[i]| && live[i][k].addr == obj
      modifies `mem, `chunks, `live, `maybeEmpty, `objectBase, `nextFree, `chunkLimit
      modifies `growing, `copied, `peak
      ensures chunks == old(chunks)[i..] && live == old(live)[i..] && Lost(old(mem), mem, old(chunks)[..i])
      ensures ChunksValid(mem, chunks, live, mask) && Exact(mem, chunks) && Restarted(obj)
    {
      hide Flat, Holds, Placed, Align, Walk, FirstObject, Exact, Lost;
      NothingLost(mem);
      WalkFindsHome(mem, chunks, live, i, k, mask);
      if chunks[0].addr < obj < chunkLimit {
        nextFree, objectBase := obj, obj;
        growing, copied, peak := [], 0, 0;
      } else {
        var outcome := FreeFunction(obj);
      }
    }

    /** The next object starts at `obj`; empty objects of the current chunk are on record. */
    ghost predicate Restarted(obj: int)
      reads this
    {
      && chunks != [] && live != [] && chunkLimit == chunks[0].limit
      && objectBase == nextFree == obj && growing == [] && copied == peak == 0
      && (maybeEmpty || forall k :: 0 <= k < |live[0]| ==> live[0][k].data != [])
    }

    /** The freed object and those behind it in its chunk are gone. */
    ghost method Forget(k: nat)
      requires ChunksValid(mem, chunks, live, mask) && Exact(mem, chunks)
      requires live != [] && k < |live[0]| && Restarted(live[0][k].addr)
      modifies `live
      ensures Valid() && Amortised() && growing == [] && peak == 0
      ensures live == old(live)[0 := old(live)[0][..k]]
    {
      hide Exact, Holds, Placed, Align, FirstObject;
      CurrentAfterFree(mem, chunks[0], live[0], k, mask, maybeEmpty);
      ObjectsDropped(mem, chunks, live, k, mask);
      live := live[0 := live[0][..k]];
    }
  }

  lemma {:induction false} WithoutSecond<T>(x: T, s: seq<T>)
    requires s != []
    ensures |[x] + s| >= 2 && [([x] + s)[0]] + ([x] + s)[2..] == [x] + s[1..]
  {
  }

  lemma {:induction false} ExactSame(mem: Memory, mem': Memory, chunks: seq<Chunk>)
    requires Exact(mem, chunks) && mem'.Keys == mem.Keys
    ensures Exact(mem', chunks)
  {
    hide Covered;
    assert forall a :: a in mem' <==> a in mem;
  }

  lemma {:induction false} HoldsPrefix(mem: Memory, at: int, data: seq<byte>, n: nat)
    requires n <= |data| && Holds(mem, at, data)
    ensures Holds(mem, at, data[..n])
  {
  }

  lemma {:induction false} ReleasedElsewhere(mem: Memory, c: Chunk, d: Chunk, at: int, data: seq<byte>)
    requires Apart(c, d) && c.addr <= at && at + |data| <= c.limit && Holds(mem, at, data)
    ensures Holds(Release(mem, d), at, data)
  {
    HoldsFramed(mem, Release(mem, d), at, data);
  }

  lemma {:induction false} FirstChunk(mem: Memory, chunks: seq<Chunk>, live: seq<seq<Obj>>, mask: nat)
    requires chunks != [] && ChunksValid(mem, chunks, live, mask)
    ensures chunks == [chunks[0]] + chunks[1..]
    ensures forall i :: 0 <= i < |chunks| - 1 ==> Apart(chunks[0], chunks[1..][i])
  {
  }

  lemma {:induction false} SecondChunk(mem: Memory, chunks: seq<Chunk>, live: seq<seq<Obj>>, mask: nat)
    requires |chunks| >= 2 && ChunksValid(mem, chunks, live, mask)
    ensures |live| == |chunks| && chunks == [chunks[0]] + chunks[1..] && live == [live[0]] + live[1..]
    ensures chunks == [chunks[0]] + ([chunks[1]] + chunks[2..])
    ensures chunks[1..][1..] == chunks[2..] && live[1..][1..] == live[2..]
    ensures Apart(chunks[0], chunks[1]) && forall i :: 0 <= i < |chunks| - 2 ==> Apart(chunks[1], chunks[2..][i])
  {
  }

  lemma {:induction false} NothingLost(mem: Memory)
    ensures Lost(mem, mem, [])
  {
    assert forall a :: !Covered([], a);
  }

  lemma {:induction false} WalkIsFirst(chunks: seq<Chunk>, obj: int, j: nat)
    requires j < |chunks| && InChunk(chunks[j], obj)
    ensures Walk(chunks, obj) <= j
  {
    if j == 0 || InChunk(chunks[0], obj) {
    } else {
      WalkIsFirst(chunks[1..], obj, j - 1);
    }
  }

  /** The walk stops at the chunk of a finished object, also for an empty object at the end of a chunk. */
  lemma {:induction false} WalkFindsHome(mem: Memory, chunks: seq<Chunk>, live: seq<seq<Obj>>, i: nat, k: nat, mask: nat)
    requires ChunksValid(mem, chunks, live, mask) && i < |live| && k < |live[i]|
    ensures Walk(chunks, live[i][k].addr) == i
  {
    var obj := live[i][k].addr;
    assert Placed(mem, chunks[i], live[i][k], mask);
    AlignProperties(chunks[i].addr + HEADER, mask);
    var w := Walk(chunks, obj);
    WalkIsFirst(chunks, obj, i);
    assert w < i ==> Apart(chunks[w], chunks[i]);
  }

  lemma {:induction false} ObjectFinished(mem: Memory, chunks: seq<Chunk>, live: seq<seq<Obj>>, o: Obj, mask: nat)
    requires ChunksValid(mem, chunks, live, mask) && chunks != []
    requires Placed(mem, chunks[0], o, mask)
    requires live[0] == [] ==> o.addr == FirstObject(chunks[0], mask)
    requires forall k :: 0 <= k < |live[0]| ==> live[0][k].End() <= o.addr
    ensures ChunksValid(mem, chunks, live[0 := live[0] + [o]], mask)
    ensures Flat(live[0 := live[0] + [o]]) == Flat(live) + [o]
  {
    var live' := live[0 := live[0] + [o]];
    assert ChunkValid(mem, chunks[0], live[0] + [o], mask);
    assert live'[1..] == live[1..];
    assert Flat(live[1..]) + (live[0] + [o]) == Flat(live[1..]) + live[0] + [o];
  }

  lemma {:induction false} ObjectsDropped(mem: Memory, chunks: seq<Chunk>, live: seq<seq<Obj>>, k: nat, mask: nat)
    requires ChunksValid(mem, chunks, live, mask) && chunks != [] && k < |live[0]|
    ensures ChunksValid(mem, chunks, live[0 := live[0][..k]], mask)
  {
    assert ChunkValid(mem, chunks[0], live[0][..k], mask);
  }

  lemma {:induction false} FlatDropped(ls: seq<seq<Obj>>, i: nat, k: nat)
    requires i < |ls| && k <= |ls[i]|
    ensures ls[i..][0 := ls[i][..k]] == [ls[i][..k]] + ls[i + 1..]
    ensures var left := Flat(ls[i..][0 := ls[i][..k]]); left <= Flat(ls) && |left| == |Flat(ls[i + 1..])| + k
  {
    FlatSuffix(ls, i);
    assert ls[i..][1..] == ls[i + 1..];
    assert ls[i..][0 := ls[i][..k]][1..] == ls[i + 1..];
    var n := |Flat(ls[i + 1..])| + k;
    assert Flat(ls[i..]) == Flat(ls[i + 1..]) + ls[i];
    assert Flat(ls)[..n] == Flat(ls[i..])[..n];
  }

  lemma {:induction false} FlatSuffix(ls: seq<seq<Obj>>, i: nat)
    requires i <= |ls|
    ensures Flat(ls[i..]) <= Flat(ls)
  {
    if i == 0 {
      assert ls[0..] == ls;
    } else {
      FlatSuffix(ls[1..], i - 1);
      assert ls[1..][i - 1..] == ls[i..];
    }
  }

  lemma {:induction false} FlatOf(ls: seq<seq<Obj>>)
    ensures Flat([[]] + ls) == Flat(ls)
    ensures ls != [] && ls[0] == [] ==> Flat([[]] + ls[1..]) == Flat(ls)
  {
    assert ([[]] + ls)[1..] == ls;
    if ls != [] {
      assert ([[]] + ls[1..])[1..] == ls[1..];
    }
  }
}
