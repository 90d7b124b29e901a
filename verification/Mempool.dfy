/** The memory pool of lib/valloc/valloc.c: the bar, the free list and the allocation records
  * together, over the bytes of the machine.
  */
module Pool {
  import opened AllocRecords
  import opened Bits
  import opened FreeMemory
  import opened Headers
  import opened Valloc
  import opened VallocRegions
  import opened Words

  // ----- Powers of two

  /** is_pow2 */
  method TestPow2(size: nat) returns (r: bool)
    ensures r == IsPow2Code(size) && (r <==> IsPow2(size))
  {
    var i := size;
    while i > 0
      invariant IsPow2Code(i) == IsPow2Code(size)
    {
      if i % 2 == 1 {
        IsPow2CodeIsPow2(size);
        return i == 1;
      }
      i := i / 2;
    }
    IsPow2CodeIsPow2(size);
    return false;
  }

  /** next_largest_pow2: the smallest power of two above i, which must be a 64-bit number. */
  method FindNextPow2(i: nat) returns (r: nat)
    ensures r == NextLargestPow2(i)
    ensures i < r && (i != 0 ==> r <= 2 * i)
  {
    var hi, rest := 0, i;
    while rest > 0
      invariant hi + BitLength(rest) == BitLength(i)
    {
      hi := hi + 1;
      rest := rest / 2;
    }
    NextPow2Bounds(i);
    return Pow2(hi);
  }

  // ----- Chunks and blocks

  lemma InvChunksApart(h: Heap, bot: nat, limit: nat, n: nat)
    requires Inv(h, bot, limit) && limit <= n <= U64
    ensures RegionsApart(h.free, n) && Addressable(h.free)
  {
    InvAddressable(h, bot, limit);
    forall i | 0 <= i < |h.free| ensures h.free[i] in Elems(h.free) + Elems(h.live) {}
  }

  /** The address x is in one of the blocks. */
  ghost predicate InBlock(live: seq<Region>, x: nat) {
    exists k :: 0 <= k < |live| && live[k].start <= x < live[k].End()
  }

  /** The bytes of the blocks are the same. */
  ghost predicate SameInside(m: seq<Byte>, m': seq<Byte>, live: seq<Region>) {
    |m'| == |m| && forall x: nat :: x < |m| && InBlock(live, x) ==> m'[x] == m[x]
  }

  /** Bytes that are neither free nor in the new block can only be in the other blocks. */
  lemma BlocksUntouched(h: Heap, bot: nat, limit: nat, m: seq<Byte>, m': seq<Byte>)
    requires Inv(h, bot, limit) && SameOutside(m, m', h.free)
    ensures SameInside(m, m', h.live)
  {
    forall x: nat | x < |m| && InBlock(h.live, x) ensures m'[x] == m[x] {
      forall k | 0 <= k < |h.free| ensures !(h.free[k].start <= x < h.free[k].End()) {
        var i :| 0 <= i < |h.live| && h.live[i].start <= x < h.live[i].End();
        assert h.free[k] in Elems(h.free) + Elems(h.live) && h.live[i] in Elems(h.free) + Elems(h.live);
        assert h.live[i] in Elems(h.live) && h.free[k] in Elems(h.free);
        assert Disjoint(h.free[k], h.live[i]);
      }
    }
  }

  lemma RemoveMiddle(after: seq<Region>, before: seq<Region>, b: Region, rest: seq<Region>)
    ensures RemoveAt(after + (before + ([b] + rest)), |after| + |before|) == after + before + rest
    ensures (after + (before + ([b] + rest)))[|after| + |before|] == b
  {
  }

  /** The newest block is clear of the free chunks. */
  lemma BlockClear(h: Heap, bot: nat, limit: nat)
    requires Inv(h, bot, limit) && h.live != []
    ensures forall k :: 0 <= k < |h.free| ==> Disjoint(h.free[k], h.live[0]) && HEADER_SIZE <= h.free[k].size
    ensures HEADER_SIZE <= h.live[0].size && h.live[0].End() <= limit
  {
    assert h.live[0] in Elems(h.live) && h.live[0] in Elems(h.free) + Elems(h.live);
    forall k | 0 <= k < |h.free| ensures Disjoint(h.free[k], h.live[0]) && HEADER_SIZE <= h.free[k].size {
      assert h.free[k] in Elems(h.free) && h.free[k] in Elems(h.free) + Elems(h.live);
    }
  }

  lemma NewBlockFacts(h: Heap, h': Heap, bot: nat, limit: nat, size: nat, alignment: nat)
    requires Inv(h, bot, limit) && HEADER_SIZE <= size && 0 < alignment && Addressable(h.free)
    requires var o := Valloc.AllocBlock(h, bot, size, alignment); o.Done? && o.heap == h'
    ensures h'.live != [] && h'.live[0].start == Valloc.AllocBlock(h, bot, size, alignment).p
    ensures size <= h'.live[0].size && h'.live[0].End() <= limit
    ensures forall x :: x in h.live ==> Disjoint(x, h'.live[0])
    ensures forall k :: 0 <= k < |h'.free| ==>
      Disjoint(h'.free[k], Region(h'.live[0].start, size)) && HEADER_SIZE <= h'.free[k].size
  {
    AllocBlockKeepsInv(h, bot, limit, size, alignment);
    BlockClear(h', bot, limit);
  }

  lemma StillUntouched(live: seq<Region>, b: Region, m0: seq<Byte>, m1: seq<Byte>, m2: seq<Byte>, p: nat, size: nat)
    requires SameInside(m0, m1, live) && |m2| == |m1|
    requires p == b.start && size <= b.size && forall x :: x in live ==> Disjoint(x, b)
    requires forall x: nat :: x < |m1| && !(p <= x < p + size) ==> m2[x] == m1[x]
    ensures SameInside(m0, m2, live)
  {
    forall x: nat | x < |m0| && InBlock(live, x) ensures m2[x] == m0[x] {
      var k :| 0 <= k < |live| && live[k].start <= x < live[k].End();
      assert Disjoint(live[k], b);
    }
  }

  /** A block that is being freed is apart from the free chunks. */
  lemma FreedApart(h: Heap, bot: nat, limit: nat, n: nat, k: nat)
    requires Inv(h, bot, limit) && limit <= n <= U64 && k < |h.live|
    ensures RegionsApart([h.live[k]] + h.free, n) && Addressable([h.live[k]] + h.free)
  {
    InvChunksApart(h, bot, limit, n);
    assert h.live[k] in Elems(h.live) && h.live[k] in Elems(h.free) + Elems(h.live);
    forall i | 0 <= i < |h.free| ensures Disjoint(h.live[k], h.free[i]) {
      assert h.free[i] in Elems(h.free) && h.free[i] in Elems(h.free) + Elems(h.live);
    }
  }

  lemma FreedFacts(h: Heap, bot: nat, limit: nat, n: nat, p: nat)
    requires Inv(h, bot, limit) && limit <= n <= U64 && Freeable(h.live, p)
    ensures var k := FindBlock(h.live, p, 0);
            k < |h.live| ==>
              && h.live[k].start == p
              && RegionsApart([h.live[k]] + h.free, n)
              && Addressable([h.live[k]] + h.free)
  {
    var k := FindBlock(h.live, p, 0);
    if k < |h.live| {
      FreedApart(h, bot, limit, n, k);
    }
  }

  lemma RemainingUntouched(h: Heap, bot: nat, limit: nat, k: nat, m: seq<Byte>, m': seq<Byte>)
    requires Inv(h, bot, limit) && k < |h.live| && SameOutside(m, m', [h.live[k]] + h.free)
    ensures SameInside(m, m', RemoveAt(h.live, k))
  {
    var rest, freed := RemoveAt(h.live, k), [h.live[k]] + h.free;
    forall x: nat | x < |m| && InBlock(rest, x) ensures m'[x] == m[x] {
      var i :| 0 <= i < |rest| && rest[i].start <= x < rest[i].End();
      var j := if i < k then i else i + 1;
      assert rest[i] == h.live[j] && h.live[j] != h.live[k];
      forall l | 0 <= l < |freed| ensures !(freed[l].start <= x < freed[l].End()) {
        RemainingClear(h, bot, limit, j, freed[l]);
      }
    }
  }

  lemma RemainingClear(h: Heap, bot: nat, limit: nat, j: nat, r: Region)
    requires Inv(h, bot, limit) && j < |h.live| && h.live[j] != r && (r in h.live || r in h.free)
    ensures Disjoint(h.live[j], r)
  {
    assert h.live[j] in Elems(h.free) + Elems(h.live) && r in Elems(h.free) + Elems(h.live);
  }

  lemma ChunkOutcome(h: Heap, bot: nat, size: nat, alignment: nat)
    requires 0 < alignment && Addressable(h.free) && bot <= h.top && 0 <= Best(h.free, size, alignment)
    ensures var k := Best(h.free, size, alignment);
            var c := h.free[k];
            var b := BlockIn(c, size, alignment);
            && c.start <= b.start && b.End() <= c.End()
            && Valloc.AllocBlock(h, bot, size, alignment) ==
               if |h.live| >= NUM_RECORDS then Failed
               else Done(Heap(h.top, After(c, b) + Before(c, b) + RemoveAt(h.free, k), [b] + h.live), b.start)
  {
  }

  lemma BarOutcome(h: Heap, bot: nat, size: nat, alignment: nat)
    requires 0 < alignment && Addressable(h.free) && bot <= h.top && Best(h.free, size, alignment) < 0
    ensures var p := if size <= h.top then AlignPow2(h.top - size, alignment) else 0;
            Valloc.AllocBlock(h, bot, size, alignment) ==
            if size <= h.top - bot && bot <= p && |h.live| < NUM_RECORDS && p <= h.top
            then Done(Heap(p, h.free, [Region(p, h.top - p)] + h.live), p)
            else Failed
  {
    if size <= h.top {
      AlignPow2Spec(h.top - size, alignment);
    }
  }

  class Mempool {
    const list: FreeList
    const records: AllocList
    const bot: nat
    const limit: nat
    var top: nat

    ghost predicate Valid()
      reads this, list, records, records.records
    {
      && list.Valid() && records.Valid()
      && limit <= |list.ram| <= U64
      && Inv(Contents(), bot, limit)
    }

    ghost function Contents(): Heap
      requires records.Valid()
      reads this, list, records, records.records
    {
      Heap(top, list.chunks, records.Live())
    }

    /** init_valloc, on the memory between BOT_OF_HEAP and TOP_OF_HEAP. */
    constructor (ram: seq<Byte>, bot: nat, limit: nat)
      requires 0 < bot <= limit <= |ram| <= U64 && limit < U64
      ensures Valid() && Contents() == Heap(limit, [], []) && list.ram == ram
      ensures fresh(list) && fresh(records) && fresh(records.records)
    {
      list := new FreeList(ram);
      records := new AllocList();
      this.bot, this.limit, top := bot, limit, limit;
      new;
      EmptyHeap(bot, limit);
    }

    /** __alloc_with_alignment */
    method AllocBlock(size: nat, alignment: nat) returns (ok: bool, p: nat)
      requires Valid() && HEADER_SIZE <= size && 0 < alignment && NoWrap(limit, size, alignment)
      modifies this, list, records, records.records
      ensures Addressable(old(Contents()).free)
      ensures var o := Valloc.AllocBlock(old(Contents()), bot, size, alignment);
              && ok == o.Done?
              && (ok ==> Valid() && Contents() == o.heap && p == o.p)
      ensures ok ==> SameOutside(old(list.ram), list.ram, old(list.chunks))
    {
      ghost var h := Contents();
      InvChunksApart(h, bot, limit, |list.ram|);
      AllocBlockKeepsInv(h, bot, limit, size, alignment);
      ok, p := Place(h, size, alignment);
    }

    method Place(ghost h: Heap, size: nat, alignment: nat) returns (ok: bool, p: nat)
      requires list.Valid() && records.Valid() && h == Contents() && bot <= top
      requires HEADER_SIZE <= size && 0 < alignment && Addressable(h.free) && RegionsApart(h.free, |list.ram|)
      modifies this`top, list, records, records.records
      ensures var o := Valloc.AllocBlock(h, bot, size, alignment);
              && ok == o.Done?
              && (ok ==> p == o.p && top == o.heap.top && list.chunks == o.heap.free)
              && (ok ==> records.Valid() && records.Live() == o.heap.live)
      ensures ok ==> list.Valid() && SameOutside(old(list.ram), list.ram, old(list.chunks))
    {
      var chunk := list.FindBest(size, alignment);
      if chunk != 0 {
        ChunkOutcome(h, bot, size, alignment);
        ok, p := AllocInChunk(chunk, size, alignment);
      } else {
        BarOutcome(h, bot, size, alignment);
        ok, p := AllocBelowBar(size, alignment);
      }
    }

    method AllocInChunk(chunk: nat, size: nat, alignment: nat) returns (ok: bool, p: nat)
      requires list.Valid() && records.Valid() && RegionsApart(list.chunks, |list.ram|) && Addressable(list.chunks)
      requires HEADER_SIZE <= size && 0 < alignment && 0 <= Best(list.chunks, size, alignment)
      requires chunk == list.order[Best(list.chunks, size, alignment)]
      modifies list, records, records.records
      ensures ok == (|old(records.Live())| < NUM_RECORDS)
      ensures var k := Best(old(list.chunks), size, alignment);
              var c := old(list.chunks)[k];
              var b := BlockIn(c, size, alignment);
              && c.start <= b.start && b.End() <= c.End() && p == b.start
              && (ok ==> list.chunks == After(c, b) + Before(c, b) + RemoveAt(old(list.chunks), k))
              && (ok ==> records.Valid() && records.Live() == [b] + old(records.Live()))
      ensures ok ==> list.Valid() && SameOutside(old(list.ram), list.ram, old(list.chunks))
    {
      ghost var m0, was, k := list.ram, list.chunks, Best(list.chunks, size, alignment);
      ghost var c := was[k];
      ghost var b := BlockIn(c, size, alignment);
      var fits;
      fits, p := list.Split(chunk, size, alignment, k);
      assert fits;
      ok := records.Alloc(p, size);
      if ok {
        DropMiddle(p, After(c, b), Before(c, b), b, RemoveAt(was, k), m0, was);
      }
    }

    /** The new block leaves the free list. */
    method DropMiddle(p: nat, ghost after: seq<Region>, ghost before: seq<Region>, ghost b: Region,
                      ghost rest: seq<Region>, ghost m0: seq<Byte>, ghost was: seq<Region>)
      requires list.Valid() && list.chunks == after + (before + ([b] + rest)) && p == b.start
      requires PartsOf(list.chunks, was, |list.ram|) && SameOutside(m0, list.ram, was)
      modifies list
      ensures list.Valid() && list.chunks == after + before + rest && SameOutside(m0, list.ram, was)
    {
      RemoveMiddle(after, before, b, rest);
      list.RemovePart(p, |after| + |before|, m0, was);
    }

    method AllocBelowBar(size: nat, alignment: nat) returns (ok: bool, p: nat)
      requires records.Valid() && bot <= top && 0 < alignment
      modifies this`top, records, records.records
      ensures size <= old(top) ==> p == AlignPow2(old(top) - size, alignment)
      ensures ok == (size <= old(top) - bot && bot <= p && |old(records.Live())| < NUM_RECORDS)
      ensures ok ==> top == p <= old(top) && records.Valid()
      ensures ok ==> records.Live() == [Region(p, old(top) - p)] + old(records.Live())
    {
      if size > top - bot {
        return false, if size <= top then AlignPow2(top - size, alignment) else 0;
      }
      AlignPow2Spec(top - size, alignment);
      p := AlignPow2(top - size, alignment);
      if p < bot {
        return false, p;
      }
      ok := records.Alloc(p, top - p);
      top := p;
    }

    /** An allocation of the size and alignment that alloc and alloc_with_alignment settle on: it
      * fails exactly when the functional allocator does; otherwise the pool is what the functional
      * allocator says, the block is zeroed, and no byte of any other block has changed. */
    method AllocZeroed(size: nat, alignment: nat) returns (ok: bool, p: nat)
      requires Valid() && HEADER_SIZE <= size && 0 < alignment && NoWrap(limit, size, alignment)
      modifies this, list, records, records.records
      ensures Addressable(old(Contents()).free)
      ensures var o := Valloc.AllocBlock(old(Contents()), bot, size, alignment);
              && ok == o.Done?
              && (ok ==> Valid() && Contents() == o.heap && p == o.p)
      ensures ok ==> p + size <= |list.ram| && forall x: nat :: p <= x < p + size ==> list.ram[x] == 0
      ensures ok ==> SameInside(old(list.ram), list.ram, old(records.Live()))
    {
      ghost var h, m0 := Contents(), list.ram;
      ok, p := AllocBlock(size, alignment);
      if ok {
        ghost var m1 := list.ram;
        NewBlockFacts(h, Contents(), bot, limit, size, alignment);
        BlocksUntouched(h, bot, limit, m0, m1);
        list.Memset(p, 0, size);
        StillUntouched(h.live, records.Live()[0], m0, m1, list.ram, p, size);
      }
    }

    /** alloc */
    method Alloc(size: nat) returns (ok: bool, p: nat)
      requires Valid() && Allowed(Contents(), limit, AllocOp(size))
      modifies this, list, records, records.records
      ensures Addressable(old(Contents()).free)
      ensures var o := Valloc.Alloc(old(Contents()), bot, size);
              && ok == o.Done?
              && (ok ==> Valid() && Contents() == o.heap && p == o.p)
      ensures var n := RoundedSize(size); ok ==> p + n <= |list.ram| && forall x: nat :: p <= x < p + n ==> list.ram[x] == 0
      ensures ok ==> SameInside(old(list.ram), list.ram, old(records.Live()))
    {
      RequestSizes(size, 8);
      var n := size;
      var pow2 := TestPow2(n);
      if !pow2 {
        n := FindNextPow2(n);
      }
      var alignment := if n <= 8 then n else 8;
      if n < HEADER_SIZE {
        n := FindNextPow2(HEADER_SIZE);
        alignment := 8;
      }
      assert n == RoundedSize(size) && alignment == 8;
      ok, p := AllocZeroed(n, alignment);
    }

    /** alloc_with_alignment */
    method AllocAligned(size: nat, alignment: nat) returns (ok: bool, p: nat)
      requires Valid() && Allowed(Contents(), limit, AlignedOp(size, alignment))
      modifies this, list, records, records.records
      ensures Addressable(old(Contents()).free)
      ensures var o := Valloc.AllocAligned(old(Contents()), bot, size, alignment);
              && ok == o.Done?
              && (ok ==> Valid() && Contents() == o.heap && p == o.p)
      ensures var n := RaisedRequest(size, alignment).0;
              ok ==> p + n <= |list.ram| && forall x: nat :: p <= x < p + n ==> list.ram[x] == 0
      ensures ok ==> SameInside(old(list.ram), list.ram, old(records.Live()))
    {
      RequestSizes(size, alignment);
      var n, a := size, alignment;
      if n < HEADER_SIZE {
        n := FindNextPow2(HEADER_SIZE);
        a := 8;
      }
      if a < RECORD_SIZE {
        a := FindNextPow2(RECORD_SIZE);
      }
      assert (n, a) == RaisedRequest(size, alignment);
      ok, p := AllocZeroed(n, a);
    }

    /** free: it fails exactly when the functional free does; otherwise the pool is what the
      * functional free says, and no byte of any remaining block has changed. */
    method Free(p: nat) returns (ok: bool)
      requires Valid() && Allowed(Contents(), limit, FreeOp(p))
      modifies this, list, records, records.records
      ensures var o := Valloc.Free(old(Contents()), p);
              && ok == o.Done?
              && (ok ==> Valid() && Contents() == o.heap)
      ensures ok ==> SameInside(old(list.ram), list.ram, records.Live())
    {
      ghost var h, m0, k := Contents(), list.ram, FindBlock(records.Live(), p, 0);
      FreeKeepsInv(h, bot, limit, p);
      FreedFacts(h, bot, limit, |m0|, p);
      ok := FreeBlock(p, h);
      if ok {
        RemainingUntouched(h, bot, limit, k, m0, list.ram);
      }
    }

    method FreeBlock(p: nat, ghost h: Heap) returns (ok: bool)
      requires list.Valid() && records.Valid() && h == Contents()
      requires var k := FindBlock(h.live, p, 0);
               k < |h.live| ==>
                 && h.live[k].start == p
                 && RegionsApart([h.live[k]] + h.free, |list.ram|)
                 && Addressable([h.live[k]] + h.free)
      modifies this, list, records, records.records
      ensures var o := Valloc.Free(h, p);
              && ok == o.Done?
              && (ok ==> list.Valid() && records.Valid() && Contents() == o.heap)
      ensures var k := FindBlock(h.live, p, 0);
              ok ==> SameOutside(old(list.ram), list.ram, [h.live[k]] + h.free)
    {
      ghost var k := FindBlock(h.live, p, 0);
      var chk := records.Find(p);
      if chk == 0 {
        return false;
      }
      var size := records.records[chk - 1].size;
      assert h.live[k] == Region(p, size);
      ok := records.Dealloc(p);
      Release(p, size, h);
    }

    /** The rest of free, once the record has been put back. */
    method Release(p: nat, size: nat, ghost h: Heap)
      requires list.Valid() && records.Valid() && list.chunks == h.free && top == h.top
      requires RegionsApart([Region(p, size)] + h.free, |list.ram|) && Addressable([Region(p, size)] + h.free)
      modifies this`top, list
      ensures list.Valid()
      ensures (top, list.chunks) == Valloc.ShiftTop(h.top, Compact([Region(p, size)] + h.free, records.Live(), 0), records.Live())
      ensures SameOutside(old(list.ram), list.ram, [Region(p, size)] + h.free)
    {
      ghost var m0, chunks1, order1 := list.ram, [Region(p, size)] + h.free, [p] + list.order;
      HeadersOf(chunks1, order1, |list.ram|);
      assert order1[1..] == list.order;
      list.Push(p, size);
      ghost var m1 := list.ram;
      list.CompactTogether(p, records, 0);
      ghost var m2, order2 := list.ram, list.order;
      top := list.ShiftTop(top, records);
      SameButHeadersTrans(m1, m2, list.ram, order2, order1);
      SameButHeadersTrans(m0, m1, list.ram, order1, order1);
      PartsSelf(chunks1, |list.ram|);
      HeadersCovered(m0, m0, list.ram, chunks1, chunks1, order1, |list.ram|);
    }
  }
}
