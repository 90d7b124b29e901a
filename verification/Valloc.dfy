/** The allocator of lib/valloc as functions on the bar, the free list and the list of
  * allocations, both in list order; and what every run of alloc and free preserves.
  */
module Valloc {
  import opened Bits
  import opened VallocRegions

  /** NUM_ALLOC_CHUNKS */
  const NUM_RECORDS := 1024

  /** sizeof(valloc_alloc_chunk) */
  const RECORD_SIZE := 32

  datatype Heap = Heap(top: nat, free: seq<Region>, live: seq<Region>)

  /** An operation either stops the machine or leaves a heap and, for alloc, an address. */
  datatype Outcome = Failed | Done(heap: Heap, p: nat)

  // ----- Lists as sets

  ghost function Elems(s: seq<Region>): set<Region> {
    set r | r in s
  }

  ghost predicate NoDup(s: seq<Region>) {
    forall i, j :: 0 <= i < j < |s| ==> s[i] != s[j]
  }

  function RemoveAt<T>(s: seq<T>, k: nat): (r: seq<T>)
    requires k < |s|
    ensures |r| == |s| - 1
  {
    s[..k] + s[k + 1..]
  }

  lemma ElemsCons(r: Region, s: seq<Region>)
    requires NoDup(s)
    ensures Elems([r] + s) == Elems(s) + {r}
    ensures r !in s ==> NoDup([r] + s)
  {
  }

  lemma ElemsRemoveAt(s: seq<Region>, k: nat)
    requires NoDup(s) && k < |s|
    ensures Elems(RemoveAt(s, k)) == Elems(s) - {s[k]}
    ensures NoDup(RemoveAt(s, k))
  {
    var t := RemoveAt(s, k);
    forall r ensures r in t <==> r in s && r != s[k] {
      if r in s && r != s[k] {
        var i :| 0 <= i < |s| && s[i] == r;
        assert t[if i < k then i else i - 1] == r;
      }
    }
  }

  lemma ElemsUpdate(s: seq<Region>, k: nat, r: Region)
    requires NoDup(s) && k < |s| && (r == s[k] || r !in s)
    ensures Elems(s[k := r]) == Elems(s) - {s[k]} + {r}
    ensures NoDup(s[k := r])
  {
    var t := s[k := r];
    forall x ensures x in t <==> (x in s && x != s[k]) || x == r {
      if x in s && x != s[k] {
        var i :| 0 <= i < |s| && s[i] == x;
        assert t[i] == x;
      }
      assert t[k] == r;
    }
  }

  /** What holds between any two operations on a heap that spans [bot, limit). */
  ghost predicate Inv(h: Heap, bot: nat, limit: nat) {
    && 0 < bot <= h.top
    && limit < U64
    && NoDup(h.free) && NoDup(h.live)
    && |h.live| <= NUM_RECORDS
    && Settled(Elems(h.free), Elems(h.live), h.top, limit)
  }

  // ----- alloc

  predicate Fits(c: Region, size: nat, alignment: nat)
    requires 0 < alignment && c.start < U64
  {
    size + (AlignUpTo(c.start, alignment) - c.start) < c.size
  }

  predicate Addressable(free: seq<Region>) {
    forall k :: 0 <= k < |free| ==> free[k].End() < U64
  }

  /** valloc_freelist_find_best: the position of the smallest chunk that fits, the first of
    * them if there are several; -1 for none. */
  function Best(free: seq<Region>, size: nat, alignment: nat): (b: int)
    requires 0 < alignment && Addressable(free)
    ensures -1 <= b < |free|
    ensures 0 <= b ==> Fits(free[b], size, alignment)
  {
    if free == [] then -1
    else
      var b, last := Best(free[..|free| - 1], size, alignment), |free| - 1;
      if Fits(free[last], size, alignment) && (b < 0 || free[last].size < free[b].size) then last else b
  }

  lemma {:induction false} BestIsBest(free: seq<Region>, size: nat, alignment: nat, k: nat)
    requires 0 < alignment && Addressable(free) && k < |free| && Fits(free[k], size, alignment)
    ensures 0 <= Best(free, size, alignment)
    ensures free[Best(free, size, alignment)].size <= free[k].size
    ensures k < Best(free, size, alignment) ==> free[Best(free, size, alignment)].size < free[k].size
  {
    if k < |free| - 1 {
      BestIsBest(free[..|free| - 1], size, alignment, k);
    } else if 0 <= Best(free[..|free| - 1], size, alignment) {
    }
  }

  /** Where a block goes in a chunk that it fits. */
  function BlockIn(c: Region, size: nat, alignment: nat): Region
    requires 0 < alignment && c.start < U64
  {
    Region(AlignUpTo(c.start, alignment), size)
  }

  /** What is left of the chunk before the block, unless it is too small to keep. */
  function Before(c: Region, b: Region): (r: seq<Region>)
    requires c.start <= b.start
  {
    var left := Region(c.start, b.start - c.start);
    if HEADER_SIZE < left.size then [left] else []
  }

  /** What is left of the chunk after the block, unless it is too small to keep. */
  function After(c: Region, b: Region): (r: seq<Region>)
    requires b.End() <= c.End()
  {
    var right := Region(b.End(), c.End() - b.End());
    if HEADER_SIZE < right.size then [right] else []
  }

  /** __alloc_with_alignment */
  function AllocBlock(h: Heap, bot: nat, size: nat, alignment: nat): Outcome
    requires 0 < alignment && Addressable(h.free) && bot <= h.top
  {
    var k := Best(h.free, size, alignment);
    if 0 <= k then
      var c := h.free[k];
      var b := BlockIn(c, size, alignment);
      if |h.live| >= NUM_RECORDS then Failed
      else Done(Heap(h.top, After(c, b) + Before(c, b) + RemoveAt(h.free, k), [b] + h.live), b.start)
    else if size > h.top - bot then Failed
    else
      var p := AlignPow2(h.top - size, alignment);
      if p < bot || |h.live| >= NUM_RECORDS then Failed
      else Done(Heap(p, h.free, [Region(p, if p <= h.top then h.top - p else 0)] + h.live), p)
  }

  /** is_pow2 */
  function IsPow2Code(i: nat): bool {
    if i == 0 then false
    else if i % 2 == 1 then i == 1
    else IsPow2Code(i / 2)
  }

  function BitLength(i: nat): nat {
    if i == 0 then 0 else 1 + BitLength(i / 2)
  }

  /** next_largest_pow2 */
  function NextLargestPow2(i: nat): nat {
    Pow2(BitLength(i))
  }

  /** The size that alloc asks for. */
  function RoundedSize(size: nat): nat {
    var n := if IsPow2Code(size) then size else NextLargestPow2(size);
    if n < HEADER_SIZE then NextLargestPow2(HEADER_SIZE) else n
  }

  function Alloc(h: Heap, bot: nat, size: nat): Outcome
    requires Addressable(h.free) && bot <= h.top
  {
    AllocBlock(h, bot, RoundedSize(size), 8)
  }

  /** The size and alignment that alloc_with_alignment asks for: a size below that of a
    * free-list header is replaced, and the requested alignment with it. */
  function RaisedRequest(size: nat, alignment: nat): (r: (nat, nat))
    ensures 0 < r.1
  {
    var s := if size < HEADER_SIZE then NextLargestPow2(HEADER_SIZE) else size;
    var a := if size < HEADER_SIZE then 8 else alignment;
    (s, if a < RECORD_SIZE then NextLargestPow2(RECORD_SIZE) else a)
  }

  function AllocAligned(h: Heap, bot: nat, size: nat, alignment: nat): Outcome
    requires Addressable(h.free) && bot <= h.top
  {
    var (s, a) := RaisedRequest(size, alignment);
    AllocBlock(h, bot, s, a)
  }

  // ----- free

  predicate Allocated(live: seq<Region>, lo: nat, hi: nat) {
    exists k :: 0 <= k < |live| && lo <= live[k].start <= hi
  }

  /** __valloc_freelist_compact_chunk_possibility */
  predicate Joins(live: seq<Region>, lo: Region, hi: Region) {
    lo.End() == hi.start || !Allocated(live, lo.End(), hi.start)
  }

  /** The chunks at positions i and j can be merged. */
  predicate CanMerge(free: seq<Region>, live: seq<Region>, i: nat, j: nat)
    requires i < |free| && j < |free|
  {
    if free[i].start < free[j].start then Joins(live, free[i], free[j])
    else i != j && Joins(live, free[j], free[i])
  }

  /** The first position from j on that can be merged with position i, or the length. */
  function FirstMerge(free: seq<Region>, live: seq<Region>, i: nat, j: nat): (m: nat)
    requires i < |free| && j <= |free|
    ensures j <= m <= |free|
    ensures m < |free| ==> CanMerge(free, live, i, m)
    ensures forall k :: j <= k < m ==> !CanMerge(free, live, i, k)
    decreases |free| - j
  {
    if j == |free| || CanMerge(free, live, i, j) then j else FirstMerge(free, live, i, j + 1)
  }

  /** The free list with the chunk at position hi merged into the one at position lo. */
  function MergeInto(free: seq<Region>, lo: nat, hi: nat): (r: seq<Region>)
    requires lo < |free| && hi < |free| && free[lo].start <= free[hi].End()
    ensures |r| == |free| - 1
  {
    RemoveAt(free[lo := Merged(free[lo], free[hi])], hi)
  }

  function PositionAfter(k: nat, removed: nat): nat {
    if removed < k then k - 1 else k
  }

  /** __compact_together on the chunk at position i */
  function Compact(free: seq<Region>, live: seq<Region>, i: nat): (r: seq<Region>)
    requires i < |free|
    decreases |free|
  {
    var j := FirstMerge(free, live, i, 0);
    if j == |free| then free
    else
      var lo, hi := if free[i].start < free[j].start then i else j, if free[i].start < free[j].start then j else i;
      if lo == hi then free
      else Compact(MergeInto(free, lo, hi), live, PositionAfter(lo, hi))
  }

  /** The position of the lowest chunk, the first of them in the list. */
  function Lowest(free: seq<Region>): (m: nat)
    requires free != []
    ensures m < |free|
    ensures forall k :: 0 <= k < |free| ==> free[m].start <= free[k].start
  {
    if |free| == 1 then 0
    else
      var m, last := Lowest(free[..|free| - 1]), |free| - 1;
      if free[last].start < free[m].start then last else m
  }

  /** __shift_top */
  function ShiftTop(top: nat, free: seq<Region>, live: seq<Region>): (nat, seq<Region>)
    decreases |free|
  {
    if free == [] then (top, free)
    else
      var low := free[Lowest(free)];
      if Allocated(live, top, low.start) then (top, free)
      else ShiftTop(low.End(), RemoveAt(free, Lowest(free)), live)
  }

  /** valloc_alloclist_find_alloc_chunk: the position of the first block around p, or the length. */
  function FindBlock(live: seq<Region>, p: nat, k: nat): (m: nat)
    requires k <= |live|
    ensures k <= m <= |live|
    ensures m < |live| ==> live[m].start <= p < live[m].End()
    ensures forall j :: k <= j < m ==> !(live[j].start <= p < live[j].End())
    decreases |live| - k
  {
    if k == |live| || live[k].start <= p < live[k].End() then k else FindBlock(live, p, k + 1)
  }

  function Free(h: Heap, p: nat): Outcome {
    var k := FindBlock(h.live, p, 0);
    if k == |h.live| then Failed
    else
      var live := RemoveAt(h.live, k);
      var (top, free) := ShiftTop(h.top, Compact([Region(p, h.live[k].size)] + h.free, live, 0), live);
      Done(Heap(top, free, live), p)
  }

  // ----- alloc keeps the heap settled

  lemma InvAddressable(h: Heap, bot: nat, limit: nat)
    requires Inv(h, bot, limit)
    ensures Addressable(h.free)
  {
    forall k | 0 <= k < |h.free| ensures h.free[k].End() < U64 {
      assert h.free[k] in Elems(h.free) + Elems(h.live);
    }
  }

  /** The block that AllocBlock adds. */
  ghost predicate NewBlock(h: Heap, o: Outcome, bot: nat, limit: nat, size: nat, alignment: nat)
    requires o.Done?
  {
    && |o.heap.live| > 0
    && var b := o.heap.live[0];
       && o.heap.live == [b] + h.live
       && o.p == b.start
       && size <= b.size
       && bot <= b.start && b.End() <= limit
       && (forall x :: x in h.live ==> Disjoint(x, b))
       && (IsPow2(alignment) && 0 < alignment <= U64 ==> b.start % alignment == 0)
  }

  lemma ElemsConsNew(part: seq<Region>, free: seq<Region>)
    requires NoDup(free) && |part| <= 1 && (part != [] ==> part[0] !in free)
    ensures Elems(part + free) == Elems(free) + Elems(part) && NoDup(part + free)
  {
    if part == [] {
      assert part + free == free;
    } else {
      ElemsCons(part[0], free);
      assert part == [part[0]];
    }
  }

  lemma ElemsLeftover(c: Region, b: Region, free: seq<Region>)
    requires c.start <= b.start && b.End() <= c.End() && 0 < b.size && NoDup(free)
    requires forall r :: r in free ==> r.start < c.start || c.End() <= r.start
    ensures var rest := Elems(After(c, b)) + Elems(Before(c, b));
            && rest <= {Region(c.start, b.start - c.start), Region(b.End(), c.End() - b.End())}
            && (forall r :: r in rest ==> HEADER_SIZE <= r.size)
            && Elems(After(c, b) + Before(c, b) + free) == Elems(free) + rest
    ensures NoDup(After(c, b) + Before(c, b) + free)
  {
    var after, before := After(c, b), Before(c, b);
    assert after + before + free == after + (before + free);
    ElemsConsNew(before, free);
    ElemsConsNew(after, before + free);
  }

  lemma CarveKeepsInv(h: Heap, bot: nat, limit: nat, k: nat, size: nat, alignment: nat)
    requires Inv(h, bot, limit) && Addressable(h.free)
    requires HEADER_SIZE <= size && 0 < alignment
    requires k < |h.free| && Fits(h.free[k], size, alignment) && |h.live| < NUM_RECORDS
    ensures var c := h.free[k];
            var b := BlockIn(c, size, alignment);
            && c.start <= b.start && b.End() <= c.End()
            && bot <= b.start && b.End() <= limit
            && (forall x :: x in h.live ==> Disjoint(x, b))
            && Inv(Heap(h.top, After(c, b) + Before(c, b) + RemoveAt(h.free, k), [b] + h.live), bot, limit)
  {
    var c := h.free[k];
    var b := BlockIn(c, size, alignment);
    AlignUpToSpec(c.start, alignment);
    assert c in Elems(h.free) && c in Elems(h.free) + Elems(h.live);
    var others := RemoveAt(h.free, k);
    ElemsRemoveAt(h.free, k);
    forall r | r in others ensures r.start < c.start || c.End() <= r.start {
      assert r in Elems(others) && r in Elems(h.free) + Elems(h.live);
      assert Disjoint(r, c);
    }
    ElemsLeftover(c, b, others);
    var rest := Elems(After(c, b)) + Elems(Before(c, b));
    CarveSettled(Elems(h.free), Elems(h.live), h.top, limit, c, b, rest);
    forall x | x in h.live ensures Disjoint(x, b) && x != b {
      assert x in Elems(h.live) && x in Elems(h.free) + Elems(h.live);
    }
    ElemsCons(b, h.live);
  }

  lemma LowerKeepsInv(h: Heap, bot: nat, limit: nat, p: nat)
    requires Inv(h, bot, limit) && |h.live| < NUM_RECORDS
    requires bot <= p && p + HEADER_SIZE <= h.top
    ensures var b := Region(p, h.top - p);
            && (forall x :: x in h.live ==> Disjoint(x, b))
            && b.End() <= limit
            && Inv(Heap(p, h.free, [b] + h.live), bot, limit)
  {
    var b := Region(p, h.top - p);
    LowerSettled(Elems(h.free), Elems(h.live), h.top, limit, b);
    forall x | x in h.live ensures Disjoint(x, b) && x != b {
      assert x in Elems(h.live) && x in Elems(h.free) + Elems(h.live);
    }
    ElemsCons(b, h.live);
  }

  lemma AllocBlockKeepsInv(h: Heap, bot: nat, limit: nat, size: nat, alignment: nat)
    requires Inv(h, bot, limit) && HEADER_SIZE <= size && 0 < alignment
    ensures Addressable(h.free)
    ensures var o := AllocBlock(h, bot, size, alignment);
            o.Done? ==> Inv(o.heap, bot, limit) && NewBlock(h, o, bot, limit, size, alignment)
  {
    InvAddressable(h, bot, limit);
    var o, k := AllocBlock(h, bot, size, alignment), Best(h.free, size, alignment);
    if o.Done? {
      if 0 <= k {
        AllocFromChunk(h, bot, limit, size, alignment);
      } else {
        AllocFromBar(h, bot, limit, size, alignment);
      }
    }
  }

  lemma AllocFromChunk(h: Heap, bot: nat, limit: nat, size: nat, alignment: nat)
    requires Inv(h, bot, limit) && HEADER_SIZE <= size && 0 < alignment && Addressable(h.free)
    requires 0 <= Best(h.free, size, alignment) && |h.live| < NUM_RECORDS
    ensures var o := AllocBlock(h, bot, size, alignment);
            Inv(o.heap, bot, limit) && NewBlock(h, o, bot, limit, size, alignment)
  {
    var k := Best(h.free, size, alignment);
    AlignUpToSpec(h.free[k].start, alignment);
    CarveKeepsInv(h, bot, limit, k, size, alignment);
  }

  lemma AllocFromBar(h: Heap, bot: nat, limit: nat, size: nat, alignment: nat)
    requires Inv(h, bot, limit) && HEADER_SIZE <= size && 0 < alignment && Addressable(h.free)
    requires Best(h.free, size, alignment) < 0 && AllocBlock(h, bot, size, alignment).Done?
    ensures var o := AllocBlock(h, bot, size, alignment);
            Inv(o.heap, bot, limit) && NewBlock(h, o, bot, limit, size, alignment)
  {
    var p := FromBar(h, bot, size, alignment);
    LowerKeepsInv(h, bot, limit, p);
  }

  lemma FromBar(h: Heap, bot: nat, size: nat, alignment: nat) returns (p: nat)
    requires 0 < alignment && Addressable(h.free) && bot <= h.top
    requires Best(h.free, size, alignment) < 0 && AllocBlock(h, bot, size, alignment).Done?
    ensures bot <= p && p + size <= h.top && |h.live| < NUM_RECORDS
    ensures AllocBlock(h, bot, size, alignment) == Done(Heap(p, h.free, [Region(p, h.top - p)] + h.live), p)
    ensures IsPow2(alignment) ==> p % alignment == 0
  {
    p := AlignPow2(h.top - size, alignment);
    AlignPow2Spec(h.top - size, alignment);
  }

  // ----- When alloc succeeds, and where

  lemma BestFits(free: seq<Region>, size: nat, alignment: nat)
    requires 0 < alignment && Addressable(free)
    ensures 0 <= Best(free, size, alignment) <==>
      exists k :: 0 <= k < |free| && AlignUpTo(free[k].start, alignment) + size < free[k].End()
  {
    forall k | 0 <= k < |free| ensures Fits(free[k], size, alignment) ==> 0 <= Best(free, size, alignment) {
      AlignUpToSpec(free[k].start, alignment);
      if Fits(free[k], size, alignment) {
        BestIsBest(free, size, alignment, k);
      }
    }
  }

  /** The request fails exactly when all records are in use, or no chunk has room for it at its first
    * aligned address and neither does what is below the bar. */
  lemma AllocFailsExactly(h: Heap, bot: nat, size: nat, alignment: nat)
    requires 0 < alignment && Addressable(h.free) && bot <= h.top
    ensures AllocBlock(h, bot, size, alignment).Failed? <==>
      || 1024 <= |h.live|
      || ((forall k :: 0 <= k < |h.free| ==> h.free[k].End() <= AlignUpTo(h.free[k].start, alignment) + size)
          && (h.top < bot + size || AlignPow2(h.top - size, alignment) < bot))
  {
    BestFits(h.free, size, alignment);
  }

  /** What is left of a chunk on one side of a block, if it is more than a header. */
  function Kept(start: nat, end: nat): (m: multiset<Region>)
    requires start <= end
    ensures forall r :: r in m <==> r == Region(start, end - start) && 24 < end - start
  {
    if 24 < end - start then multiset{Region(start, end - start)} else multiset{}
  }

  lemma RemoveAtMultiset(s: seq<Region>, k: nat)
    requires k < |s|
    ensures multiset(RemoveAt(s, k)) == multiset(s) - multiset{s[k]}
  {
    assert s == s[..k] + [s[k]] + s[k + 1..];
  }

  lemma SmallestRoom(free: seq<Region>, size: nat, alignment: nat) returns (k: nat)
    requires 0 < alignment && Addressable(free)
    requires exists j :: 0 <= j < |free| && AlignUpTo(free[j].start, alignment) + size < free[j].End()
    ensures k < |free| && k == Best(free, size, alignment)
    ensures free[k].start <= AlignUpTo(free[k].start, alignment) && AlignUpTo(free[k].start, alignment) + size < free[k].End()
    ensures forall j :: 0 <= j < |free| && AlignUpTo(free[j].start, alignment) + size < free[j].End() ==>
      free[k].size <= free[j].size && (j < k ==> free[k].size < free[j].size)
  {
    BestFits(free, size, alignment);
    k := Best(free, size, alignment);
    forall j | 0 <= j < |free| && AlignUpTo(free[j].start, alignment) + size < free[j].End()
      ensures free[k].size <= free[j].size && (j < k ==> free[k].size < free[j].size)
    {
      AlignUpToSpec(free[j].start, alignment);
      BestIsBest(free, size, alignment, j);
    }
    AlignUpToSpec(free[k].start, alignment);
  }

  lemma LeftoverMultiset(free: seq<Region>, k: nat, b: Region)
    requires k < |free| && free[k].start <= b.start && b.End() <= free[k].End()
    ensures multiset(After(free[k], b) + Before(free[k], b) + RemoveAt(free, k)) ==
            multiset(free) - multiset{free[k]} + Kept(free[k].start, b.start) + Kept(b.End(), free[k].End())
  {
    RemoveAtMultiset(free, k);
    assert multiset(After(free[k], b)) == Kept(b.End(), free[k].End());
    assert multiset(Before(free[k], b)) == Kept(free[k].start, b.start);
  }

  /** If a chunk has room, the bar stays: the block is at the first aligned address of the smallest
    * such chunk, the earliest of them in the list, and what is worth keeping around it stays free. */
  lemma AllocReuses(h: Heap, bot: nat, size: nat, alignment: nat) returns (k: nat)
    requires 0 < alignment && Addressable(h.free) && bot <= h.top && AllocBlock(h, bot, size, alignment).Done?
    requires exists j :: 0 <= j < |h.free| && AlignUpTo(h.free[j].start, alignment) + size < h.free[j].End()
    ensures k < |h.free| && AlignUpTo(h.free[k].start, alignment) + size < h.free[k].End()
    ensures forall j :: 0 <= j < |h.free| && AlignUpTo(h.free[j].start, alignment) + size < h.free[j].End() ==>
      h.free[k].size <= h.free[j].size && (j < k ==> h.free[k].size < h.free[j].size)
    ensures h.free[k].start <= AlignUpTo(h.free[k].start, alignment)
    ensures var o, p := AllocBlock(h, bot, size, alignment), AlignUpTo(h.free[k].start, alignment);
      && o.heap.top == h.top && o.p == p && o.heap.live == [Region(p, size)] + h.live
      && multiset(o.heap.free) ==
           multiset(h.free) - multiset{h.free[k]} + Kept(h.free[k].start, p) + Kept(p + size, h.free[k].End())
  {
    k := SmallestRoom(h.free, size, alignment);
    LeftoverMultiset(h.free, k, BlockIn(h.free[k], size, alignment));
  }

  /** If no chunk has room, the free list stays, and the block is what is between the old bar and the
    * next aligned address below the space asked for. */
  lemma AllocLowersBar(h: Heap, bot: nat, size: nat, alignment: nat)
    requires 0 < alignment && Addressable(h.free) && bot <= h.top && AllocBlock(h, bot, size, alignment).Done?
    requires forall k :: 0 <= k < |h.free| ==> h.free[k].End() <= AlignUpTo(h.free[k].start, alignment) + size
    ensures bot + size <= h.top
    ensures var o, p := AllocBlock(h, bot, size, alignment), AlignPow2(h.top - size, alignment);
      && bot <= p <= h.top - size && o.p == p
      && o.heap == Heap(p, h.free, [Region(p, h.top - p)] + h.live)
  {
    BestFits(h.free, size, alignment);
    var p := FromBar(h, bot, size, alignment);
    AlignPow2Spec(h.top - size, alignment);
  }

  // ----- free keeps the heap settled

  lemma AllocatedIsStartsIn(live: seq<Region>, lo: nat, hi: nat)
    ensures Allocated(live, lo, hi) <==> StartsIn(Elems(live), lo, hi)
  {
    if StartsIn(Elems(live), lo, hi) {
      var b :| b in Elems(live) && lo <= b.start <= hi;
      var k :| 0 <= k < |live| && live[k] == b;
      assert lo <= live[k].start <= hi;
    }
    if Allocated(live, lo, hi) {
      var k :| 0 <= k < |live| && lo <= live[k].start <= hi;
      assert live[k] in Elems(live);
    }
  }

  lemma ApartIndices(h: Heap, limit: nat, i: nat, j: nat)
    requires Layout(Elems(h.free), Elems(h.live), h.top, limit) && NoDup(h.free)
    requires i < |h.free| && j < |h.free| && i != j
    ensures Disjoint(h.free[i], h.free[j])
    ensures 0 < h.free[i].size && 0 < h.free[j].size
  {
    assert h.free[i] in Elems(h.free) + Elems(h.live) && h.free[j] in Elems(h.free) + Elems(h.live);
    assert h.free[i] != h.free[j];
  }

  lemma MergeIntoKeeps(h: Heap, limit: nat, i: nat, lo: nat, hi: nat)
    requires NoDup(h.free) && i < |h.free| && lo < |h.free| && hi < |h.free|
    requires SettledBut(Elems(h.free), Elems(h.live), h.top, limit, h.free[i])
    requires lo != hi && (i == lo || i == hi) && h.free[lo].start <= h.free[hi].start
    requires Joins(h.live, h.free[lo], h.free[hi])
    ensures h.free[lo].start <= h.free[hi].End()
    ensures var free', i' := MergeInto(h.free, lo, hi), PositionAfter(lo, hi);
            && i' < |free'| && NoDup(free') && free'[i'] == Merged(h.free[lo], h.free[hi])
            && SettledBut(Elems(free'), Elems(h.live), h.top, limit, free'[i'])
  {
    var a, b := h.free[lo], h.free[hi];
    ApartIndices(h, limit, lo, hi);
    AllocatedIsStartsIn(h.live, a.End(), b.start);
    var m := Merged(a, b);
    MergeSettledBut(Elems(h.free), Elems(h.live), h.top, limit, h.free[i], a, b);
    assert a in Elems(h.free) + Elems(h.live) && m.start == a.start && m != b;
    ElemsUpdate(h.free, lo, m);
    ElemsRemoveAt(h.free[lo := m], hi);
    assert Elems(h.free) - {a} + {m} - {b} == Elems(h.free) - {a, b} + {m};
  }

  /** Coalescing around position i leaves a free list in which some chunk x is all that is not
    * yet settled, and every two chunks are separated. */
  lemma {:induction false} CompactSettled(h: Heap, limit: nat, i: nat) returns (x: Region)
    requires NoDup(h.free) && i < |h.free|
    requires SettledBut(Elems(h.free), Elems(h.live), h.top, limit, h.free[i])
    ensures var free := Compact(h.free, h.live, i);
            && NoDup(free)
            && SettledBut(Elems(free), Elems(h.live), h.top, limit, x)
            && Separated(Elems(free), Elems(h.live))
    decreases |h.free|
  {
    var j := FirstMerge(h.free, h.live, i, 0);
    if j == |h.free| {
      x := h.free[i];
      NothingMerges(h, limit, i);
      CompactedSeparated(Elems(h.free), Elems(h.live), h.top, limit, x);
    } else {
      var lo, hi := if h.free[i].start < h.free[j].start then i else j, if h.free[i].start < h.free[j].start then j else i;
      MergeIntoKeeps(h, limit, i, lo, hi);
      x := CompactSettled(h.(free := MergeInto(h.free, lo, hi)), limit, PositionAfter(lo, hi));
    }
  }

  lemma NothingMerges(h: Heap, limit: nat, i: nat)
    requires NoDup(h.free) && i < |h.free|
    requires SettledBut(Elems(h.free), Elems(h.live), h.top, limit, h.free[i])
    requires FirstMerge(h.free, h.live, i, 0) == |h.free|
    ensures forall a :: a in Elems(h.free) && a.End() <= h.free[i].start ==> !Mergeable(Elems(h.live), a, h.free[i])
    ensures forall a :: a in Elems(h.free) && h.free[i].End() <= a.start ==> !Mergeable(Elems(h.live), h.free[i], a)
  {
    var x := h.free[i];
    assert x in Elems(h.free) + Elems(h.live);
    forall a | a in Elems(h.free) && (a.End() <= x.start || x.End() <= a.start)
      ensures a.End() <= x.start ==> !Mergeable(Elems(h.live), a, x)
      ensures x.End() <= a.start ==> !Mergeable(Elems(h.live), x, a)
    {
      assert a in Elems(h.free) + Elems(h.live);
      var k :| 0 <= k < |h.free| && h.free[k] == a;
      assert !CanMerge(h.free, h.live, i, k);
      AllocatedIsStartsIn(h.live, a.End(), x.start);
      AllocatedIsStartsIn(h.live, x.End(), a.start);
    }
  }

  /** Once the lowest chunk is known to be separated from the bar, or there is none, the bar
    * stays. */
  lemma ShiftTopDone(h: Heap, limit: nat)
    requires Settled(Elems(h.free), Elems(h.live), h.top, limit)
    ensures ShiftTop(h.top, h.free, h.live) == (h.top, h.free)
  {
    if h.free != [] {
      var low := h.free[Lowest(h.free)];
      assert low in Elems(h.free);
      AllocatedIsStartsIn(h.live, h.top, low.start);
    }
  }

  lemma ShiftTopSettles(h: Heap, bot: nat, limit: nat, x: Region)
    requires 0 < bot <= h.top && limit < U64 && NoDup(h.free) && NoDup(h.live) && |h.live| <= NUM_RECORDS
    requires SettledBut(Elems(h.free), Elems(h.live), h.top, limit, x)
    requires Separated(Elems(h.free), Elems(h.live))
    ensures var (top, free) := ShiftTop(h.top, h.free, h.live);
            Inv(Heap(top, free, h.live), bot, limit)
  {
    var m := Lowest(h.free);
    var low := h.free[m];
    assert low in Elems(h.free) && low in Elems(h.free) + Elems(h.live) && x in Elems(h.free) + Elems(h.live);
    AllocatedIsStartsIn(h.live, h.top, low.start);
    if Allocated(h.live, h.top, low.start) {
      LowestTopSeparated(Elems(h.free), Elems(h.live), h.top, limit, low);
    } else {
      RaiseLayout(Elems(h.free), Elems(h.live), h.top, limit, low);
      ElemsRemoveAt(h.free, m);
      ShiftTopDone(Heap(low.End(), RemoveAt(h.free, m), h.live), limit);
    }
  }

  /** free was given the start of a block, or an address outside all of them. */
  predicate Freeable(live: seq<Region>, p: nat) {
    forall k :: 0 <= k < |live| && live[k].start <= p < live[k].End() ==> p == live[k].start
  }

  /** The heap after the block has been put on the free list, before coalescing. */
  lemma Pushed(h: Heap, bot: nat, limit: nat, k: nat)
    requires Inv(h, bot, limit) && k < |h.live|
    ensures NoDup([h.live[k]] + h.free) && NoDup(RemoveAt(h.live, k))
    ensures SettledBut(Elems([h.live[k]] + h.free), Elems(RemoveAt(h.live, k)), h.top, limit, h.live[k])
  {
    var b := h.live[k];
    assert b in Elems(h.live) && b in Elems(h.free) + Elems(h.live) && b !in Elems(h.free);
    ReleaseSettledBut(Elems(h.free), Elems(h.live), h.top, limit, b);
    ElemsRemoveAt(h.live, k);
    ElemsCons(b, h.free);
  }

  /** free takes exactly the block at p away and leaves the heap settled; it stops the machine
    * exactly when no block starts at p. */
  lemma FreeKeepsInv(h: Heap, bot: nat, limit: nat, p: nat)
    requires Inv(h, bot, limit) && Freeable(h.live, p)
    ensures var o := Free(h, p);
            && (o.Failed? <==> forall b :: b in h.live ==> b.start != p)
            && (o.Done? ==>
                  && Inv(o.heap, bot, limit)
                  && exists k :: 0 <= k < |h.live| && h.live[k].start == p && o.heap.live == RemoveAt(h.live, k))
  {
    var o, k := Free(h, p), FindBlock(h.live, p, 0);
    forall b | b in h.live ensures b.start == p ==> o.Done? {
      assert b in Elems(h.free) + Elems(h.live);
    }
    if o.Done? {
      var b, live := h.live[k], RemoveAt(h.live, k);
      Pushed(h, bot, limit, k);
      var pushed := Heap(h.top, [b] + h.free, live);
      var x := CompactSettled(pushed, limit, 0);
      ShiftTopSettles(pushed.(free := Compact(pushed.free, live, 0)), bot, limit, x);
    }
  }

  predicate Holds(c: Region, x: nat) {
    c.start <= x < c.End()
  }

  /** The byte at x can be handed out: it is below the bar, or in a free chunk. */
  ghost predicate FreeByte(top: nat, free: seq<Region>, x: nat) {
    x < top || exists c {:trigger Holds(c, x)} :: c in free && Holds(c, x)
  }

  lemma InOthers(s: seq<Region>, k: nat, c: Region)
    requires k < |s| && c in s && c != s[k]
    ensures c in RemoveAt(s, k)
  {
    var i :| 0 <= i < |s| && s[i] == c;
    assert RemoveAt(s, k)[if i < k then i else i - 1] == c;
  }

  lemma MergedBytes(top: nat, free: seq<Region>, lo: nat, hi: nat, x: nat)
    requires lo < |free| && hi < |free| && lo != hi && 0 < free[lo].size && 0 < free[hi].size
    requires free[lo].start <= free[hi].start && Disjoint(free[lo], free[hi]) && FreeByte(top, free, x)
    ensures free[lo].start <= free[hi].End()
    ensures FreeByte(top, MergeInto(free, lo, hi), x)
  {
    var m := Merged(free[lo], free[hi]);
    var updated := free[lo := m];
    assert updated[lo] == m && updated[hi] == free[hi];
    if top <= x {
      var c :| c in free && Holds(c, x);
      if c == free[lo] || c == free[hi] {
        assert Holds(m, x);
        InOthers(updated, hi, m);
      } else {
        var i :| 0 <= i < |free| && free[i] == c;
        assert updated[i] == c;
        InOthers(updated, hi, c);
      }
    }
  }

  /** Coalescing loses no free byte. */
  lemma {:induction false} CompactBytes(h: Heap, limit: nat, i: nat, x: nat)
    requires NoDup(h.free) && i < |h.free| && FreeByte(h.top, h.free, x)
    requires SettledBut(Elems(h.free), Elems(h.live), h.top, limit, h.free[i])
    ensures FreeByte(h.top, Compact(h.free, h.live, i), x)
    decreases |h.free|
  {
    var j := FirstMerge(h.free, h.live, i, 0);
    if j < |h.free| {
      var lo, hi := if h.free[i].start < h.free[j].start then i else j, if h.free[i].start < h.free[j].start then j else i;
      ApartIndices(h, limit, lo, hi);
      MergedBytes(h.top, h.free, lo, hi, x);
      MergeIntoKeeps(h, limit, i, lo, hi);
      CompactBytes(h.(free := MergeInto(h.free, lo, hi)), limit, PositionAfter(lo, hi), x);
    }
  }

  /** The chunks lie above the bar and do not overlap. */
  ghost predicate ChunksAbove(top: nat, free: seq<Region>) {
    && (forall k :: 0 <= k < |free| ==> top <= free[k].start && 0 < free[k].size)
    && (forall i, j :: 0 <= i < j < |free| ==> Disjoint(free[i], free[j]))
  }

  lemma LowestAbove(top: nat, free: seq<Region>)
    requires ChunksAbove(top, free) && free != []
    ensures ChunksAbove(free[Lowest(free)].End(), RemoveAt(free, Lowest(free)))
  {
    var m := Lowest(free);
    var low, rest := free[m], RemoveAt(free, m);
    assert forall k :: 0 <= k < |rest| ==> rest[k] == free[if k < m then k else k + 1];
    forall k | 0 <= k < |rest| ensures low.End() <= rest[k].start {
      assert Disjoint(low, rest[k]) && low.start <= rest[k].start;
    }
  }

  lemma LowestBytes(top: nat, free: seq<Region>, x: nat)
    requires free != [] && FreeByte(top, free, x) && top <= free[Lowest(free)].start
    ensures FreeByte(free[Lowest(free)].End(), RemoveAt(free, Lowest(free)), x)
  {
    var m := Lowest(free);
    if free[m].End() <= x {
      var c :| c in free && Holds(c, x);
      InOthers(free, m, c);
    }
  }

  /** Neither does moving the bar. */
  lemma {:induction false} ShiftTopBytes(top: nat, free: seq<Region>, live: seq<Region>, x: nat)
    requires ChunksAbove(top, free) && FreeByte(top, free, x)
    ensures var (top', free') := ShiftTop(top, free, live); FreeByte(top', free', x)
    decreases |free|
  {
    if free != [] {
      var m := Lowest(free);
      if !Allocated(live, top, free[m].start) {
        LowestAbove(top, free);
        LowestBytes(top, free, x);
        ShiftTopBytes(free[m].End(), RemoveAt(free, m), live, x);
      }
    }
  }

  lemma LayoutChunksAbove(h: Heap, limit: nat)
    requires Layout(Elems(h.free), Elems(h.live), h.top, limit) && NoDup(h.free)
    ensures ChunksAbove(h.top, h.free)
  {
    forall k | 0 <= k < |h.free| ensures h.top <= h.free[k].start && 0 < h.free[k].size {
      assert h.free[k] in Elems(h.free) + Elems(h.live);
    }
    forall i, j | 0 <= i < j < |h.free| ensures Disjoint(h.free[i], h.free[j]) {
      ApartIndices(h, limit, i, j);
    }
  }

  /** free gives back every byte of the block, and every byte that could be handed out before can be
    * afterwards.  (FreeKeepsInv says that no byte of another block can be.) */
  lemma FreeGivesBack(h: Heap, bot: nat, limit: nat, p: nat, k: nat, x: nat)
    requires Inv(h, bot, limit) && k < |h.live| && h.live[k].start == p
    requires FreeByte(h.top, h.free, x) || p <= x < h.live[k].End()
    ensures Free(h, p).Done? && FreeByte(Free(h, p).heap.top, Free(h, p).heap.free, x)
  {
    FoundBlock(h, bot, limit, p, k);
    var b, live := h.live[k], RemoveAt(h.live, k);
    var pushed := Heap(h.top, [b] + h.free, live);
    Pushed(h, bot, limit, k);
    PushedBytes(h.top, h.free, b, x);
    CompactBytes(pushed, limit, 0, x);
    var _ := CompactSettled(pushed, limit, 0);
    LayoutChunksAbove(pushed.(free := Compact(pushed.free, live, 0)), limit);
    ShiftTopBytes(h.top, Compact(pushed.free, live, 0), live, x);
  }

  lemma PushedBytes(top: nat, free: seq<Region>, b: Region, x: nat)
    requires FreeByte(top, free, x) || Holds(b, x)
    ensures FreeByte(top, [b] + free, x)
  {
    var pushed := [b] + free;
    assert pushed[0] == b;
    if top <= x && !Holds(b, x) {
      var c :| c in free && Holds(c, x);
      assert c in pushed;
    }
  }

  lemma FoundBlock(h: Heap, bot: nat, limit: nat, p: nat, k: nat)
    requires Inv(h, bot, limit) && k < |h.live| && h.live[k].start == p
    ensures FindBlock(h.live, p, 0) == k
  {
    assert h.live[k] in Elems(h.free) + Elems(h.live);
    forall m | 0 <= m < |h.live| && m != k ensures !(h.live[m].start <= p < h.live[m].End()) {
      assert h.live[m] in Elems(h.free) + Elems(h.live) && h.live[m] != h.live[k];
    }
  }

  /** free stops the machine exactly when no block starts at the address, on exactly the addresses
    * that are not inside a block: for one inside a block it goes on and frees the wrong bytes. */
  lemma FreeableExactly(h: Heap, bot: nat, limit: nat, p: nat)
    requires Inv(h, bot, limit)
    ensures (Free(h, p).Failed? <==> forall b :: b in h.live ==> b.start != p) <==> Freeable(h.live, p)
  {
    if Freeable(h.live, p) {
      FreeKeepsInv(h, bot, limit, p);
    } else {
      var k :| 0 <= k < |h.live| && h.live[k].start <= p < h.live[k].End() && p != h.live[k].start;
      assert h.live[k] in Elems(h.free) + Elems(h.live);
      forall b | b in h.live ensures b.start != p {
        assert b in Elems(h.free) + Elems(h.live);
      }
    }
  }

  /** What becomes of two adjacent blocks when free is given an address inside the lower one: the bar
    * moves into the upper one, which is still allocated. */
  lemma FreeInside(lower: Region, upper: Region, p: nat)
    requires HEADER_SIZE <= lower.size && lower.End() == upper.start && lower.start < p < lower.End()
    ensures Free(Heap(lower.start, [], [lower, upper]), p) == Done(Heap(p + lower.size, [], [upper]), p)
    ensures upper.start < p + lower.size
  {
    var live := [lower, upper];
    var freed := Region(p, lower.size);
    assert FindBlock(live, p, 0) == 0;
    assert RemoveAt(live, 0) == [upper];
    assert [freed] + [] == [freed];
    NothingToMerge(freed, [upper]);
    assert !Allocated([upper], lower.start, p);
    assert RemoveAt([freed], 0) == [];
    assert ShiftTop(lower.start, [freed], [upper]) == ShiftTop(freed.End(), [], [upper]);
  }

  lemma NothingToMerge(c: Region, live: seq<Region>)
    ensures Compact([c], live, 0) == [c]
  {
    assert !CanMerge([c], live, 0, 0);
    assert FirstMerge([c], live, 0, 0) == 1;
  }

  lemma TwoBlocksSettled(lower: Region, upper: Region)
    requires HEADER_SIZE <= lower.size && HEADER_SIZE <= upper.size && upper.End() < U64
    requires 0 < lower.start && lower.End() == upper.start
    ensures Inv(Heap(lower.start, [], [lower, upper]), 1, upper.End())
  {
    var free, live: seq<Region> := [], [lower, upper];
    assert forall r :: r !in Elems(free);
    assert forall r :: r in Elems(live) ==> r == lower || r == upper;
    assert Layout(Elems(free), Elems(live), lower.start, upper.End());
  }

  lemma BarBelowBlocks(h: Heap, bot: nat, limit: nat, b: Region)
    requires Inv(h, bot, limit) && b in h.live
    ensures h.top <= b.start
  {
    assert b in Elems(h.free) + Elems(h.live);
  }

  /** Before that the heap is settled, and after it no longer. */
  lemma FreeInsideBreaks(lower: Region, upper: Region, p: nat)
    requires HEADER_SIZE <= lower.size && HEADER_SIZE <= upper.size && upper.End() < U64
    requires 0 < lower.start < p < lower.End() == upper.start
    ensures Inv(Heap(lower.start, [], [lower, upper]), 1, upper.End())
    ensures Free(Heap(lower.start, [], [lower, upper]), p).Done?
    ensures !Inv(Free(Heap(lower.start, [], [lower, upper]), p).heap, 1, upper.End())
  {
    TwoBlocksSettled(lower, upper);
    FreeInside(lower, upper, p);
    var after := Heap(p + lower.size, [], [upper]);
    if Inv(after, 1, upper.End()) {
      BarBelowBlocks(after, 1, upper.End(), upper);
      assert false;
    }
  }

  // ----- Every run

  datatype Op = AllocOp(size: nat) | AlignedOp(size: nat, alignment: nat) | FreeOp(p: nat)

  function Apply(h: Heap, bot: nat, op: Op): Outcome
    requires Addressable(h.free) && bot <= h.top
  {
    match op
    case AllocOp(size) => Alloc(h, bot, size)
    case AlignedOp(size, alignment) => AllocAligned(h, bot, size, alignment)
    case FreeOp(p) => Free(h, p)
  }

  /** The 64-bit arithmetic of an allocation does not wrap around. */
  predicate NoWrap(limit: nat, size: nat, alignment: nat) {
    limit + size + 2 * alignment < U64
  }

  /** What the code asks of its callers: requests that 64-bit arithmetic can handle, and free given
    * the start of a block or an address outside all of them. */
  predicate Allowed(h: Heap, limit: nat, op: Op) {
    match op
    case AllocOp(size) => NoWrap(limit, RoundedSize(size), 8)
    case AlignedOp(size, alignment) => NoWrap(limit, RaisedRequest(size, alignment).0, RaisedRequest(size, alignment).1)
    case FreeOp(p) => Freeable(h.live, p)
  }

  /** A run: heaps[k + 1] is what the k-th operation leaves of heaps[k]. */
  ghost predicate IsRun(bot: nat, limit: nat, ops: seq<Op>, heaps: seq<Heap>) {
    && |heaps| == |ops| + 1
    && heaps[0] == Heap(limit, [], [])
    && forall k :: 0 <= k < |ops| ==> StepAt(bot, limit, ops, heaps, k)
  }

  ghost predicate StepAt(bot: nat, limit: nat, ops: seq<Op>, heaps: seq<Heap>, k: nat)
    requires k < |ops| && |heaps| == |ops| + 1
  {
    Follows(bot, limit, heaps[k], ops[k], heaps[k + 1])
  }

  ghost predicate Follows(bot: nat, limit: nat, h: Heap, op: Op, next: Heap) {
    && Addressable(h.free) && bot <= h.top
    && Allowed(h, limit, op)
    && Apply(h, bot, op).Done?
    && Apply(h, bot, op).heap == next
  }

  lemma {:induction false} BitLengthSpec(i: nat)
    ensures i < Pow2(BitLength(i))
  {
    if i > 0 {
      BitLengthSpec(i / 2);
    }
  }

  lemma RequestSizes(size: nat, alignment: nat)
    ensures HEADER_SIZE <= RoundedSize(size) && size <= RoundedSize(size)
    ensures HEADER_SIZE <= RaisedRequest(size, alignment).0 && size <= RaisedRequest(size, alignment).0
  {
    BitLengthSpec(size);
    BitLengthSpec(HEADER_SIZE);
  }

  lemma {:induction false} IsPow2CodeIsPow2(i: nat)
    ensures IsPow2Code(i) <==> IsPow2(i)
  {
    if i != 0 && i % 2 == 0 {
      IsPow2CodeIsPow2(i / 2);
      if IsPow2(i / 2) {
        var k: nat :| Pow2(k) == i / 2;
        assert Pow2(k + 1) == i;
      }
      if IsPow2(i) {
        var k: nat :| Pow2(k) == i;
        assert Pow2(k - 1) == i / 2;
      }
    } else {
      assert Pow2(0) == 1;
      assert forall k: nat :: Pow2(k) == 1 || Pow2(k) % 2 == 0;
    }
  }

  lemma {:induction false} NextPow2Bounds(i: nat)
    ensures i < NextLargestPow2(i) && (i != 0 ==> NextLargestPow2(i) <= 2 * i)
  {
    if i > 1 {
      NextPow2Bounds(i / 2);
    }
  }

  lemma AtLeast32(n: nat)
    requires IsPow2(n) && 24 <= n
    ensures 32 <= n
  {
    var k: nat :| Pow2(k) == n;
    assert Pow2(4) == 16 && Pow2(5) == 32;
    if k <= 4 {
      Pow2Monotone(k, 4);
    } else {
      Pow2Monotone(5, k);
    }
  }

  /** alloc asks for the smallest power of two that is at least the size and at least 32. */
  lemma RoundedSizeExactly(size: nat)
    ensures IsPow2(RoundedSize(size)) && 32 <= RoundedSize(size) && size <= RoundedSize(size)
    ensures RoundedSize(size) == 32 || RoundedSize(size) < 2 * size
  {
    RaisedAlignment();
    assert Pow2(5) == 32;
    IsPow2CodeIsPow2(size);
    NextPow2Bounds(size);
    IsPow2CodeIsPow2(NextLargestPow2(size));
    var n := if IsPow2Code(size) then size else NextLargestPow2(size);
    assert IsPow2(n) by { assert Pow2(BitLength(size)) == NextLargestPow2(size); }
    if 24 <= n {
      AtLeast32(n);
    }
    if n == 2 * size && size > 0 {
      TwicePow2(size);
    }
  }

  lemma TwicePow2(i: nat)
    requires IsPow2(2 * i)
    ensures IsPow2(i)
  {
    var k: nat :| Pow2(k) == 2 * i;
    assert k > 0 && Pow2(k - 1) == i;
  }

  /** alloc_with_alignment asks for the size and alignment given, but for sizes below 24 and alignments
    * below 32. */
  lemma RaisedRequestExactly(size: nat, alignment: nat)
    ensures 24 <= size && 32 <= alignment ==> RaisedRequest(size, alignment) == (size, alignment)
    ensures 24 <= size && alignment < 32 ==> RaisedRequest(size, alignment) == (size, 64)
    ensures size < 24 ==> RaisedRequest(size, alignment) == (32, 64)
  {
    RaisedAlignment();
  }

  /** What alloc allocates: the smallest power of two that is at least the size and at least 32, on a
    * multiple of 8. */
  lemma AllocIs(h: Heap, bot: nat, size: nat) returns (n: nat)
    requires Addressable(h.free) && bot <= h.top
    ensures IsPow2(n) && 32 <= n && size <= n && (n == 32 || n < 2 * size)
    ensures Alloc(h, bot, size) == AllocBlock(h, bot, n, 8)
  {
    RoundedSizeExactly(size);
    n := RoundedSize(size);
  }

  /** What alloc_with_alignment allocates: what it is asked for, but for sizes below 24 and alignments
    * below 32. */
  lemma AllocAlignedIs(h: Heap, bot: nat, size: nat, alignment: nat)
    requires Addressable(h.free) && bot <= h.top
    ensures AllocAligned(h, bot, size, alignment) ==
      if size < 24 then AllocBlock(h, bot, 32, 64)
      else AllocBlock(h, bot, size, if alignment < 32 then 64 else alignment)
  {
    RaisedRequestExactly(size, alignment);
  }

  lemma ApplyKeepsInv(h: Heap, bot: nat, limit: nat, op: Op)
    requires Inv(h, bot, limit) && Allowed(h, limit, op)
    ensures Addressable(h.free)
    ensures Apply(h, bot, op).Done? ==> Inv(Apply(h, bot, op).heap, bot, limit)
  {
    InvAddressable(h, bot, limit);
    match op {
      case AllocOp(size) =>
        RequestSizes(size, 8);
        AllocBlockKeepsInv(h, bot, limit, RoundedSize(size), 8);
      case AlignedOp(size, alignment) =>
        RequestSizes(size, alignment);
        var (s, a) := RaisedRequest(size, alignment);
        AllocBlockKeepsInv(h, bot, limit, s, a);
      case FreeOp(p) =>
        FreeKeepsInv(h, bot, limit, p);
    }
  }

  /** Over every run of alloc, alloc_with_alignment and free from an empty heap: the bar, the free
    * chunks and the live blocks stay settled, and with no block left nothing is left free. */
  lemma {:induction false} EveryRunSettled(bot: nat, limit: nat, ops: seq<Op>, heaps: seq<Heap>, k: nat)
    requires 0 < bot <= limit < U64 && IsRun(bot, limit, ops, heaps) && k < |heaps|
    ensures Inv(heaps[k], bot, limit)
    ensures heaps[k].live == [] ==> heaps[k].free == []
  {
    if k == 0 {
      EmptyHeap(bot, limit);
    } else {
      EveryRunSettled(bot, limit, ops, heaps, k - 1);
      assert StepAt(bot, limit, ops, heaps, k - 1);
      FollowsKeepsInv(bot, limit, heaps[k - 1], ops[k - 1], heaps[k]);
    }
    CoalescedCompletely(heaps[k], bot, limit);
  }

  lemma FollowsKeepsInv(bot: nat, limit: nat, h: Heap, op: Op, next: Heap)
    requires Inv(h, bot, limit) && Follows(bot, limit, h, op, next)
    ensures Inv(next, bot, limit)
  {
    ApplyKeepsInv(h, bot, limit, op);
  }

  lemma CoalescedCompletely(h: Heap, bot: nat, limit: nat)
    requires Inv(h, bot, limit)
    ensures h.live == [] ==> h.free == []
  {
    assert h.free != [] ==> h.free[0] in Elems(h.free);
    NothingLive(Elems(h.free), Elems(h.live), h.top, limit);
  }

  // ----- Alignment, best fit, and undoing an allocation

  /** alloc_with_alignment keeps to a power-of-two alignment on every heap exactly when the size
    * is at least that of a free-list header or the alignment at most 64: for a smaller size the
    * requested alignment is overwritten. */
  lemma AlignmentKeptExactly(size: nat, alignment: nat)
    requires IsPow2(alignment) && alignment <= U64
    ensures (forall h: Heap, bot: nat, limit: nat ::
               Inv(h, bot, limit) && Allowed(h, limit, AlignedOp(size, alignment)) &&
               Addressable(h.free) && AllocAligned(h, bot, size, alignment).Done? ==>
               AllocAligned(h, bot, size, alignment).p % alignment == 0)
            <==> (HEADER_SIZE <= size || alignment <= 64)
  {
    if HEADER_SIZE <= size || alignment <= 64 {
      forall h: Heap, bot: nat, limit: nat |
        Inv(h, bot, limit) && Addressable(h.free) && AllocAligned(h, bot, size, alignment).Done?
        ensures AllocAligned(h, bot, size, alignment).p % alignment == 0
      {
        AlignmentKept(h, bot, limit, size, alignment);
      }
    } else {
      AlignmentLost(size, alignment);
    }
  }

  lemma RaisedAlignment()
    ensures NextLargestPow2(RECORD_SIZE) == 64 && NextLargestPow2(HEADER_SIZE) == 32 && IsPow2(64)
  {
    assert BitLength(32) == 6 && BitLength(24) == 5 && Pow2(6) == 64 && Pow2(5) == 32;
  }

  lemma DividesPow2(alignment: nat, p: nat, k: nat)
    requires Pow2(k) == alignment && k <= 6 && p % 64 == 0
    ensures p % alignment == 0
  {
    Pow2Add(6 - k, k);
    assert Pow2(6) == 64;
    var q := p / 64;
    assert p == (q * Pow2(6 - k)) * alignment + 0 by { assert p == q * (Pow2(6 - k) * alignment); }
    DivModUnique(p, alignment, q * Pow2(6 - k), 0);
  }

  lemma Pow2AtMost64(k: nat)
    ensures Pow2(k) <= 64 ==> k <= 6
    ensures 64 < Pow2(k) ==> Pow2(k) == 128 || 256 <= Pow2(k)
  {
    assert Pow2(6) == 64 && Pow2(7) == 128 && Pow2(8) == 256;
    if k <= 6 {
      Pow2Monotone(k, 6);
    } else if 8 <= k {
      Pow2Monotone(8, k);
    }
  }

  lemma AlignmentKept(h: Heap, bot: nat, limit: nat, size: nat, alignment: nat)
    requires IsPow2(alignment) && alignment <= U64 && (HEADER_SIZE <= size || alignment <= 64)
    requires Inv(h, bot, limit) && Addressable(h.free) && AllocAligned(h, bot, size, alignment).Done?
    ensures AllocAligned(h, bot, size, alignment).p % alignment == 0
  {
    RaisedAlignment();
    RequestSizes(size, alignment);
    var (s, a) := RaisedRequest(size, alignment);
    AllocBlockKeepsInv(h, bot, limit, s, a);
    if a != alignment {
      var k: nat :| Pow2(k) == alignment;
      Pow2AtMost64(k);
      DividesPow2(alignment, AllocAligned(h, bot, size, alignment).p, k);
    }
  }

  /** On an empty heap that ends at 224, a small request gets 192 whatever its alignment. */
  lemma AlignmentLost(size: nat, alignment: nat)
    requires IsPow2(alignment) && 64 < alignment && size < HEADER_SIZE
    ensures var h := Heap(224, [], []);
            && Inv(h, 1, 224) && Allowed(h, 224, AlignedOp(size, alignment)) && Addressable(h.free)
            && AllocAligned(h, 1, size, alignment) == Done(Heap(192, [], [Region(192, 32)]), 192)
    ensures 192 % alignment != 0
  {
    RaisedAlignment();
    SmallRequest();
    var k: nat :| Pow2(k) == alignment;
    Pow2AtMost64(k);
  }

  lemma SmallRequest()
    ensures Inv(Heap(224, [], []), 1, 224)
    ensures AllocBlock(Heap(224, [], []), 1, 32, 64) == Done(Heap(192, [], [Region(192, 32)]), 192)
  {
    Already64Aligned(192);
    EmptyHeap(1, 224);
  }

  lemma Already64Aligned(v: nat)
    requires v % 64 == 0
    ensures AlignPow2(v, 64) == v
  {
    RaisedAlignment();
    AlignPow2Spec(v, 64);
    var q, p := v / 64, AlignPow2(v, 64) / 64;
    assert v == 64 * q && AlignPow2(v, 64) == 64 * p;
  }

  lemma EmptyHeap(bot: nat, limit: nat)
    requires 0 < bot <= limit < U64
    ensures Inv(Heap(limit, [], []), bot, limit)
  {
    assert Elems([]) == {};
  }

  /** Freeing what was just taken from above the bar gives back exactly the heap there was. */
  lemma FreeUndoesAlloc(h: Heap, bot: nat, limit: nat, size: nat, alignment: nat)
    requires Inv(h, bot, limit) && HEADER_SIZE <= size && 0 < alignment && Addressable(h.free)
    requires Best(h.free, size, alignment) < 0 && AllocBlock(h, bot, size, alignment).Done?
    ensures var o := AllocBlock(h, bot, size, alignment);
            Free(o.heap, o.p) == Done(h, o.p)
  {
    var o := AllocBlock(h, bot, size, alignment);
    AllocFromBar(h, bot, limit, size, alignment);
    var b := o.heap.live[0];
    assert RemoveAt(o.heap.live, 0) == h.live;
    assert FindBlock(o.heap.live, o.p, 0) == 0;
    NothingTouches(h, bot, limit, b);
    assert Compact([b] + h.free, h.live, 0) == [b] + h.free;
    RaiseBack(h, bot, limit, b);
  }

  /** The free chunks and blocks all lie above the bar, and no free chunk lies right at it. */
  lemma AboveBar(h: Heap, bot: nat, limit: nat, r: Region)
    requires Inv(h, bot, limit) && (r in h.free || r in h.live)
    ensures h.top <= r.start
    ensures r in h.free ==> h.top < r.start && Allocated(h.live, h.top, r.start)
  {
    assert r in Elems(h.free) + Elems(h.live);
    if r in h.free {
      assert r in Elems(h.free);
      var b :| b in Elems(h.live) && h.top <= b.start <= r.start;
      assert b in Elems(h.free) + Elems(h.live) && Disjoint(b, r);
      AllocatedIsStartsIn(h.live, h.top, r.start);
    }
  }

  lemma NothingTouches(h: Heap, bot: nat, limit: nat, b: Region)
    requires Inv(h, bot, limit) && b.End() == h.top
    ensures FirstMerge([b] + h.free, h.live, 0, 0) == |[b] + h.free|
  {
    var pushed := [b] + h.free;
    forall k | 0 <= k < |pushed| ensures !CanMerge(pushed, h.live, 0, k) {
      if 0 < k {
        assert pushed[k] in h.free;
        AboveBar(h, bot, limit, pushed[k]);
      }
    }
  }

  lemma RaiseBack(h: Heap, bot: nat, limit: nat, b: Region)
    requires Inv(h, bot, limit) && b.End() == h.top && 0 < b.size
    ensures ShiftTop(b.start, [b] + h.free, h.live) == (h.top, h.free)
  {
    forall r | r in h.free || r in h.live ensures b.start < r.start {
      AboveBar(h, bot, limit, r);
    }
    ShiftPast(b, h.free, h.live);
    ShiftTopDone(h, limit);
  }

  lemma ShiftPast(b: Region, free: seq<Region>, live: seq<Region>)
    requires forall r :: r in free || r in live ==> b.start < r.start
    ensures ShiftTop(b.start, [b] + free, live) == ShiftTop(b.End(), free, live)
  {
    var pushed := [b] + free;
    assert pushed[0] == b && forall k :: 0 < k < |pushed| ==> pushed[k] in free;
    assert Lowest(pushed) == 0;
    assert !Allocated(live, b.start, b.start);
    assert RemoveAt(pushed, 0) == free;
  }
}
