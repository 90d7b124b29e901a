/** The headers of the free list of lib/valloc/valloc_freelist.c: they live in the free memory
  * itself, so the list is what the words of the memory say it is.
  */
module Headers {
  import opened Bits
  import opened Links
  import opened VallocRegions

  /** The 64-bit word at each address. */
  type View = nat -> nat

  // valloc_free_chunk, at the start of a free chunk: size, prev, next
  const PREV := 8
  const NEXT := 16

  predicate IsOffset(o: nat) {
    o == 0 || o == PREV || o == NEXT
  }

  /** The headers at the given addresses fit a memory of n bytes and do not overlap. */
  ghost predicate HeadersApart(order: seq<nat>, n: nat) {
    && n <= U64
    && (forall c :: c in order ==> 0 < c && c + HEADER_SIZE <= n)
    && (forall c, d :: c in order && d in order && c != d ==> c + HEADER_SIZE <= d || d + HEADER_SIZE <= c)
  }

  /** The fields at the given offset in the headers. */
  ghost function Field(w: View, order: seq<nat>, offset: nat): (f: map<nat, nat>)
    ensures forall c :: c in f <==> c in order
  {
    map c | c in order :: w(c + offset)
  }

  /** The memory holds the free list with these headers, in this order. */
  ghost predicate ListIn(w: View, head: nat, order: seq<nat>) {
    IsList(Field(w, order, PREV), Field(w, order, NEXT), head, order)
  }

  /** The chunks that the headers describe. */
  ghost function ChunksOf(w: View, order: seq<nat>): (s: seq<Region>)
    ensures |s| == |order|
  {
    seq(|order|, k requires 0 <= k < |order| => Region(order[k], w(order[k])))
  }

  /** The effect of storing the word v at address a. */
  ghost predicate Stores(w: View, w': View, a: nat, v: nat) {
    w'(a) == v && forall b: nat :: b + 8 <= a || a + 8 <= b ==> w'(b) == w(b)
  }

  /** Storing one field of one header changes no other field of any header. */
  lemma PutField(w: View, w': View, order: seq<nat>, n: nat, c: nat, offset: nat, v: nat, o: nat)
    requires HeadersApart(order, n) && c in order && IsOffset(offset) && IsOffset(o)
    requires Stores(w, w', c + offset, v)
    ensures Field(w', order, o) ==
            if o == offset then Field(w, order, o)[c := v] else Field(w, order, o)
  {
    forall d | d in order && !(d == c && o == offset) ensures w'(d + o) == w(d + o) {}
  }

  // ----- Pushing

  /** The stores of valloc_freelist_allocate_free_chunk, one after the other. */
  ghost predicate Pushes(w: View, w1: View, w2: View, w3: View, w4: View, head: nat, addr: nat, size: nat) {
    && Stores(w, w1, addr + 0, size)
    && (if head != 0 then Stores(w1, w2, head + PREV, addr) else w2 == w1)
    && Stores(w2, w3, addr + NEXT, head)
    && Stores(w3, w4, addr + PREV, 0)
  }

  lemma PushedField(w: View, w1: View, w2: View, w3: View, w4: View, head: nat, more: seq<nat>, n: nat,
                    addr: nat, size: nat, o: nat)
    requires HeadersApart(more, n) && addr in more && (head != 0 ==> head in more) && IsOffset(o)
    requires Pushes(w, w1, w2, w3, w4, head, addr, size)
    ensures var f := Field(w, more, o);
            Field(w4, more, o) ==
            if o == 0 then f[addr := size]
            else if o == NEXT then f[addr := head]
            else (if head != 0 then f[head := addr] else f)[addr := 0]
  {
    PutField(w, w1, more, n, addr, 0, size, o);
    if head != 0 {
      PutField(w1, w2, more, n, head, PREV, addr, o);
    }
    PutField(w2, w3, more, n, addr, NEXT, head, o);
    PutField(w3, w4, more, n, addr, PREV, 0, o);
  }

  /** A list is the same list when its headers are looked up among more of them. */
  lemma MoreHeaders(w: View, head: nat, order: seq<nat>, more: seq<nat>)
    requires ListIn(w, head, order)
    requires forall c :: c in order ==> c in more
    ensures IsList(Field(w, more, PREV), Field(w, more, NEXT), head, order)
  {
    SameList(Field(w, order, PREV), Field(w, order, NEXT), head, order, Field(w, more, PREV), Field(w, more, NEXT));
  }

  lemma PushedIsList(w: View, w1: View, w2: View, w3: View, w4: View, head: nat, order: seq<nat>, n: nat,
                     addr: nat, size: nat)
    requires ListIn(w, head, order) && HeadersApart([addr] + order, n) && addr !in order
    requires Pushes(w, w1, w2, w3, w4, head, addr, size)
    ensures ListIn(w4, addr, [addr] + order)
    ensures ChunksOf(w4, [addr] + order) == [Region(addr, size)] + ChunksOf(w, order)
  {
    var more := [addr] + order;
    assert addr in more && (head != 0 ==> head == order[0] && head in more);
    MoreHeaders(w, head, order, more);
    PushNode(Field(w, more, PREV), Field(w, more, NEXT), head, order, addr);
    PushedField(w, w1, w2, w3, w4, head, more, n, addr, size, PREV);
    PushedField(w, w1, w2, w3, w4, head, more, n, addr, size, NEXT);
    PushedChunks(w, w1, w2, w3, w4, head, order, n, addr, size);
  }

  lemma PushedChunks(w: View, w1: View, w2: View, w3: View, w4: View, head: nat, order: seq<nat>, n: nat,
                     addr: nat, size: nat)
    requires HeadersApart([addr] + order, n) && addr !in order && (head != 0 ==> head in order)
    requires Pushes(w, w1, w2, w3, w4, head, addr, size)
    ensures ChunksOf(w4, [addr] + order) == [Region(addr, size)] + ChunksOf(w, order)
  {
    var more := [addr] + order;
    assert addr in more && (head != 0 ==> head in more);
    PushedField(w, w1, w2, w3, w4, head, more, n, addr, size, 0);
    forall k | 0 <= k < |more|
      ensures w4(more[k]) == if k == 0 then size else w(more[k])
    {
      assert more[k] in more && more[k] == more[k] + 0;
      assert Field(w4, more, 0)[more[k]] == w4(more[k] + 0) && Field(w, more, 0)[more[k]] == w(more[k] + 0);
      assert k > 0 ==> more[k] == order[k - 1];
    }
  }

  lemma ListHead(w: View, head: nat, order: seq<nat>)
    requires ListIn(w, head, order)
    ensures head == At(order, 0) && 0 !in order && (head != 0 ==> head in order)
  {
    NodesNotNull(Field(w, order, PREV), Field(w, order, NEXT), head, order);
  }

  lemma SameView(w: View, w': View, head: nat, order: seq<nat>)
    requires ListIn(w, head, order)
    requires forall c, o: nat :: c in order && IsOffset(o) ==> w'(c + o) == w(c + o)
    ensures ListIn(w', head, order)
    ensures ChunksOf(w', order) == ChunksOf(w, order)
  {
    assert IsOffset(0) && IsOffset(PREV) && IsOffset(NEXT);
    assert Field(w', order, PREV) == Field(w, order, PREV) && Field(w', order, NEXT) == Field(w, order, NEXT);
    forall k | 0 <= k < |order| ensures w'(order[k]) == w(order[k]) {
      assert order[k] in order && order[k] == order[k] + 0;
    }
  }

  // ----- Resizing

  lemma ResizedIsList(w: View, w': View, head: nat, order: seq<nat>, n: nat, k: nat, size: nat)
    requires ListIn(w, head, order) && HeadersApart(order, n) && k < |order| && Stores(w, w', order[k] + 0, size)
    ensures ListIn(w', head, order)
    ensures ChunksOf(w', order) == ChunksOf(w, order)[k := Region(order[k], size)]
  {
    assert order[k] in order;
    PutField(w, w', order, n, order[k], 0, size, PREV);
    PutField(w, w', order, n, order[k], 0, size, NEXT);
    forall i | 0 <= i < |order| ensures w'(order[i]) == if i == k then size else w(order[i]) {
      assert order[i] in order && (i != k ==> order[i] != order[k]);
    }
  }

  // ----- Unlinking

  /** The stores of valloc_freelist_remove_chunk on a chunk with neighbours p and n. */
  ghost predicate Unlinks(w: View, w1: View, w2: View, p: nat, n: nat) {
    && (if p != 0 then Stores(w, w1, p + NEXT, n) else w1 == w)
    && (if n != 0 then Stores(w1, w2, n + PREV, p) else w2 == w1)
  }

  lemma UnlinkedField(w: View, w1: View, w2: View, order: seq<nat>, size: nat, p: nat, n: nat, o: nat)
    requires HeadersApart(order, size) && (p != 0 ==> p in order) && (n != 0 ==> n in order) && IsOffset(o)
    requires Unlinks(w, w1, w2, p, n)
    ensures var f := Field(w, order, o);
            Field(w2, order, o) ==
            if o == 0 then f
            else if o == NEXT then if p != 0 then f[p := n] else f
            else if n != 0 then f[n := p] else f
  {
    if p != 0 {
      PutField(w, w1, order, size, p, NEXT, n, o);
    }
    if n != 0 {
      PutField(w1, w2, order, size, n, PREV, p, o);
    }
  }

  /** The links in the k-th header. */
  lemma LinksOf(w: View, head: nat, order: seq<nat>, k: nat)
    requires ListIn(w, head, order) && k < |order|
    ensures order[k] != 0
    ensures w(order[k] + PREV) == At(order, k - 1) && w(order[k] + NEXT) == At(order, k + 1)
    ensures 0 < k ==> At(order, k - 1) in order
    ensures k + 1 < |order| ==> At(order, k + 1) in order
    ensures At(order, k - 1) != 0 <==> 0 < k
    ensures At(order, k + 1) != 0 <==> k + 1 < |order|
  {
    assert LinkedAt(Field(w, order, PREV), Field(w, order, NEXT), order, k);
    NodesNotNull(Field(w, order, PREV), Field(w, order, NEXT), head, order);
  }

  lemma UnlinkedIsList(w: View, w1: View, w2: View, head: nat, order: seq<nat>, size: nat, k: nat)
    requires ListIn(w, head, order) && HeadersApart(order, size) && k < |order|
    requires Unlinks(w, w1, w2, At(order, k - 1), At(order, k + 1))
    ensures ListIn(w2, if k == 0 then At(order, 1) else head, Without(order, k))
  {
    LinksOf(w, head, order, k);
    var p, n, rest := At(order, k - 1), At(order, k + 1), Without(order, k);
    UnlinkedField(w, w1, w2, order, size, p, n, PREV);
    UnlinkedField(w, w1, w2, order, size, p, n, NEXT);
    RemoveNode(Field(w, order, PREV), Field(w, order, NEXT), head, order, k);
    assert order[k] in order;
    DistinctWithout(order, k);
    SameList(Field(w2, order, PREV), Field(w2, order, NEXT), if p == 0 then n else head, rest,
             Field(w2, rest, PREV), Field(w2, rest, NEXT));
  }

  /** No size changes: in particular the unlinked chunk's own header still reads the same. */
  lemma UnlinkedSizes(w: View, w1: View, w2: View, head: nat, order: seq<nat>, size: nat, k: nat)
    requires ListIn(w, head, order) && HeadersApart(order, size) && k < |order|
    requires Unlinks(w, w1, w2, At(order, k - 1), At(order, k + 1))
    ensures ChunksOf(w2, order) == ChunksOf(w, order)
  {
    LinksOf(w, head, order, k);
    UnlinkedField(w, w1, w2, order, size, At(order, k - 1), At(order, k + 1), 0);
    forall i | 0 <= i < |order| ensures w2(order[i]) == w(order[i]) {
      assert order[i] in order && order[i] == order[i] + 0;
      assert Field(w2, order, 0)[order[i]] == w2(order[i] + 0) && Field(w, order, 0)[order[i]] == w(order[i] + 0);
    }
  }
}

module FreeMemory {
  import opened AllocRecords
  import opened Bits
  import opened Headers
  import opened Links
  import opened Valloc
  import opened VallocRegions
  import opened Words

  ghost function ViewOf(m: seq<Byte>): View {
    (a: nat) => if a + 8 <= |m| then Word(m, a) else 0
  }

  lemma PutWordStores(m: seq<Byte>, a: nat, v: nat)
    requires a + 8 <= |m| && v < U64
    ensures Stores(ViewOf(m), ViewOf(PutWord(m, a, v)), a, v)
  {
    WordSame(m, a, v);
    forall b: nat | b + 8 <= a || a + 8 <= b ensures ViewOf(PutWord(m, a, v))(b) == ViewOf(m)(b) {
      if b + 8 <= |m| {
        WordOther(m, a, v, b);
      }
    }
  }

  /** The address x is in one of the headers. */
  ghost predicate InHeader(order: seq<nat>, x: nat) {
    exists c :: c in order && c <= x < c + HEADER_SIZE
  }

  /** The two memories differ at most in the headers. */
  ghost predicate SameButHeaders(m: seq<Byte>, m': seq<Byte>, order: seq<nat>) {
    |m'| == |m| && forall x: nat :: x < |m| && !InHeader(order, x) ==> m'[x] == m[x]
  }

  lemma PutInHeader(m: seq<Byte>, order: seq<nat>, c: nat, offset: nat, v: nat)
    requires HeadersApart(order, |m|) && c in order && IsOffset(offset)
    ensures SameButHeaders(m, PutWord(m, c + offset, v), order)
  {
    forall x: nat | x < |m| && !InHeader(order, x) ensures PutWord(m, c + offset, v)[x] == m[x] {
      assert !(c <= x < c + HEADER_SIZE);
    }
  }

  lemma SameButHeadersTrans(m: seq<Byte>, m1: seq<Byte>, m2: seq<Byte>, small: seq<nat>, order: seq<nat>)
    requires SameButHeaders(m, m1, order) && SameButHeaders(m1, m2, small)
    requires forall c :: c in small ==> c in order
    ensures SameButHeaders(m, m2, order)
  {
    forall x: nat | x < |m| && !InHeader(order, x) ensures m2[x] == m[x] {
      assert !InHeader(small, x);
    }
  }

  lemma ChunksWithout(w: View, order: seq<nat>, k: nat)
    requires Distinct(order) && k < |order|
    ensures ChunksOf(w, Without(order, k)) == RemoveAt(ChunksOf(w, order), k)
    ensures forall c :: c in Without(order, k) <==> c in order && c != order[k]
  {
    DistinctWithout(order, k);
  }

  lemma UnlinkedAll(w: View, w1: View, w2: View, head: nat, order: seq<nat>, size: nat, k: nat)
    requires ListIn(w, head, order) && HeadersApart(order, size) && k < |order|
    requires Unlinks(w, w1, w2, At(order, k - 1), At(order, k + 1))
    ensures ListIn(w2, if k == 0 then At(order, 1) else head, Without(order, k))
    ensures HeadersApart(Without(order, k), size)
    ensures ChunksOf(w2, Without(order, k)) == RemoveAt(ChunksOf(w, order), k)
    ensures ChunksOf(w2, order) == ChunksOf(w, order)
  {
    UnlinkedIsList(w, w1, w2, head, order, size, k);
    UnlinkedSizes(w, w1, w2, head, order, size, k);
    ChunksWithout(w2, order, k);
  }

  lemma BestNext(chunks: seq<Region>, size: nat, alignment: nat, k: nat)
    requires 0 < alignment && Addressable(chunks) && k < |chunks|
    ensures var b := Best(chunks[..k], size, alignment);
            Best(chunks[..k + 1], size, alignment) ==
            if Fits(chunks[k], size, alignment) && (b < 0 || chunks[k].size < chunks[b].size) then k else b
  {
    assert chunks[..k + 1][..k] == chunks[..k];
  }

  // ----- Chunks that do not overlap

  ghost predicate RegionsApart(rs: seq<Region>, n: nat) {
    && n <= U64
    && (forall k :: 0 <= k < |rs| ==> 0 < rs[k].start && HEADER_SIZE <= rs[k].size && rs[k].End() <= n)
    && (forall i, j :: 0 <= i < j < |rs| ==> Disjoint(rs[i], rs[j]))
  }

  lemma HeadersOf(rs: seq<Region>, order: seq<nat>, n: nat)
    requires RegionsApart(rs, n) && |order| == |rs| && forall k :: 0 <= k < |rs| ==> rs[k].start == order[k]
    ensures HeadersApart(order, n)
    ensures order != [] ==> order[0] !in order[1..]
  {
    forall c, d | c in order && d in order && c != d ensures c + HEADER_SIZE <= d || d + HEADER_SIZE <= c {
      var i, j :| 0 <= i < |order| && 0 <= j < |order| && order[i] == c && order[j] == d;
      assert i < j ==> Disjoint(rs[i], rs[j]);
      assert j < i ==> Disjoint(rs[j], rs[i]);
    }
  }

  /** The address x is in one of the chunks. */
  ghost predicate InChunk(rs: seq<Region>, x: nat) {
    exists k :: 0 <= k < |rs| && rs[k].start <= x < rs[k].End()
  }

  /** The two memories differ at most inside the chunks. */
  ghost predicate SameOutside(m: seq<Byte>, m': seq<Byte>, rs: seq<Region>) {
    |m'| == |m| && forall x: nat :: x < |m| && !InChunk(rs, x) ==> m'[x] == m[x]
  }

  predicate Inside(r: Region, c: Region) {
    c.start <= r.start && r.End() <= c.End()
  }

  ghost predicate CoveredBy(rs: seq<Region>, r: Region) {
    exists k :: 0 <= k < |rs| && Inside(r, rs[k])
  }

  /** The parts do not overlap, and each of them lies in one of the chunks. */
  ghost predicate PartsOf(parts: seq<Region>, rs: seq<Region>, n: nat) {
    RegionsApart(parts, n) && forall k {:trigger CoveredBy(rs, parts[k])} :: 0 <= k < |parts| ==> CoveredBy(rs, parts[k])
  }

  /** What is written to headers in parts of the chunks is written in the chunks. */
  lemma HeadersCovered(m0: seq<Byte>, m: seq<Byte>, m': seq<Byte>, rs: seq<Region>, parts: seq<Region>,
                       order: seq<nat>, n: nat)
    requires SameOutside(m0, m, rs) && SameButHeaders(m, m', order) && PartsOf(parts, rs, n)
    requires |order| == |parts| && forall k :: 0 <= k < |parts| ==> parts[k].start == order[k]
    ensures SameOutside(m0, m', rs)
  {
    forall x: nat | x < |m| ensures m'[x] == m0[x] || InChunk(rs, x) {
      if InHeader(order, x) {
        var k :| 0 <= k < |order| && order[k] <= x < order[k] + HEADER_SIZE;
        assert CoveredBy(rs, parts[k]);
      }
    }
  }

  lemma PartsSelf(rs: seq<Region>, n: nat)
    requires RegionsApart(rs, n)
    ensures PartsOf(rs, rs, n)
  {
    forall k | 0 <= k < |rs| ensures CoveredBy(rs, rs[k]) {
      assert Inside(rs[k], rs[k]);
    }
  }

  lemma PartsRemove(rs: seq<Region>, n: nat, k: nat)
    requires RegionsApart(rs, n) && k < |rs|
    ensures PartsOf(RemoveAt(rs, k), rs, n)
    ensures forall x :: x in RemoveAt(rs, k) ==> Disjoint(rs[k], x)
  {
    var rest := RemoveAt(rs, k);
    forall i | 0 <= i < |rest| ensures CoveredBy(rs, rest[i]) && Disjoint(rs[k], rest[i]) {
      var j := if i < k then i else i + 1;
      assert rest[i] == rs[j] && Inside(rest[i], rs[j]);
    }
  }

  lemma PartsCons(r: Region, parts: seq<Region>, rs: seq<Region>, n: nat, k: nat)
    requires PartsOf(parts, rs, n) && k < |rs| && Inside(r, rs[k]) && RegionsApart(rs, n) && HEADER_SIZE <= r.size
    requires forall x :: x in parts ==> Disjoint(r, x)
    ensures PartsOf([r] + parts, rs, n)
  {
  }

  /** What is left of a chunk that has been split is apart from the block and from the other
    * chunks. */
  lemma SplitParts(rs: seq<Region>, n: nat, k: nat, b: Region)
    requires RegionsApart(rs, n) && k < |rs| && HEADER_SIZE <= b.size && Inside(b, rs[k])
    ensures var c, s1 := rs[k], [b] + RemoveAt(rs, k);
            && PartsOf(s1, rs, n)
            && PartsOf(Before(c, b) + s1, rs, n)
            && PartsOf(After(c, b) + (Before(c, b) + s1), rs, n)
  {
    var c, rest := rs[k], RemoveAt(rs, k);
    PartsRemove(rs, n, k);
    PartsCons(b, rest, rs, n, k);
    var s1 := [b] + rest;
    var s2 := Before(c, b) + s1;
    if Before(c, b) == [] {
      assert s2 == s1;
    } else {
      PartsCons(Before(c, b)[0], s1, rs, n, k);
      assert s2 == [Before(c, b)[0]] + s1;
    }
    if After(c, b) == [] {
      assert After(c, b) + s2 == s2;
    } else {
      PartsCons(After(c, b)[0], s2, rs, n, k);
      assert After(c, b) + s2 == [After(c, b)[0]] + s2;
    }
  }

  lemma LowestNext(chunks: seq<Region>, k: nat)
    requires k < |chunks|
    ensures Lowest(chunks[..k + 1]) == if k == 0 || chunks[k].start < chunks[Lowest(chunks[..k])].start then k else Lowest(chunks[..k])
  {
    assert chunks[..k + 1][..k] == chunks[..k];
  }

  lemma ShiftStep(bar: nat, chunks: seq<Region>, live: seq<Region>)
    ensures Valloc.ShiftTop(bar, chunks, live) ==
            if chunks == [] || Allocated(live, bar, chunks[Lowest(chunks)].start) then (bar, chunks)
            else Valloc.ShiftTop(chunks[Lowest(chunks)].End(), RemoveAt(chunks, Lowest(chunks)), live)
  {
  }

  // ----- Coalescing

  lemma MergeAddressable(chunks: seq<Region>, i1: nat, i2: nat)
    requires Addressable(chunks) && i1 < |chunks| && i2 < |chunks| && chunks[i1].start < chunks[i2].start
    ensures Addressable(MergeInto(chunks, i1, i2)) && Merged(chunks[i1], chunks[i2]).size < U64
  {
  }

  lemma AfterWithout(order: seq<nat>, k: nat, removed: nat)
    requires k < |order| && removed < |order| && Distinct(order)
    ensures k != removed ==> PositionAfter(k, removed) < |Without(order, removed)|
    ensures k != removed ==> Without(order, removed)[PositionAfter(k, removed)] == order[k]
    ensures forall c :: c in Without(order, removed) ==> c in order
  {
    DistinctWithout(order, removed);
  }

  /** The first chunk that can be merged with the i-th one is merged with it. */
  lemma CompactMerges(chunks: seq<Region>, live: seq<Region>, i: nat, k: nat, lo: nat, hi: nat)
    requires i < |chunks| && k < |chunks| && CanMerge(chunks, live, i, k)
    requires forall j :: 0 <= j < k ==> !CanMerge(chunks, live, i, j)
    requires if chunks[i].start < chunks[k].start then lo == i && hi == k else lo == k && hi == i
    requires lo != hi && chunks[lo].start < chunks[hi].start
    ensures Compact(chunks, live, i) == Compact(MergeInto(chunks, lo, hi), live, PositionAfter(lo, hi))
  {
    assert FirstMerge(chunks, live, i, 0) == k;
  }

  ghost predicate SameBytes(m: seq<Byte>, m': seq<Byte>, a: nat, n: nat) {
    |m'| == |m| && forall x: nat :: a <= x < a + n && x < |m| ==> m'[x] == m[x]
  }

  lemma SameWord(m: seq<Byte>, m': seq<Byte>, a: nat)
    requires SameBytes(m, m', a, 8)
    ensures ViewOf(m')(a) == ViewOf(m)(a)
  {
    if a + 8 <= |m| {
      assert m'[a..a + 8] == m[a..a + 8];
    }
  }

  /** Memory outside the headers does not matter to the list. */
  lemma HeadersKept(m: seq<Byte>, m': seq<Byte>, head: nat, order: seq<nat>)
    requires HeadersApart(order, |m|) && ListIn(ViewOf(m), head, order) && |m'| == |m|
    requires forall c :: c in order ==> SameBytes(m, m', c, HEADER_SIZE)
    ensures ListIn(ViewOf(m'), head, order)
    ensures ChunksOf(ViewOf(m'), order) == ChunksOf(ViewOf(m), order)
  {
    var w, w' := ViewOf(m), ViewOf(m');
    forall c, o: nat | c in order && IsOffset(o) ensures w'(c + o) == w(c + o) {
      assert SameBytes(m, m', c, HEADER_SIZE);
      assert SameBytes(m, m', c + o, 8);
      SameWord(m, m', c + o);
    }
    SameView(w, w', head, order);
  }

  class FreeList {
    var ram: seq<Byte>
    var head: nat
    ghost var order: seq<nat>
    /** The free chunks, in list order. */
    ghost var chunks: seq<Region>

    ghost predicate Valid()
      reads this
    {
      && HeadersApart(order, |ram|)
      && ListIn(ViewOf(ram), head, order)
      && chunks == ChunksOf(ViewOf(ram), order)
    }

    constructor (ram: seq<Byte>)
      requires |ram| <= U64
      ensures this.ram == ram && Valid() && chunks == []
    {
      this.ram := ram;
      head, order, chunks := 0, [], [];
    }

    /** Storing a field of the header at c, in a memory that differs from another one at most in
      * the headers. */
    method StoreField(c: nat, offset: nat, v: nat, ghost among: seq<nat>, ghost m0: seq<Byte>)
      requires HeadersApart(among, |ram|) && c in among && IsOffset(offset) && v < U64
      requires SameButHeaders(m0, ram, among)
      modifies this`ram
      ensures Stores(ViewOf(old(ram)), ViewOf(ram), c + offset, v)
      ensures SameButHeaders(m0, ram, among)
    {
      PutWordStores(ram, c + offset, v);
      PutInHeader(ram, among, c, offset, v);
      SameButHeadersTrans(m0, ram, PutWord(ram, c + offset, v), among, among);
      ram := PutWord(ram, c + offset, v);
    }

    method LoadField(c: nat, offset: nat) returns (v: nat)
      requires c + HEADER_SIZE <= |ram| && IsOffset(offset)
      ensures v == ViewOf(ram)(c + offset) && v < U64
    {
      v := Word(ram, c + offset);
      WordBound(ram, c + offset);
    }

    /** valloc_freelist_allocate_free_chunk */
    method Push(addr: nat, size: nat)
      requires Valid() && HeadersApart([addr] + order, |ram|) && addr !in order && size < U64
      modifies this
      ensures Valid() && order == [addr] + old(order)
      ensures chunks == [Region(addr, size)] + old(chunks)
      ensures SameButHeaders(old(ram), ram, order)
    {
      ghost var w := ViewOf(ram);
      ListHead(w, head, order);
      ghost var w1, w2, w3 := LinkIn(addr, size, [addr] + order);
      PushedIsList(w, w1, w2, w3, ViewOf(ram), head, order, |ram|, addr, size);
      head, order, chunks := addr, [addr] + order, [Region(addr, size)] + chunks;
    }

    method LinkBack(addr: nat, ghost more: seq<nat>, ghost m0: seq<Byte>)
      requires HeadersApart(more, |ram|) && (head != 0 ==> head in more) && addr < U64
      requires SameButHeaders(m0, ram, more)
      modifies this`ram
      ensures head != 0 ==> Stores(ViewOf(old(ram)), ViewOf(ram), head + PREV, addr)
      ensures head == 0 ==> ViewOf(old(ram)) == ViewOf(ram)
      ensures SameButHeaders(m0, ram, more)
    {
      if head != 0 {
        StoreField(head, PREV, addr, more, m0);
      }
    }

    method SetLinks(addr: nat, next: nat, ghost more: seq<nat>, ghost m0: seq<Byte>) returns (ghost w1: View)
      requires HeadersApart(more, |ram|) && addr in more && next < U64
      requires SameButHeaders(m0, ram, more)
      modifies this`ram
      ensures Stores(ViewOf(old(ram)), w1, addr + NEXT, next) && Stores(w1, ViewOf(ram), addr + PREV, 0)
      ensures SameButHeaders(m0, ram, more)
    {
      StoreField(addr, NEXT, next, more, m0);
      w1 := ViewOf(ram);
      StoreField(addr, PREV, 0, more, m0);
    }

    /** The stores of a push. */
    method LinkIn(addr: nat, size: nat, ghost more: seq<nat>) returns (ghost w1: View, ghost w2: View, ghost w3: View)
      requires HeadersApart(more, |ram|) && addr in more && (head != 0 ==> head in more) && size < U64
      modifies this`ram
      ensures Pushes(ViewOf(old(ram)), w1, w2, w3, ViewOf(ram), head, addr, size)
      ensures SameButHeaders(old(ram), ram, more)
    {
      ghost var m0 := ram;
      StoreField(addr, 0, size, more, m0);
      w1 := ViewOf(ram);
      LinkBack(addr, more, m0);
      w2 := ViewOf(ram);
      w3 := SetLinks(addr, head, more, m0);
    }

    /** valloc_freelist_remove_chunk, on the k-th chunk: its own header is left as it was. */
    method Remove(chunk: nat, ghost k: nat)
      requires Valid() && k < |order| && order[k] == chunk
      modifies this
      ensures Valid() && order == Without(old(order), k)
      ensures chunks == RemoveAt(old(chunks), k)
      ensures ChunksOf(ViewOf(ram), old(order)) == old(chunks)
      ensures SameButHeaders(old(ram), ram, old(order))
    {
      ghost var w := ViewOf(ram);
      var p, n := Neighbours(chunk, k);
      ghost var w1 := Bypass(p, n);
      UnlinkedAll(w, w1, ViewOf(ram), head, order, |ram|, k);
      if p == 0 {
        head := n;
      }
      order, chunks := Without(order, k), RemoveAt(chunks, k);
    }

    method Neighbours(chunk: nat, ghost k: nat) returns (p: nat, n: nat)
      requires Valid() && k < |order| && order[k] == chunk
      ensures p == At(order, k - 1) && (p != 0 <==> 0 < k) && (p != 0 ==> p in order)
      ensures n == At(order, k + 1) && (n != 0 ==> n in order)
    {
      assert chunk in order;
      p := LoadField(chunk, PREV);
      n := LoadField(chunk, NEXT);
      ghost var w: View := ViewOf(ram);
      assert p == w(order[k] + PREV) && n == w(order[k] + NEXT);
      LinksOf(w, head, order, k);
    }

    /** The stores of a removal. */
    method Bypass(p: nat, n: nat) returns (ghost w1: View)
      requires HeadersApart(order, |ram|) && (p != 0 ==> p in order) && (n != 0 ==> n in order)
      modifies this`ram
      ensures Unlinks(ViewOf(old(ram)), w1, ViewOf(ram), p, n)
      ensures SameButHeaders(old(ram), ram, order)
    {
      ghost var m0 := ram;
      if p != 0 {
        StoreField(p, NEXT, n, order, m0);
      }
      w1 := ViewOf(ram);
      if n != 0 {
        StoreField(n, PREV, p, order, m0);
      }
    }

    // ----- Reading the list

    /** valloc_freelist_chunk_size */
    method Size(chunk: nat, ghost k: nat) returns (size: nat)
      requires Valid() && k < |order| && order[k] == chunk
      ensures size == chunks[k].size
    {
      assert chunk in order;
      size := LoadField(chunk, 0);
    }

    method Next(chunk: nat, ghost k: nat) returns (next: nat)
      requires Valid() && k < |order| && order[k] == chunk
      ensures next == At(order, k + 1) && (next == 0 <==> k + 1 == |order|)
    {
      assert chunk in order;
      next := LoadField(chunk, NEXT);
      ghost var w: View := ViewOf(ram);
      assert next == w(order[k] + NEXT);
      LinksOf(w, head, order, k);
    }

    lemma Head()
      requires Valid()
      ensures head == At(order, 0) && (head == 0 <==> order == [])
    {
      ListHead(ViewOf(ram), head, order);
    }

    /** The test that valloc_freelist_find_best makes of one chunk. */
    method Room(chunk: nat, ghost k: nat, size: nat, alignment: nat) returns (space: nat, fits: bool)
      requires Valid() && k < |order| && order[k] == chunk && 0 < alignment && Addressable(chunks)
      ensures space == chunks[k].size < U64 - 1 && fits == Fits(chunks[k], size, alignment)
    {
      space := Size(chunk, k);
      assert chunks[k].start == chunk && 0 < chunk by { assert chunk in order; }
      var align := AlignUpTo(chunk, alignment) - chunk;
      fits := space > size + align;
    }

    /** valloc_freelist_find_best */
    method FindBest(size: nat, alignment: nat) returns (best: nat)
      requires Valid() && 0 < alignment && Addressable(chunks)
      ensures Best(chunks, size, alignment) < 0 ==> best == 0
      ensures 0 <= Best(chunks, size, alignment) ==> best == order[Best(chunks, size, alignment)]
    {
      Head();
      var cur := head;
      var smallest := U64 - 1;
      best := 0;
      ghost var k, b := 0, -1;
      while cur != 0
        invariant k <= |order| && cur == At(order, k) && (cur == 0 ==> k == |order|)
        invariant b == Best(chunks[..k], size, alignment)
        invariant best == (if b < 0 then 0 else order[b])
        invariant smallest == (if b < 0 then U64 - 1 else chunks[b].size)
        decreases |order| - k
      {
        var space, fits := Room(cur, k, size, alignment);
        BestNext(chunks, size, alignment, k);
        if fits && space < smallest {
          smallest := space;
          best := cur;
          b := k;
        }
        cur := Next(cur, k);
        k := k + 1;
      }
      assert chunks[..k] == chunks;
    }

    // ----- Splitting a chunk

    /** Pushing a part of one of the chunks that there were. */
    method PushPart(addr: nat, size: nat, ghost m0: seq<Byte>, ghost was: seq<Region>)
      requires Valid() && PartsOf([Region(addr, size)] + chunks, was, |ram|)
      requires SameOutside(m0, ram, was)
      modifies this
      ensures Valid() && chunks == [Region(addr, size)] + old(chunks)
      ensures SameOutside(m0, ram, was)
    {
      ghost var m := ram;
      HeadersOf([Region(addr, size)] + chunks, [addr] + order, |ram|);
      assert ([addr] + order)[1..] == order;
      Push(addr, size);
      HeadersCovered(m0, m, ram, was, chunks, order, |ram|);
    }

    /** Removing one of the parts of the chunks that there were. */
    method RemovePart(chunk: nat, ghost k: nat, ghost m0: seq<Byte>, ghost was: seq<Region>)
      requires Valid() && k < |order| && order[k] == chunk
      requires PartsOf(chunks, was, |ram|) && SameOutside(m0, ram, was)
      modifies this
      ensures Valid() && chunks == RemoveAt(old(chunks), k)
      ensures chunk + 8 <= |ram| && Word(ram, chunk) == old(chunks)[k].size
      ensures SameOutside(m0, ram, was)
    {
      ghost var m, parts := ram, chunks;
      assert chunk in order;
      Remove(chunk, k);
      HeadersCovered(m0, m, ram, was, parts, old(order), |ram|);
      assert ChunksOf(ViewOf(ram), old(order))[k] == parts[k];
    }

    /** valloc_freelist_split_alignment, on the k-th chunk: fails exactly when the block does not
      * fit. */
    method Split(chunk: nat, size: nat, alignment: nat, ghost k: nat) returns (ok: bool, p: nat)
      requires Valid() && k < |order| && order[k] == chunk
      requires RegionsApart(chunks, |ram|) && Addressable(chunks) && HEADER_SIZE <= size && 0 < alignment
      modifies this
      ensures Valid() && SameOutside(old(ram), ram, old(chunks))
      ensures var c := old(chunks)[k];
              var b := BlockIn(c, size, alignment);
              && c.start <= b.start
              && ok == (b.End() <= c.End())
              && (ok ==> p == b.start)
              && (ok ==> chunks == After(c, b) + (Before(c, b) + ([b] + RemoveAt(old(chunks), k))))
              && (ok ==> PartsOf(chunks, old(chunks), |ram|))
    {
      assert chunks[k].start == chunk;
      var chunkAlignment := AlignUpTo(chunk, alignment) - chunk;
      var whole := Size(chunk, k);
      if whole < size + chunkAlignment {
        return false, 0;
      }
      Carve(chunk, size, chunkAlignment, k, Region(AlignUpTo(chunk, alignment), size));
      return true, chunk + chunkAlignment;
    }

    /** The second half of valloc_freelist_split_alignment.  The size of the chunk is read after
      * the chunk has left the list. */
    method Carve(chunk: nat, size: nat, chunkAlignment: nat, ghost k: nat, ghost b: Region)
      requires Valid() && k < |order| && order[k] == chunk && RegionsApart(chunks, |ram|)
      requires b == Region(chunk + chunkAlignment, size) && Inside(b, chunks[k]) && HEADER_SIZE <= size
      modifies this
      ensures Valid() && SameOutside(old(ram), ram, old(chunks))
      ensures var c := old(chunks)[k];
              chunks == After(c, b) + (Before(c, b) + ([b] + RemoveAt(old(chunks), k)))
      ensures PartsOf(chunks, old(chunks), |ram|)
    {
      ghost var m0, was, before, after := ram, chunks, Before(chunks[k], b), After(chunks[k], b);
      SplitParts(was, |ram|, k, b);
      var whole := TakeOut(chunk, k);
      PushParts(chunk, size, chunkAlignment, whole - chunkAlignment - size, m0, was, b, before, after);
    }

    method PushParts(chunk: nat, size: nat, size1: nat, size3: nat, ghost m0: seq<Byte>, ghost was: seq<Region>,
                     ghost b: Region, ghost before: seq<Region>, ghost after: seq<Region>)
      requires Valid() && SameOutside(m0, ram, was) && b == Region(chunk + size1, size)
      requires PartsOf([b] + chunks, was, |ram|) && PartsOf(before + ([b] + chunks), was, |ram|)
      requires PartsOf(after + (before + ([b] + chunks)), was, |ram|)
      requires before == if HEADER_SIZE < size1 then [Region(chunk, size1)] else []
      requires after == if HEADER_SIZE < size3 then [Region(chunk + size1 + size, size3)] else []
      modifies this
      ensures Valid() && chunks == after + (before + ([b] + old(chunks))) && SameOutside(m0, ram, was)
    {
      PushPart(chunk + size1, size, m0, was);
      PushLeftover(chunk, size1, m0, was, before);
      PushLeftover(chunk + size1 + size, size3, m0, was, after);
    }

    method TakeOut(chunk: nat, ghost k: nat) returns (size: nat)
      requires Valid() && k < |order| && order[k] == chunk && RegionsApart(chunks, |ram|)
      modifies this
      ensures Valid() && chunks == RemoveAt(old(chunks), k) && size == old(chunks)[k].size
      ensures SameOutside(old(ram), ram, old(chunks))
    {
      PartsSelf(chunks, |ram|);
      RemovePart(chunk, k, ram, chunks);
      size := Word(ram, chunk);
    }

    method PushLeftover(addr: nat, size: nat, ghost m0: seq<Byte>, ghost was: seq<Region>, ghost part: seq<Region>)
      requires Valid() && PartsOf(part + chunks, was, |ram|) && SameOutside(m0, ram, was)
      requires part == if HEADER_SIZE < size then [Region(addr, size)] else []
      modifies this
      ensures Valid() && chunks == part + old(chunks) && SameOutside(m0, ram, was)
    {
      if size > HEADER_SIZE {
        PushPart(addr, size, m0, was);
      }
    }

    // ----- Coalescing

    /** Setting the size of the k-th chunk. */
    method Resize(chunk: nat, size: nat, ghost k: nat)
      requires Valid() && k < |order| && order[k] == chunk && size < U64
      modifies this
      ensures Valid() && order == old(order)
      ensures chunks == old(chunks)[k := Region(chunk, size)]
      ensures SameButHeaders(old(ram), ram, order)
    {
      ghost var w: View, n := ViewOf(ram), |ram|;
      StoreSize(chunk, size, k);
      ResizedIsList(w, ViewOf(ram), head, order, n, k, size);
      chunks := chunks[k := Region(chunk, size)];
    }

    method StoreSize(chunk: nat, size: nat, ghost k: nat)
      requires HeadersApart(order, |ram|) && k < |order| && order[k] == chunk && size < U64
      modifies this`ram
      ensures |ram| == |old(ram)| && Stores(ViewOf(old(ram)), ViewOf(ram), order[k] + 0, size)
      ensures SameButHeaders(old(ram), ram, order)
    {
      ghost var m0 := ram;
      assert chunk in order;
      StoreField(chunk, 0, size, order, m0);
    }

    /** The merge that __valloc_freelist_compact_chunk_possibility makes. */
    method Absorb(chunk1: nat, chunk2: nat, size: nat, ghost i1: nat, ghost i2: nat)
      requires Valid() && i1 < |order| && i2 < |order| && order[i1] == chunk1 && order[i2] == chunk2 && i1 != i2
      requires chunk1 < chunk2 && size == Merged(chunks[i1], chunks[i2]).size && Addressable(chunks)
      modifies this
      ensures Valid() && order == Without(old(order), i2)
      ensures chunks == MergeInto(old(chunks), i1, i2) && Addressable(chunks)
      ensures SameButHeaders(old(ram), ram, old(order))
    {
      ghost var m0 := ram;
      MergeAddressable(chunks, i1, i2);
      Resize(chunk1, size, i1);
      ghost var m1 := ram;
      Remove(chunk2, i2);
      SameButHeadersTrans(m0, m1, ram, old(order), old(order));
    }

    /** __valloc_freelist_compact_chunk_possibility */
    method Possibility(chunk1: nat, chunk2: nat, pool: AllocList, ghost i1: nat, ghost i2: nat) returns (merged: bool)
      requires Valid() && pool.Valid() && Addressable(chunks)
      requires i1 < |order| && i2 < |order| && order[i1] == chunk1 && order[i2] == chunk2 && chunk1 < chunk2
      modifies this
      ensures Valid() && Addressable(chunks)
      ensures merged == Joins(pool.Live(), old(chunks)[i1], old(chunks)[i2])
      ensures chunks == if merged then Compact(MergeInto(old(chunks), i1, i2), pool.Live(), PositionAfter(i1, i2)) else old(chunks)
      ensures !merged ==> unchanged(this)
      ensures SameButHeaders(old(ram), ram, old(order))
      ensures forall c :: c in order ==> c in old(order)
      decreases |order|, 0
    {
      ghost var m0, merge := ram, MergeInto(chunks, i1, i2);
      assert chunks[i1].start == chunk1 && chunks[i2].start == chunk2;
      var size1 := Size(chunk1, i1);
      var size2 := Size(chunk2, i2);
      var end1 := chunk1 + size1;
      var size := size1;
      if end1 == chunk2 {
        size := size1 + size2;
      } else {
        var blocked := pool.IsRegionAllocated(end1, chunk2);
        if blocked {
          return false;
        }
        size := size1 + (chunk2 - end1) + size2;
      }
      Absorb(chunk1, chunk2, size, i1, i2);
      ghost var m1, order1 := ram, order;
      AfterWithout(old(order), i1, i2);
      CompactTogether(chunk1, pool, PositionAfter(i1, i2));
      SameButHeadersTrans(m0, m1, ram, order1, old(order));
      return true;
    }

    /** __compact_together */
    method CompactTogether(chunk: nat, pool: AllocList, ghost i: nat)
      requires Valid() && pool.Valid() && Addressable(chunks) && i < |order| && order[i] == chunk
      modifies this
      ensures Valid() && Addressable(chunks)
      ensures chunks == Compact(old(chunks), pool.Live(), i)
      ensures SameButHeaders(old(ram), ram, old(order))
      ensures forall c :: c in order ==> c in old(order)
      decreases |order|, 2
    {
      Head();
      var cur := head;
      ghost var k, live := 0, pool.Live();
      while cur != 0
        invariant k <= |order| && cur == At(order, k) && (cur == 0 ==> k == |order|)
        invariant Valid() && unchanged(this)
        invariant forall j :: 0 <= j < k ==> !CanMerge(chunks, live, i, j)
        decreases |order| - k
      {
        var merged := TryMerge(chunk, cur, pool, i, k);
        if merged {
          return;
        }
        cur := Next(cur, k);
        k := k + 1;
      }
    }

    /** One round of __compact_together. */
    method TryMerge(chunk: nat, cur: nat, pool: AllocList, ghost i: nat, ghost k: nat) returns (merged: bool)
      requires Valid() && pool.Valid() && Addressable(chunks)
      requires i < |order| && order[i] == chunk && k < |order| && order[k] == cur
      requires forall j :: 0 <= j < k ==> !CanMerge(chunks, pool.Live(), i, j)
      modifies this
      ensures Valid() && Addressable(chunks)
      ensures merged == CanMerge(old(chunks), pool.Live(), i, k)
      ensures merged ==> chunks == Compact(old(chunks), pool.Live(), i)
      ensures !merged ==> unchanged(this)
      ensures SameButHeaders(old(ram), ram, old(order))
      ensures forall c :: c in order ==> c in old(order)
      decreases |order|, 1
    {
      assert chunks[i].start == chunk && chunks[k].start == cur;
      merged := false;
      if chunk < cur {
        merged := Possibility(chunk, cur, pool, i, k);
        if merged {
          CompactMerges(old(chunks), pool.Live(), i, k, i, k);
        }
      } else if chunk != cur {
        merged := Possibility(cur, chunk, pool, k, i);
        if merged {
          CompactMerges(old(chunks), pool.Live(), i, k, k, i);
        }
      }
    }

    // ----- The bar

    /** __next_free_chunk */
    method NextFreeChunk() returns (best: nat)
      requires Valid()
      ensures best == 0 <==> chunks == []
      ensures best != 0 ==> best == order[Lowest(chunks)]
    {
      Head();
      var cur := head;
      best := 0;
      ghost var k := 0;
      while cur != 0
        invariant k <= |order| && cur == At(order, k) && (cur == 0 ==> k == |order|)
        invariant k == 0 ==> best == 0
        invariant k > 0 ==> best != 0 && best == order[Lowest(chunks[..k])]
        decreases |order| - k
      {
        LowestNext(chunks, k);
        assert cur != 0 && chunks[k].start == cur;
        if best == 0 || best > cur {
          best := cur;
        }
        cur := Next(cur, k);
        k := k + 1;
      }
      assert chunks[..k] == chunks;
    }

    /** One round of __shift_top: moves the bar past the lowest chunk unless a block is in the way. */
    method RaiseOnce(bar: nat, pool: AllocList) returns (raised: bool, top: nat)
      requires Valid() && pool.Valid()
      modifies this
      ensures Valid()
      ensures raised == (old(chunks) != [] && !Allocated(pool.Live(), bar, old(chunks)[Lowest(old(chunks))].start))
      ensures !raised ==> top == bar && chunks == old(chunks)
      ensures raised ==> top == old(chunks)[Lowest(old(chunks))].End() && chunks == RemoveAt(old(chunks), Lowest(old(chunks)))
      ensures raised ==> |order| < |old(order)|
      ensures SameButHeaders(old(ram), ram, old(order))
      ensures forall c :: c in order ==> c in old(order)
    {
      var next := NextFreeChunk();
      if next == 0 {
        return false, bar;
      }
      ghost var k := Lowest(chunks);
      assert chunks[k].start == next;
      var size := Size(next, k);
      var blocked := pool.IsRegionAllocated(bar, next);
      if blocked {
        return false, bar;
      }
      AfterWithout(order, k, k);
      Remove(next, k);
      return true, next + size;
    }

    /** __shift_top */
    method ShiftTop(bar: nat, pool: AllocList) returns (top: nat)
      requires Valid() && pool.Valid()
      modifies this
      ensures Valid()
      ensures (top, chunks) == Valloc.ShiftTop(bar, old(chunks), pool.Live())
      ensures SameButHeaders(old(ram), ram, old(order))
    {
      top := bar;
      var raised := true;
      ghost var live := pool.Live();
      while raised
        invariant Valid() && pool.Valid() && pool.Live() == live
        invariant Valloc.ShiftTop(bar, old(chunks), live) == Valloc.ShiftTop(top, chunks, live)
        invariant !raised ==> Valloc.ShiftTop(top, chunks, live) == (top, chunks)
        invariant SameButHeaders(old(ram), ram, old(order))
        invariant forall c :: c in order ==> c in old(order)
        decreases raised, |order|
      {
        ghost var m1, order1 := ram, order;
        ShiftStep(top, chunks, live);
        raised, top := RaiseOnce(top, pool);
        SameButHeadersTrans(old(ram), m1, ram, order1, old(order));
      }
    }

    // ----- Filling memory

    /** valloc_memset on memory that is not free */
    method Memset(p: nat, value: Byte, size: nat)
      requires Valid() && p + size <= |ram|
      requires forall k :: 0 <= k < |chunks| ==> Disjoint(chunks[k], Region(p, size)) && HEADER_SIZE <= chunks[k].size
      modifies this`ram
      ensures Valid() && |ram| == |old(ram)|
      ensures forall x: nat :: x < |ram| ==> ram[x] == if p <= x < p + size then value else old(ram)[x]
    {
      ghost var m0 := ram;
      Fill(p, value, size);
      forall c | c in order ensures SameBytes(m0, ram, c, HEADER_SIZE) {
        var k :| 0 <= k < |order| && order[k] == c;
        assert chunks[k].start == c;
      }
      HeadersKept(old(ram), ram, head, order);
    }

    method Fill(p: nat, value: Byte, size: nat)
      requires p + size <= |ram|
      modifies this`ram
      ensures |ram| == |old(ram)|
      ensures forall x: nat :: x < |ram| ==> ram[x] == if p <= x < p + size then value else old(ram)[x]
    {
      var ptr := p;
      while ptr < p + size
        invariant p <= ptr <= p + size && |ram| == |old(ram)|
        invariant forall x: nat :: x < |ram| ==> ram[x] == if p <= x < ptr then value else old(ram)[x]
      {
        ram := ram[ptr := value];
        ptr := ptr + 1;
      }
    }
  }
}
