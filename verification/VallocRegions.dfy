/** The regions of the heap of lib/valloc, as sets: what the free chunks and the allocated
  * blocks look like after every alloc and free, and why coalescing on free restores it.
  */
module VallocRegions {

  /** A stretch of memory: a free chunk or an allocated block. */
  datatype Region = Region(start: nat, size: nat) {
    function End(): nat { start + size }
  }

  /** sizeof(valloc_free_chunk): a free chunk's header lives in its first bytes. */
  const HEADER_SIZE := 24

  predicate Disjoint(a: Region, b: Region) {
    a.End() <= b.start || b.End() <= a.start
  }

  ghost predicate Apart(rs: set<Region>) {
    forall a, b :: a in rs && b in rs && a != b ==> Disjoint(a, b)
  }

  /** Every region lies in [lo, hi) and has room for a free-list header. */
  ghost predicate Within(rs: set<Region>, lo: nat, hi: nat) {
    forall a :: a in rs ==> lo <= a.start && HEADER_SIZE <= a.size && a.End() <= hi
  }

  /** valloc_is_region_allocated: some block starts in [lo, hi], both ends included. */
  ghost predicate StartsIn(live: set<Region>, lo: nat, hi: nat) {
    exists b :: b in live && lo <= b.start <= hi
  }

  /** The free chunks and blocks take up disjoint stretches of [top, limit). */
  ghost predicate Layout(free: set<Region>, live: set<Region>, top: nat, limit: nat) {
    && top <= limit
    && free !! live
    && Apart(free + live)
    && Within(free + live, top, limit)
  }

  /** A block starts between any two free chunks. */
  ghost predicate Separated(free: set<Region>, live: set<Region>) {
    forall a, b :: a in free && b in free && a.End() <= b.start ==> StartsIn(live, a.End(), b.start)
  }

  /** A block starts between the bar and any free chunk. */
  ghost predicate TopSeparated(free: set<Region>, live: set<Region>, top: nat) {
    forall a :: a in free ==> StartsIn(live, top, a.start)
  }

  /** The state between any two calls of alloc and free. */
  ghost predicate Settled(free: set<Region>, live: set<Region>, top: nat, limit: nat) {
    && Layout(free, live, top, limit)
    && Separated(free, live)
    && TopSeparated(free, live, top)
  }

  /** While free is coalescing around chunk x: whatever is not separated by a block is
    * separated by x. */
  ghost predicate SettledBut(free: set<Region>, live: set<Region>, top: nat, limit: nat, x: Region) {
    && Layout(free, live, top, limit)
    && x in free
    && (forall a, b :: a in free && b in free && a != x && b != x && a.End() <= b.start ==>
          StartsIn(live, a.End(), b.start) || (a.End() <= x.start && x.End() <= b.start))
    && (forall a :: a in free && a != x ==> StartsIn(live, top, a.start) || x.End() <= a.start)
  }

  /** The two chunks can be merged: no block starts between them.  (Touching chunks have no
    * block between them either.) */
  ghost predicate Mergeable(live: set<Region>, lo: Region, hi: Region) {
    lo.End() == hi.start || !StartsIn(live, lo.End(), hi.start)
  }

  function Merged(lo: Region, hi: Region): Region
    requires lo.start <= hi.End()
  {
    Region(lo.start, hi.End() - lo.start)
  }

  // ----- alloc

  /** Carving a block out of a free chunk, with what is left over on either side kept free
    * only when it is larger than a header. */
  lemma CarveSettled(free: set<Region>, live: set<Region>, top: nat, limit: nat,
                     c: Region, b: Region, rest: set<Region>)
    requires Settled(free, live, top, limit) && c in free
    requires c.start <= b.start && b.End() <= c.End() && HEADER_SIZE <= b.size
    requires rest <= {Region(c.start, b.start - c.start), Region(b.End(), c.End() - b.End())}
    requires forall r :: r in rest ==> HEADER_SIZE <= r.size
    ensures Settled(free - {c} + rest, live + {b}, top, limit)
    ensures forall x :: x in live ==> Disjoint(x, b)
  {
    SplitLayout(free + live, top, limit, c, rest + {b});
    assert (free + live) - {c} + (rest + {b}) == (free - {c} + rest) + (live + {b}) by {
      assert c !in live;
    }
    forall r | r in live ensures r !in rest && r != b && Disjoint(r, b) {
      assert r in free + live && c in free + live && Disjoint(r, c);
    }
    forall r | r in free - {c} ensures r != b {
      assert r in free + live && c in free + live && Disjoint(r, c);
    }
    CarveSeparated(free, live, top, limit, c, b, rest);
  }

  /** Replacing a region by parts of it. */
  lemma SplitLayout(rs: set<Region>, lo: nat, hi: nat, c: Region, parts: set<Region>)
    requires Apart(rs) && Within(rs, lo, hi) && c in rs && Apart(parts)
    requires forall r :: r in parts ==> HEADER_SIZE <= r.size && c.start <= r.start && r.End() <= c.End()
    ensures Apart(rs - {c} + parts) && Within(rs - {c} + parts, lo, hi)
  {
    forall x, y | x in rs - {c} + parts && y in rs - {c} + parts && x != y ensures Disjoint(x, y) {
      if x in rs - {c} && y !in rs - {c} {
        assert Disjoint(x, c);
      } else if y in rs - {c} && x !in rs - {c} {
        assert Disjoint(y, c);
      }
    }
  }

  lemma CarveSeparated(free: set<Region>, live: set<Region>, top: nat, limit: nat,
                       c: Region, b: Region, rest: set<Region>)
    requires Settled(free, live, top, limit) && c in free
    requires c.start <= b.start && b.End() <= c.End() && HEADER_SIZE <= b.size
    requires rest <= {Region(c.start, b.start - c.start), Region(b.End(), c.End() - b.End())}
    requires forall r :: r in rest ==> HEADER_SIZE <= r.size
    ensures Separated(free - {c} + rest, live + {b})
    ensures TopSeparated(free - {c} + rest, live + {b}, top)
  {
    var free', live' := free - {c} + rest, live + {b};
    forall x, y | x in free' && y in free' && x.End() <= y.start ensures StartsIn(live', x.End(), y.start) {
      if x in rest && y in rest {
        assert b in live';
      } else if x in rest {
        assert c in free + live && y in free + live && Disjoint(c, y);
        StartsInGrows(live, live', c.End(), y.start, x.End(), y.start);
      } else if y in rest {
        assert c in free + live && x in free + live && Disjoint(c, x);
        StartsInGrows(live, live', x.End(), c.start, x.End(), y.start);
      } else {
        StartsInGrows(live, live', x.End(), y.start, x.End(), y.start);
      }
    }
    forall x | x in free' ensures StartsIn(live', top, x.start) {
      if x in rest {
        StartsInGrows(live, live', top, c.start, top, x.start);
      } else {
        StartsInGrows(live, live', top, x.start, top, x.start);
      }
    }
  }

  lemma StartsInGrows(live: set<Region>, live': set<Region>, lo: nat, hi: nat, lo': nat, hi': nat)
    requires live <= live' && StartsIn(live, lo, hi) && lo' <= lo && hi <= hi'
    ensures StartsIn(live', lo', hi')
  {
    var b :| b in live && lo <= b.start <= hi;
    assert b in live';
  }

  /** Moving the bar down to the start of a new block. */
  lemma LowerSettled(free: set<Region>, live: set<Region>, top: nat, limit: nat, b: Region)
    requires Settled(free, live, top, limit)
    requires HEADER_SIZE <= b.size && b.End() == top
    ensures Settled(free, live + {b}, b.start, limit)
    ensures forall x :: x in live ==> Disjoint(x, b)
  {
    var live' := live + {b};
    forall x | x in free + live ensures Disjoint(x, b) && x != b {}
    assert Separated(free, live') by {
      forall x, y | x in free && y in free && x.End() <= y.start ensures StartsIn(live', x.End(), y.start) {
        StartsInGrows(live, live', x.End(), y.start, x.End(), y.start);
      }
    }
    assert b in live';
  }

  // ----- free

  lemma ReleaseSettledBut(free: set<Region>, live: set<Region>, top: nat, limit: nat, b: Region)
    requires Settled(free, live, top, limit) && b in live
    ensures SettledBut(free + {b}, live - {b}, top, limit, b)
  {
    var free', live' := free + {b}, live - {b};
    assert free' + live' == free + live;
    forall x, y | x in free' && y in free' && x != b && y != b && x.End() <= y.start
      ensures StartsIn(live', x.End(), y.start) || (x.End() <= b.start && b.End() <= y.start)
    {
      var s :| s in live && x.End() <= s.start <= y.start;
      if s == b {
        assert Disjoint(b, y);
      } else {
        assert s in live';
      }
    }
    forall x | x in free' && x != b ensures StartsIn(live', top, x.start) || b.End() <= x.start {
      var s :| s in live && top <= s.start <= x.start;
      if s == b {
        assert Disjoint(b, x);
      } else {
        assert s in live';
      }
    }
  }

  /** Nothing lies in the gap between the chunk being coalesced and a chunk it can be merged
    * with, on whichever side. */
  lemma GapEmpty(free: set<Region>, live: set<Region>, top: nat, limit: nat, x: Region,
                 lo: Region, hi: Region, r: Region)
    requires SettledBut(free, live, top, limit, x)
    requires lo in free && hi in free && lo != hi && (x == lo || x == hi) && lo.End() <= hi.start
    requires Mergeable(live, lo, hi)
    requires r in free + live && r != lo && r != hi
    ensures r.End() <= lo.start || hi.End() <= r.start
  {
    assert lo in free + live && hi in free + live;
    assert Disjoint(r, lo) && Disjoint(r, hi);
    if r in live {
      assert lo.End() <= r.start <= hi.start ==> StartsIn(live, lo.End(), hi.start);
    } else if r in free && lo.End() <= r.start && r.End() <= hi.start {
      if x == lo {
        StartsInGrows(live, live, r.End(), hi.start, lo.End(), hi.start);
      } else {
        StartsInGrows(live, live, lo.End(), r.start, lo.End(), hi.start);
      }
    }
  }

  /** Merging keeps the state settled but for the merged chunk. */
  lemma MergeSettledBut(free: set<Region>, live: set<Region>, top: nat, limit: nat, x: Region,
                        lo: Region, hi: Region)
    requires SettledBut(free, live, top, limit, x)
    requires lo in free && hi in free && lo != hi && (x == lo || x == hi) && lo.End() <= hi.start
    requires Mergeable(live, lo, hi)
    ensures Merged(lo, hi) !in free - {lo, hi}
    ensures SettledBut(free - {lo, hi} + {Merged(lo, hi)}, live, top, limit, Merged(lo, hi))
  {
    var m, others := Merged(lo, hi), free - {lo, hi};
    var free' := others + {m};
    MergeLayout(free, live, top, limit, x, lo, hi);
    forall p, q | p in free' && q in free' && p != m && q != m && p.End() <= q.start
      ensures StartsIn(live, p.End(), q.start) || (p.End() <= m.start && m.End() <= q.start)
    {
      GapEmpty(free, live, top, limit, x, lo, hi, p);
      GapEmpty(free, live, top, limit, x, lo, hi, q);
    }
    forall p | p in free' && p != m ensures StartsIn(live, top, p.start) || m.End() <= p.start {
      GapEmpty(free, live, top, limit, x, lo, hi, p);
    }
  }

  lemma MergeLayout(free: set<Region>, live: set<Region>, top: nat, limit: nat, x: Region,
                    lo: Region, hi: Region)
    requires SettledBut(free, live, top, limit, x)
    requires lo in free && hi in free && lo != hi && (x == lo || x == hi) && lo.End() <= hi.start
    requires Mergeable(live, lo, hi)
    ensures Merged(lo, hi) !in free - {lo, hi}
    ensures Layout(free - {lo, hi} + {Merged(lo, hi)}, live, top, limit)
  {
    var m, rs := Merged(lo, hi), free + live;
    assert lo in rs && hi in rs;
    forall r | r in rs && r != lo && r != hi ensures Disjoint(r, m) && r != m {
      GapEmpty(free, live, top, limit, x, lo, hi, r);
    }
    assert lo !in live && hi !in live;
    assert free - {lo, hi} + {m} + live == rs - {lo, hi} + {m};
    forall p, q | p in rs - {lo, hi} + {m} && q in rs - {lo, hi} + {m} && p != q ensures Disjoint(p, q) {
    }
  }

  /** Once nothing can be merged with x, every pair of chunks is separated. */
  lemma CompactedSeparated(free: set<Region>, live: set<Region>, top: nat, limit: nat, x: Region)
    requires SettledBut(free, live, top, limit, x)
    requires forall a :: a in free && a.End() <= x.start ==> !Mergeable(live, a, x)
    requires forall a :: a in free && x.End() <= a.start ==> !Mergeable(live, x, a)
    ensures Separated(free, live)
  {
    forall a, b | a in free && b in free && a.End() <= b.start ensures StartsIn(live, a.End(), b.start) {
      if a != x && b != x && !StartsIn(live, a.End(), b.start) {
        StartsInGrows(live, live, a.End(), x.start, a.End(), b.start);
      }
    }
  }

  /** The lowest chunk keeps every chunk apart from the bar if a block starts below it. */
  lemma LowestTopSeparated(free: set<Region>, live: set<Region>, top: nat, limit: nat, low: Region)
    requires Layout(free, live, top, limit) && low in free
    requires forall a :: a in free ==> low.start <= a.start
    requires StartsIn(live, top, low.start)
    ensures TopSeparated(free, live, top)
  {
    forall a | a in free ensures StartsIn(live, top, a.start) {
      StartsInGrows(live, live, top, low.start, top, a.start);
    }
  }

  /** If no block starts between the bar and the lowest chunk, the bar can move past it. */
  lemma RaiseLayout(free: set<Region>, live: set<Region>, top: nat, limit: nat, low: Region)
    requires Layout(free, live, top, limit) && Separated(free, live) && low in free
    requires forall a :: a in free ==> low.start <= a.start
    requires !StartsIn(live, top, low.start)
    ensures Settled(free - {low}, live, low.End(), limit)
  {
    assert low in free + live;
    forall r | r in free - {low} + live ensures low.End() <= r.start {
      assert r in free + live && Disjoint(low, r);
      if r in live {
        assert r.start > low.start;
      }
    }
  }

  // ----- What the settled state is good for

  /** Coalescing is complete: when no block is left, nothing is left on the free list. */
  lemma NothingLive(free: set<Region>, live: set<Region>, top: nat, limit: nat)
    requires Settled(free, live, top, limit)
    ensures live == {} ==> free == {}
  {
    if free != {} {
      var a :| a in free;
      assert StartsIn(live, top, a.start);
    }
  }
}
