/** The allocation records of lib/valloc/valloc_alloclist.c: a pool of 1024 records on two doubly
  * linked lists, those in use and the spare ones.
  */
module AllocRecords {
  import opened Links
  import opened Valloc
  import opened VallocRegions

  /** valloc_alloc_chunk; a pointer to the i-th record is i + 1, and NULL is 0. */
  datatype Record = Record(start: nat, size: nat, prev: nat, next: nat)

  function To(rs: seq<Record>, c: nat): Record
    requires 1 <= c <= |rs|
  {
    rs[c - 1]
  }

  ghost function Prevs(rs: seq<Record>): map<nat, nat> {
    map c: nat | 1 <= c <= |rs| :: To(rs, c).prev
  }

  ghost function Nexts(rs: seq<Record>): map<nat, nat> {
    map c: nat | 1 <= c <= |rs| :: To(rs, c).next
  }

  ghost predicate RecordList(rs: seq<Record>, head: nat, order: seq<nat>) {
    IsList(Prevs(rs), Nexts(rs), head, order)
  }

  ghost predicate InPool(order: seq<nat>, n: nat) {
    forall k :: 0 <= k < |order| ==> 1 <= order[k] <= n
  }

  /** The blocks on a list of records. */
  ghost function Blocks(rs: seq<Record>, order: seq<nat>): (s: seq<Region>)
    requires InPool(order, |rs|)
    ensures |s| == |order|
  {
    seq(|order|, k requires 0 <= k < |order| => Region(rs[order[k] - 1].start, rs[order[k] - 1].size))
  }

  /** Every record is on exactly one of the two lists. */
  ghost predicate Partition(live: seq<nat>, spare: seq<nat>, n: nat) {
    && |live| + |spare| == n
    && forall c: nat :: 1 <= c <= n ==> (c in live <==> c !in spare)
  }

  /** The two record stores differ at most in the links. */
  ghost predicate SameBlocks(rs: seq<Record>, rs': seq<Record>) {
    |rs'| == |rs| && forall i :: 0 <= i < |rs| ==> rs'[i].start == rs[i].start && rs'[i].size == rs[i].size
  }

  lemma ListNodes(rs: seq<Record>, head: nat, order: seq<nat>)
    requires RecordList(rs, head, order)
    ensures InPool(order, |rs|) && 0 !in order
    ensures order != [] ==> head == order[0]
  {
    forall k | 0 <= k < |order| ensures 1 <= order[k] <= |rs| {
      assert LinkedAt(Prevs(rs), Nexts(rs), order, k);
    }
  }

  lemma RecordLinks(rs: seq<Record>, head: nat, order: seq<nat>, k: nat)
    requires RecordList(rs, head, order) && k < |order|
    ensures 1 <= order[k] <= |rs|
    ensures rs[order[k] - 1].prev == At(order, k - 1) && rs[order[k] - 1].next == At(order, k + 1)
    ensures At(order, k - 1) != 0 <==> 0 < k
    ensures At(order, k + 1) != 0 <==> k + 1 < |order|
    ensures At(order, k - 1) <= |rs| && At(order, k + 1) <= |rs|
  {
    assert LinkedAt(Prevs(rs), Nexts(rs), order, k);
    ListNodes(rs, head, order);
  }

  // ----- swap, in two halves

  /** rs' is rs after a store to one link of the record c. */
  ghost predicate SetsNext(rs: seq<Record>, rs': seq<Record>, c: nat, v: nat)
    requires 1 <= c <= |rs|
  {
    rs' == rs[c - 1 := rs[c - 1].(next := v)]
  }

  ghost predicate SetsPrev(rs: seq<Record>, rs': seq<Record>, c: nat, v: nat)
    requires 1 <= c <= |rs|
  {
    rs' == rs[c - 1 := rs[c - 1].(prev := v)]
  }

  lemma NextSet(rs: seq<Record>, rs': seq<Record>, c: nat, v: nat)
    requires 1 <= c <= |rs| && SetsNext(rs, rs', c, v)
    ensures Nexts(rs') == Nexts(rs)[c := v] && Prevs(rs') == Prevs(rs) && SameBlocks(rs, rs')
  {
  }

  lemma PrevSet(rs: seq<Record>, rs': seq<Record>, c: nat, v: nat)
    requires 1 <= c <= |rs| && SetsPrev(rs, rs', c, v)
    ensures Prevs(rs') == Prevs(rs)[c := v] && Nexts(rs') == Nexts(rs) && SameBlocks(rs, rs')
  {
  }

  lemma Unlinked(rs: seq<Record>, rs1: seq<Record>, rs2: seq<Record>, head: nat, order: seq<nat>, k: nat)
    requires RecordList(rs, head, order) && k < |order|
    requires var p := At(order, k - 1); p <= |rs| && if p != 0 then SetsNext(rs, rs1, p, At(order, k + 1)) else rs1 == rs
    requires var n := At(order, k + 1);
             n <= |rs| && |rs1| == |rs| && if n != 0 then SetsPrev(rs1, rs2, n, At(order, k - 1)) else rs2 == rs1
    ensures RecordList(rs2, if k == 0 then At(order, 1) else head, Without(order, k))
    ensures SameBlocks(rs, rs2)
    ensures forall c :: 1 <= c <= |rs| && c !in order ==> rs2[c - 1] == rs[c - 1]
  {
    RecordLinks(rs, head, order, k);
    var p, n := At(order, k - 1), At(order, k + 1);
    if p != 0 {
      NextSet(rs, rs1, p, n);
    }
    if n != 0 {
      PrevSet(rs1, rs2, n, p);
    }
    RemoveNode(Prevs(rs), Nexts(rs), head, order, k);
    assert Prevs(rs)[order[k]] == p && Nexts(rs)[order[k]] == n;
  }

  /** Stores to other records leave a list alone. */
  lemma OtherList(rs: seq<Record>, rs': seq<Record>, head: nat, order: seq<nat>)
    requires RecordList(rs, head, order) && |rs'| == |rs|
    requires forall c :: c in order && 1 <= c <= |rs| ==> rs'[c - 1] == rs[c - 1]
    ensures RecordList(rs', head, order)
  {
    ListNodes(rs, head, order);
    SameList(Prevs(rs), Nexts(rs), head, order, Prevs(rs'), Nexts(rs'));
  }

  /** Linking record c in at the front. */
  lemma LinkedIn(rs: seq<Record>, rs1: seq<Record>, rs2: seq<Record>, rs3: seq<Record>,
                 head: nat, order: seq<nat>, c: nat)
    requires RecordList(rs, head, order) && 1 <= c <= |rs| && c !in order && head <= |rs|
    requires SetsNext(rs, rs1, c, head)
    requires |rs1| == |rs| && SetsPrev(rs1, rs2, c, 0)
    requires |rs2| == |rs| && if head != 0 then SetsPrev(rs2, rs3, head, c) else rs3 == rs2
    ensures RecordList(rs3, c, [c] + order)
    ensures SameBlocks(rs, rs3)
    ensures forall d :: 1 <= d <= |rs| && d != c && d !in order ==> rs3[d - 1] == rs[d - 1]
  {
    NextSet(rs, rs1, c, head);
    PrevSet(rs1, rs2, c, 0);
    if head != 0 {
      PrevSet(rs2, rs3, head, c);
      assert head == order[0] && head != c;
      assert Prevs(rs)[c := 0][head := c] == Prevs(rs)[head := c][c := 0];
    }
    PushNode(Prevs(rs), Nexts(rs), head, order, c);
  }

  // ----- The blocks on the lists

  lemma SameBlocksOn(rs: seq<Record>, rs': seq<Record>, order: seq<nat>)
    requires InPool(order, |rs|) && SameBlocks(rs, rs')
    ensures Blocks(rs', order) == Blocks(rs, order)
  {
  }

  lemma BlocksCons(rs: seq<Record>, c: nat, order: seq<nat>)
    requires InPool(order, |rs|) && 1 <= c <= |rs|
    ensures InPool([c] + order, |rs|)
    ensures Blocks(rs, [c] + order) == [Region(rs[c - 1].start, rs[c - 1].size)] + Blocks(rs, order)
  {
  }

  lemma BlocksWithout(rs: seq<Record>, order: seq<nat>, k: nat)
    requires InPool(order, |rs|) && k < |order|
    ensures InPool(Without(order, k), |rs|)
    ensures Blocks(rs, Without(order, k)) == RemoveAt(Blocks(rs, order), k)
  {
  }

  /** Moving a record from one list to the other keeps the partition. */
  lemma PartitionMoved(live: seq<nat>, spare: seq<nat>, n: nat, k: nat)
    requires Partition(live, spare, n) && InPool(live, n) && InPool(spare, n) && k < |live| && Distinct(live)
    ensures Partition(Without(live, k), [live[k]] + spare, n)
    ensures InPool(Without(live, k), n) && InPool([live[k]] + spare, n)
  {
    DistinctWithout(live, k);
  }

  /** Where the start and size of a record that is on neither list are set. */
  lemma SetBlock(rs: seq<Record>, c: nat, start: nat, size: nat, head: nat, order: seq<nat>)
    requires RecordList(rs, head, order) && 1 <= c <= |rs|
    ensures RecordList(rs[c - 1 := rs[c - 1].(start := start, size := size)], head, order)
    ensures InPool(order, |rs|)
    ensures c !in order ==>
              Blocks(rs[c - 1 := rs[c - 1].(start := start, size := size)], order) == Blocks(rs, order)
  {
    var rs' := rs[c - 1 := rs[c - 1].(start := start, size := size)];
    ListNodes(rs, head, order);
    assert Prevs(rs') == Prevs(rs) && Nexts(rs') == Nexts(rs);
    if c !in order {
      forall k | 0 <= k < |order| ensures rs'[order[k] - 1] == rs[order[k] - 1] {}
    }
  }

  // ----- The initial list of spare records

  ghost function UpTo(n: nat): (s: seq<nat>)
    ensures |s| == n
  {
    seq(n, k => k + 1)
  }

  ghost predicate ChainedAt(rs: seq<Record>, k: nat)
    requires k < |rs|
  {
    rs[k].prev == k && rs[k].next == if k + 1 == |rs| then 0 else k + 2
  }

  lemma Chained(rs: seq<Record>)
    requires 0 < |rs| && forall k :: 0 <= k < |rs| ==> ChainedAt(rs, k)
    ensures RecordList(rs, 1, UpTo(|rs|)) && RecordList(rs, 0, [])
    ensures InPool(UpTo(|rs|), |rs|) && Partition([], UpTo(|rs|), |rs|)
  {
    var order := UpTo(|rs|);
    forall k | 0 <= k < |order| ensures LinkedAt(Prevs(rs), Nexts(rs), order, k) {
      assert ChainedAt(rs, k);
      assert order[k] == k + 1 && To(rs, k + 1) == rs[k];
    }
    forall c: nat | 1 <= c <= |rs| ensures c in order {
      assert order[c - 1] == c;
    }
  }

  class AllocList {
    const records: array<Record>
    var inUse: nat
    var spare: nat
    ghost var inUseOrder: seq<nat>
    ghost var spareOrder: seq<nat>

    ghost predicate Valid()
      reads this, records
    {
      && records.Length == NUM_RECORDS
      && RecordList(records[..], inUse, inUseOrder)
      && RecordList(records[..], spare, spareOrder)
      && InPool(inUseOrder, NUM_RECORDS) && InPool(spareOrder, NUM_RECORDS)
      && Partition(inUseOrder, spareOrder, NUM_RECORDS)
    }

    /** The blocks allocated, the latest first. */
    ghost function Live(): (s: seq<Region>)
      requires Valid()
      reads this, records
      ensures |s| == |inUseOrder| <= NUM_RECORDS
    {
      Blocks(records[..], inUseOrder)
    }

    /** The list part of init_valloc: every record is spare. */
    constructor ()
      ensures Valid() && fresh(records) && Live() == []
    {
      records := new Record[NUM_RECORDS](_ => Record(0, 0, 0, 0));
      inUse, spare := 0, 1;
      inUseOrder, spareOrder := [], UpTo(NUM_RECORDS);
      new;
      for i := 0 to NUM_RECORDS
        invariant inUse == 0 && spare == 1 && inUseOrder == [] && spareOrder == UpTo(NUM_RECORDS)
        invariant records.Length == NUM_RECORDS && fresh(records)
        invariant forall k :: 0 <= k < i ==> ChainedAt(records[..], k)
      {
        ghost var was := records[..];
        records[i] := records[i].(prev := if i == 0 then 0 else i);
        records[i] := records[i].(next := if i == NUM_RECORDS - 1 then 0 else i + 2);
        forall k | 0 <= k < i ensures ChainedAt(records[..], k) {
          assert ChainedAt(was, k);
        }
      }
      Chained(records[..]);
    }

    /** swap: move the k-th record of one list to the front of the other, and return the new heads. */
    method Swap(chunk: nat, from: nat, to: nat, ghost fromOrder: seq<nat>, ghost toOrder: seq<nat>, ghost k: nat)
      returns (from': nat, to': nat)
      requires RecordList(records[..], from, fromOrder) && RecordList(records[..], to, toOrder)
      requires k < |fromOrder| && fromOrder[k] == chunk
      requires forall c :: c in fromOrder ==> c !in toOrder
      modifies records
      ensures RecordList(records[..], from', Without(fromOrder, k))
      ensures RecordList(records[..], to', [chunk] + toOrder)
      ensures SameBlocks(old(records[..]), records[..])
    {
      ghost var rs0 := records[..];
      RecordLinks(rs0, from, fromOrder, k);
      ListNodes(rs0, to, toOrder);
      DistinctWithout(fromOrder, k);
      from', to' := from, to;
      var p, n := records[chunk - 1].prev, records[chunk - 1].next;
      if p != 0 {
        records[p - 1] := records[p - 1].(next := n);
      } else {
        from' := n;
      }
      ghost var rs1 := records[..];
      if n != 0 {
        records[n - 1] := records[n - 1].(prev := p);
      }
      ghost var rs2 := records[..];
      Unlinked(rs0, rs1, rs2, from, fromOrder, k);
      OtherList(rs0, rs2, to, toOrder);
      records[chunk - 1] := records[chunk - 1].(next := to);
      ghost var rs3 := records[..];
      records[chunk - 1] := records[chunk - 1].(prev := 0);
      ghost var rs4 := records[..];
      if to != 0 {
        records[to - 1] := records[to - 1].(prev := chunk);
      }
      to' := chunk;
      LinkedIn(rs2, rs3, rs4, records[..], to, toOrder, chunk);
      OtherList(rs2, records[..], from', Without(fromOrder, k));
    }

    /** valloc_alloclist_find_alloc_chunk */
    method Find(addr: nat) returns (cur: nat)
      requires Valid()
      ensures FindBlock(Live(), addr, 0) == |Live()| <==> cur == 0
      ensures cur != 0 ==> cur == inUseOrder[FindBlock(Live(), addr, 0)]
    {
      ghost var k := 0;
      ghost var live := Live();
      ListNodes(records[..], inUse, inUseOrder);
      cur := inUse;
      while cur != 0
        invariant k <= |live| && cur == At(inUseOrder, k) && (cur == 0 ==> k == |live|)
        invariant FindBlock(live, addr, 0) == FindBlock(live, addr, k)
        decreases |live| - k
      {
        RecordLinks(records[..], inUse, inUseOrder, k);
        var start := records[cur - 1].start;
        var end := start + records[cur - 1].size;
        assert live[k] == Region(start, end - start);
        if start <= addr && addr < end {
          return;
        }
        cur := records[cur - 1].next;
        k := k + 1;
      }
    }

    /** valloc_is_region_allocated */
    method IsRegionAllocated(start: nat, end: nat) returns (found: bool)
      requires Valid()
      ensures found == Allocated(Live(), start, end)
      ensures found <==> exists k :: 0 <= k < |Live()| && start <= Live()[k].start <= end
    {
      ghost var k := 0;
      ghost var live := Live();
      ListNodes(records[..], inUse, inUseOrder);
      var cur := inUse;
      while cur != 0
        invariant k <= |live| && cur == At(inUseOrder, k) && (cur == 0 ==> k == |live|)
        invariant forall j :: 0 <= j < k ==> !(start <= live[j].start <= end)
        decreases |live| - k
      {
        RecordLinks(records[..], inUse, inUseOrder, k);
        assert live[k].start == records[cur - 1].start;
        if start <= records[cur - 1].start && records[cur - 1].start <= end {
          return true;
        }
        cur := records[cur - 1].next;
        k := k + 1;
      }
      return false;
    }

    /** valloc_alloclist_alloc: fails exactly when all records are in use. */
    method Alloc(addr: nat, size: nat) returns (ok: bool)
      requires Valid()
      modifies this, records
      ensures Valid()
      ensures ok == (|old(Live())| < NUM_RECORDS)
      ensures Live() == if ok then [Region(addr, size)] + old(Live()) else old(Live())
    {
      ListNodes(records[..], spare, spareOrder);
      if spare == 0 {
        return false;
      }
      FillSpare(addr, size);
      ghost var c, rs1 := spare, records[..];
      spare, inUse := Swap(spare, spare, inUse, spareOrder, inUseOrder, 0);
      SameBlocksOn(rs1, records[..], inUseOrder);
      BlocksCons(records[..], c, inUseOrder);
      PartitionMoved(spareOrder, inUseOrder, NUM_RECORDS, 0);
      spareOrder, inUseOrder := Without(spareOrder, 0), [c] + inUseOrder;
      return true;
    }

    /** The first spare record is given its block before it changes lists. */
    method FillSpare(addr: nat, size: nat)
      requires Valid() && spare != 0
      modifies records
      ensures Valid() && 1 <= spare <= NUM_RECORDS
      ensures records[spare - 1].start == addr && records[spare - 1].size == size
      ensures Live() == old(Live())
    {
      ghost var rs0 := records[..];
      ListNodes(rs0, spare, spareOrder);
      assert spare in spareOrder && spare !in inUseOrder;
      SetBlock(rs0, spare, addr, size, inUse, inUseOrder);
      SetBlock(rs0, spare, addr, size, spare, spareOrder);
      records[spare - 1] := records[spare - 1].(start := addr, size := size);
      assert records[..] == rs0[spare - 1 := rs0[spare - 1].(start := addr, size := size)];
    }

    /** valloc_alloclist_dealloc: fails exactly when no block contains the address. */
    method Dealloc(addr: nat) returns (ok: bool)
      requires Valid()
      modifies this, records
      ensures Valid()
      ensures ok == (FindBlock(old(Live()), addr, 0) < |old(Live())|)
      ensures Live() == if ok then RemoveAt(old(Live()), FindBlock(old(Live()), addr, 0)) else old(Live())
    {
      ghost var rs0, k := records[..], FindBlock(Live(), addr, 0);
      var chunk := Find(addr);
      if chunk == 0 {
        return false;
      }
      inUse, spare := Swap(chunk, inUse, spare, inUseOrder, spareOrder, k);
      SameBlocksOn(rs0, records[..], inUseOrder);
      BlocksWithout(records[..], inUseOrder, k);
      PartitionMoved(inUseOrder, spareOrder, NUM_RECORDS, k);
      inUseOrder, spareOrder := Without(inUseOrder, k), [chunk] + spareOrder;
      return true;
    }
  }
}
