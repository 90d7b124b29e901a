/** The four-level page tables of lib/arch/vmm: the tree of table pages that a root leads to, what
  * it translates every address to, and how writing one entry changes that.
  */
module TableTree {
  import opened Bits
  import opened Descriptors

  /** What the i-th descriptor of each page says, read as an entry of each level. */
  type View = (nat, nat, nat) -> Desc

  /** The end of the 48-bit address space. */
  const LIMIT := 0x1_0000_0000_0000

  /** How much one entry of a table at the level covers: 512G, 1G, 2M, 4K. */
  function Span(level: nat): nat {
    if level == 0 then 0x80_0000_0000 else if level == 1 then 0x4000_0000 else if level == 2 then 0x20_0000 else 0x1000
  }

  /** How much a whole table at the level covers. */
  function Region(level: nat): nat {
    if level == 0 then LIMIT else Span(level - 1)
  }

  /** The entry for va in a table at the level. */
  function Index(va: nat, level: nat): (i: nat)
    ensures i < 512
  {
    (va / Span(level)) % 512
  }

  /** The first address covered by the table at the level that covers va. */
  function Base(va: nat, level: nat): nat {
    va - va % Region(level)
  }

  lemma RegionIs(level: nat)
    requires level <= 3
    ensures Region(level) == 512 * Span(level)
  {
  }

  /** An address as the number of its entry, counted over all tables of the level, and the offset. */
  lemma Parts(va: nat, level: nat) returns (t: nat, i: nat, r: nat)
    requires level <= 3
    ensures va == t * Region(level) + i * Span(level) + r && i < 512 && r < Span(level)
    ensures i == Index(va, level) && r == va % Span(level) && 512 * t + i == va / Span(level)
    ensures Base(va, level) == t * Region(level) && va / Region(level) == t
  {
    var s, q := Span(level), va / Span(level);
    t, i, r := q / 512, q % 512, va % s;
    assert va == q * s + r && q == 512 * t + i;
    RegionIs(level);
    assert q * s == t * (512 * s) + i * s;
    MulNat(511 - i, s);
    DivModUnique(va, 512 * s, t, i * s + r);
  }

  lemma BaseStep(va: nat, level: nat)
    requires level < 3
    ensures Base(va, level + 1) == Base(va, level) + Index(va, level) * Span(level)
  {
    var t, i, r := Parts(va, level);
  }

  /** Two addresses share an entry exactly when they agree but for the offset in its span. */
  lemma SameEntry(va: nat, vb: nat, level: nat)
    requires level <= 3
    ensures Base(va, level) == Base(vb, level) && Index(va, level) == Index(vb, level) <==>
            va - va % Span(level) == vb - vb % Span(level)
  {
    var t, i, r := Parts(va, level);
    var t', i', r' := Parts(vb, level);
    RegionIs(level);
    var s := Span(level);
    assert t * (512 * s) + i * s == (512 * t + i) * s && t' * (512 * s) + i' * s == (512 * t' + i') * s;
    if va - r == vb - r' {
      DivModUnique(va - r, s, 512 * t + i, 0);
      DivModUnique(va - r, s, 512 * t' + i', 0);
    }
  }

  // ----- The tree

  datatype Ref = Null | To(page: nat)

  /** A table page covers the addresses from base on, at its level. */
  datatype Node = Node(level: nat, base: nat)

  /** The table at the level that the walk for va goes through, if it gets that far. */
  function PageAt(m: View, root: nat, va: nat, level: nat): Ref {
    if level == 0 then To(root)
    else
      var up := PageAt(m, root, va, level - 1);
      if up.To? && m(up.page, Index(va, level - 1), level - 1).Table?
      then To(m(up.page, Index(va, level - 1), level - 1).addr)
      else Null
  }

  /** Where the walk for va ends. */
  datatype Leaf = Leaf(page: nat, index: nat, level: nat, desc: Desc)

  function Depth(m: View, root: nat, va: nat): (d: nat)
    ensures d <= 3 && PageAt(m, root, va, d).To?
    ensures forall k :: d < k <= 3 ==> PageAt(m, root, va, k).Null?
  {
    if PageAt(m, root, va, 3).To? then 3
    else if PageAt(m, root, va, 2).To? then 2
    else if PageAt(m, root, va, 1).To? then 1
    else 0
  }

  /** vmm_translation_walk */
  function Walk(m: View, root: nat, va: nat): (leaf: Leaf)
    ensures leaf.index < 512 && leaf.level <= 3
  {
    var d := Depth(m, root, va);
    var page := PageAt(m, root, va, d).page;
    Leaf(page, Index(va, d), d, m(page, Index(va, d), d))
  }

  datatype Mapping = Unmapped | Mapped(pa: nat, attrs: Attrs)

  function Result(leaf: Leaf, va: nat): Mapping {
    if leaf.desc.Block? then Mapped(leaf.desc.oa + va % Span(leaf.level), leaf.desc.attrs) else Unmapped
  }

  /** What the tables translate va to. */
  function Translate(m: View, root: nat, va: nat): Mapping {
    Result(Walk(m, root, va), va)
  }

  /** The i-th entry of the page leads to nothing but a table at the right place. */
  ghost predicate EntryOk(m: View, cover: map<nat, Node>, page: nat, i: nat)
    requires page in cover
  {
    var level := cover[page].level;
    var d := m(page, i, level);
    d.Table? ==> level < 3 && d.addr in cover && cover[d.addr] == Node(level + 1, cover[page].base + i * Span(level))
  }

  ghost predicate PageOk(m: View, cover: map<nat, Node>, page: nat)
    requires page in cover
  {
    && cover[page].level <= 3
    && cover[page].base % Region(cover[page].level) == 0
    && forall i :: 0 <= i < 512 ==> EntryOk(m, cover, page, i)
  }

  /** The page is where the walks for its addresses go. */
  ghost predicate Reached(m: View, root: nat, cover: map<nat, Node>, page: nat)
    requires page in cover
  {
    forall va: nat :: va < LIMIT && Base(va, cover[page].level) == cover[page].base ==>
      PageAt(m, root, va, cover[page].level) == To(page)
  }

  /** The pages in cover are a tree: each is reached from the root by the walks for the addresses
    * that it covers, and by no others. */
  ghost predicate Tree(m: View, root: nat, cover: map<nat, Node>) {
    && root in cover && cover[root] == Node(0, 0)
    && (forall page :: page in cover ==> PageOk(m, cover, page))
    && (forall page :: page in cover ==> Reached(m, root, cover, page))
  }

  /** Every table on a walk covers the address, at its level. */
  lemma {:induction false} PathCovered(m: View, root: nat, cover: map<nat, Node>, va: nat, level: nat)
    requires Tree(m, root, cover) && va < LIMIT && level <= 3 && PageAt(m, root, va, level).To?
    ensures PageAt(m, root, va, level).page in cover
    ensures cover[PageAt(m, root, va, level).page] == Node(level, Base(va, level))
  {
    if level > 0 {
      PathCovered(m, root, cover, va, level - 1);
      StepCovered(m, cover, PageAt(m, root, va, level - 1).page, va, level - 1);
    }
  }

  lemma StepCovered(m: View, cover: map<nat, Node>, page: nat, va: nat, level: nat)
    requires page in cover && cover[page] == Node(level, Base(va, level)) && PageOk(m, cover, page)
    ensures var d := m(page, Index(va, level), level);
            d.Table? ==> level < 3 && d.addr in cover && cover[d.addr] == Node(level + 1, Base(va, level + 1))
  {
    assert EntryOk(m, cover, page, Index(va, level));
    if level < 3 {
      BaseStep(va, level);
    }
  }

  /** The tree has no more than one page for the same addresses at the same level. */
  lemma NodesDistinct(m: View, root: nat, cover: map<nat, Node>, p: nat, q: nat)
    requires Tree(m, root, cover) && p in cover && q in cover && cover[p] == cover[q]
    requires cover[p].base < LIMIT
    ensures p == q
  {
    assert PageOk(m, cover, p);
    assert Reached(m, root, cover, p) && Reached(m, root, cover, q);
    assert Base(cover[p].base, cover[p].level) == cover[p].base;
  }

  /** A walk that does not end early has gone through a table at every level. */
  lemma PathPrefix(m: View, root: nat, va: nat, level: nat, k: nat)
    requires k <= level && PageAt(m, root, va, level).To?
    ensures PageAt(m, root, va, k).To?
  {
    if k < level {
      PathPrefix(m, root, va, level - 1, k);
    }
  }

  /** A walk does not go on from an entry that is not a table. */
  lemma StopsAt(m: View, root: nat, va: nat, level: nat, below: nat)
    requires PageAt(m, root, va, level).To? && level < below
    requires !m(PageAt(m, root, va, level).page, Index(va, level), level).Table?
    ensures PageAt(m, root, va, below).Null?
  {
    if PageAt(m, root, va, below).To? {
      PathPrefix(m, root, va, below, level + 1);
    }
  }

  /** A walk ends at the first entry that is not a table. */
  lemma EndsHere(m: View, root: nat, va: nat, level: nat)
    requires level <= 3 && PageAt(m, root, va, level).To?
    requires !m(PageAt(m, root, va, level).page, Index(va, level), level).Table?
    ensures Depth(m, root, va) == level
  {
    var d := Depth(m, root, va);
    if level < d {
      StopsAt(m, root, va, level, d);
    }
  }

  // ----- Writing one entry

  /** In the pages of the tree, at most the i-th entry of the page differs. */
  ghost predicate Differs(m: View, m': View, cover: map<nat, Node>, page: nat, i: nat) {
    forall p, j, level :: p in cover && (p != page || j != i) ==> m'(p, j, level) == m(p, j, level)
  }

  /** The walk for va goes through the i-th entry of a page at the node. */
  predicate Through(va: nat, node: Node, i: nat) {
    Base(va, node.level) == node.base && Index(va, node.level) == i
  }

  /** The walks that do not go through an entry do not notice that it is written. */
  lemma {:induction false} WriteElsewhere(m: View, m': View, root: nat, cover: map<nat, Node>, page: nat, i: nat,
                                          va: nat, level: nat)
    requires Tree(m, root, cover) && page in cover && Differs(m, m', cover, page, i) && va < LIMIT && level <= 3
    requires !Through(va, cover[page], i)
    ensures PageAt(m', root, va, level) == PageAt(m, root, va, level)
    ensures PageAt(m, root, va, level).To? ==>
      m'(PageAt(m, root, va, level).page, Index(va, level), level) == m(PageAt(m, root, va, level).page, Index(va, level), level)
  {
    if level > 0 {
      WriteElsewhere(m, m', root, cover, page, i, va, level - 1);
    }
    if PageAt(m, root, va, level).To? {
      PathCovered(m, root, cover, va, level);
    }
  }

  /** Above the entry, the walks through it do not notice either. */
  lemma {:induction false} WriteAbove(m: View, m': View, root: nat, cover: map<nat, Node>, page: nat, i: nat,
                                      va: nat, level: nat)
    requires Tree(m, root, cover) && page in cover && Differs(m, m', cover, page, i) && va < LIMIT
    requires level <= cover[page].level <= 3
    ensures PageAt(m', root, va, level) == PageAt(m, root, va, level)
  {
    if level > 0 {
      WriteAbove(m, m', root, cover, page, i, va, level - 1);
      if PageAt(m, root, va, level - 1).To? {
        PathCovered(m, root, cover, va, level - 1);
      }
    }
  }

  // ----- Writing a leaf

  /** One leaf is replaced by another. */
  ghost predicate LeafWrite(m: View, m': View, cover: map<nat, Node>, page: nat, i: nat) {
    && page in cover && i < 512
    && Differs(m, m', cover, page, i)
    && !m(page, i, cover[page].level).Table?
    && !m'(page, i, cover[page].level).Table?
  }

  lemma LeafKeepsPath(m: View, m': View, root: nat, cover: map<nat, Node>, page: nat, i: nat, va: nat, level: nat)
    requires Tree(m, root, cover) && LeafWrite(m, m', cover, page, i) && va < LIMIT && level <= 3
    ensures PageAt(m', root, va, level) == PageAt(m, root, va, level)
  {
    var node := cover[page];
    assert PageOk(m, cover, page) && Reached(m, root, cover, page);
    if !Through(va, node, i) {
      WriteElsewhere(m, m', root, cover, page, i, va, level);
    } else if level <= node.level {
      WriteAbove(m, m', root, cover, page, i, va, level);
    } else {
      assert PageAt(m, root, va, node.level) == To(page);
      WriteAbove(m, m', root, cover, page, i, va, node.level);
      StopsAt(m, root, va, node.level, level);
      StopsAt(m', root, va, node.level, level);
    }
  }

  lemma LeafKeepsTree(m: View, m': View, root: nat, cover: map<nat, Node>, page: nat, i: nat)
    requires Tree(m, root, cover) && LeafWrite(m, m', cover, page, i)
    ensures Tree(m', root, cover)
  {
    forall q | q in cover ensures PageOk(m', cover, q) {
      assert PageOk(m, cover, q);
      forall j | 0 <= j < 512 ensures EntryOk(m', cover, q, j) {
        assert EntryOk(m, cover, q, j);
      }
    }
    forall q | q in cover ensures Reached(m', root, cover, q) {
      assert Reached(m, root, cover, q) && PageOk(m, cover, q);
      forall va: nat | va < LIMIT && Base(va, cover[q].level) == cover[q].base
        ensures PageAt(m', root, va, cover[q].level) == To(q)
      {
        LeafKeepsPath(m, m', root, cover, page, i, va, cover[q].level);
      }
    }
  }

  /** Writing a leaf changes the translation of the addresses that go through it, and of no other
    * address. */
  lemma LeafTranslates(m: View, m': View, root: nat, cover: map<nat, Node>, page: nat, i: nat, va: nat)
    requires Tree(m, root, cover) && LeafWrite(m, m', cover, page, i) && va < LIMIT
    ensures Through(va, cover[page], i) ==>
      Walk(m', root, va) == Leaf(page, i, cover[page].level, m'(page, i, cover[page].level))
    ensures !Through(va, cover[page], i) ==> Walk(m', root, va) == Walk(m, root, va)
  {
    var level := cover[page].level;
    assert PageOk(m, cover, page) && Reached(m, root, cover, page);
    LeafKeepsDepth(m, m', root, cover, page, i, va);
    if Through(va, cover[page], i) {
      assert PageAt(m, root, va, level) == To(page);
      EndsHere(m, root, va, level);
    } else {
      WriteElsewhere(m, m', root, cover, page, i, va, Depth(m, root, va));
    }
  }

  lemma LeafKeepsDepth(m: View, m': View, root: nat, cover: map<nat, Node>, page: nat, i: nat, va: nat)
    requires Tree(m, root, cover) && LeafWrite(m, m', cover, page, i) && va < LIMIT
    ensures Depth(m', root, va) == Depth(m, root, va)
    ensures var d := Depth(m, root, va); PageAt(m', root, va, d) == PageAt(m, root, va, d)
  {
    LeafKeepsPath(m, m', root, cover, page, i, va, 0);
    LeafKeepsPath(m, m', root, cover, page, i, va, 1);
    LeafKeepsPath(m, m', root, cover, page, i, va, 2);
    LeafKeepsPath(m, m', root, cover, page, i, va, 3);
  }

  // ----- Hanging a new table into an entry

  ghost predicate EmptyPage(m: View, page: nat, level: nat) {
    forall j :: 0 <= j < 512 ==> m(page, j, level).Invalid?
  }

  ghost predicate LeafPage(m: View, page: nat, level: nat) {
    forall j :: 0 <= j < 512 ==> !m(page, j, level).Table?
  }

  /** A leaf is made to point to a page of leaves outside the tree. */
  ghost predicate TableWrite(m: View, m': View, cover: map<nat, Node>, page: nat, i: nat, child: nat) {
    && page in cover && i < 512 && cover[page].level < 3
    && Differs(m, m', cover, page, i)
    && !m(page, i, cover[page].level).Table?
    && m'(page, i, cover[page].level).Table?
    && m'(page, i, cover[page].level).addr == child
    && child !in cover
    && LeafPage(m', child, cover[page].level + 1)
  }

  ghost function ChildNode(cover: map<nat, Node>, page: nat, i: nat): Node
    requires page in cover
  {
    Node(cover[page].level + 1, cover[page].base + i * Span(cover[page].level))
  }

  /** The walks through the entry now go on to the new page, and end there. */
  lemma TableExtends(m: View, m': View, root: nat, cover: map<nat, Node>, page: nat, i: nat, child: nat, va: nat)
    requires Tree(m, root, cover) && TableWrite(m, m', cover, page, i, child) && va < LIMIT
    requires Through(va, cover[page], i)
    ensures var level := cover[page].level;
            && PageAt(m, root, va, level) == PageAt(m', root, va, level) == To(page)
            && Walk(m, root, va) == Leaf(page, i, level, m(page, i, level))
            && Walk(m', root, va) == Leaf(child, Index(va, level + 1), level + 1, m'(child, Index(va, level + 1), level + 1))
            && PageAt(m', root, va, level + 1) == To(child)
  {
    var level := cover[page].level;
    assert PageOk(m, cover, page) && Reached(m, root, cover, page);
    assert PageAt(m, root, va, level) == To(page);
    WriteAbove(m, m', root, cover, page, i, va, level);
    EndsHere(m, root, va, level);
    assert PageAt(m', root, va, level + 1) == To(child);
    EndsHere(m', root, va, level + 1);
  }

  /** The walks that went on before stay as they were. */
  lemma TableKeepsPath(m: View, m': View, root: nat, cover: map<nat, Node>, page: nat, i: nat, child: nat,
                       va: nat, level: nat)
    requires Tree(m, root, cover) && TableWrite(m, m', cover, page, i, child) && va < LIMIT && level <= 3
    requires !Through(va, cover[page], i) || level <= cover[page].level
    ensures PageAt(m', root, va, level) == PageAt(m, root, va, level)
  {
    assert PageOk(m, cover, page);
    if !Through(va, cover[page], i) {
      WriteElsewhere(m, m', root, cover, page, i, va, level);
    } else {
      WriteAbove(m, m', root, cover, page, i, va, level);
    }
  }

  /** No address is translated differently because of a new empty table in an invalid entry. */
  lemma TableTranslates(m: View, m': View, root: nat, cover: map<nat, Node>, page: nat, i: nat, child: nat, va: nat)
    requires Tree(m, root, cover) && TableWrite(m, m', cover, page, i, child) && va < LIMIT
    ensures m(page, i, cover[page].level).Invalid? && EmptyPage(m', child, cover[page].level + 1) ==>
      Translate(m', root, va) == Translate(m, root, va)
    ensures !Through(va, cover[page], i) ==> Walk(m', root, va) == Walk(m, root, va)
  {
    if Through(va, cover[page], i) {
      TableExtends(m, m', root, cover, page, i, child, va);
    } else {
      TableKeepsPath(m, m', root, cover, page, i, child, va, 0);
      TableKeepsPath(m, m', root, cover, page, i, child, va, 1);
      TableKeepsPath(m, m', root, cover, page, i, child, va, 2);
      TableKeepsPath(m, m', root, cover, page, i, child, va, 3);
      WriteElsewhere(m, m', root, cover, page, i, va, Depth(m, root, va));
    }
  }

  lemma TableKeepsTree(m: View, m': View, root: nat, cover: map<nat, Node>, page: nat, i: nat, child: nat)
    requires Tree(m, root, cover) && TableWrite(m, m', cover, page, i, child)
    ensures Tree(m', root, cover[child := ChildNode(cover, page, i)])
  {
    var cover' := cover[child := ChildNode(cover, page, i)];
    forall q | q in cover' ensures PageOk(m', cover', q) {
      TableKeepsPageOk(m, m', root, cover, page, i, child, q);
    }
    forall q | q in cover' ensures Reached(m', root, cover', q) {
      TableKeepsReached(m, m', root, cover, page, i, child, q);
    }
  }

  lemma TableKeepsPageOk(m: View, m': View, root: nat, cover: map<nat, Node>, page: nat, i: nat, child: nat, q: nat)
    requires Tree(m, root, cover) && TableWrite(m, m', cover, page, i, child)
    requires q in cover || q == child
    ensures PageOk(m', cover[child := ChildNode(cover, page, i)], q)
  {
    var cover' := cover[child := ChildNode(cover, page, i)];
    assert q in cover ==> PageOk(m, cover, q);
    assert PageOk(m, cover, page);
    NodeStart(cover[page], i);
    forall j | 0 <= j < 512 ensures EntryOk(m', cover', q, j) {
      assert q in cover ==> EntryOk(m, cover, q, j);
    }
  }

  lemma TableKeepsReached(m: View, m': View, root: nat, cover: map<nat, Node>, page: nat, i: nat, child: nat, q: nat)
    requires Tree(m, root, cover) && TableWrite(m, m', cover, page, i, child)
    requires q in cover || q == child
    ensures Reached(m', root, cover[child := ChildNode(cover, page, i)], q)
  {
    var cover' := cover[child := ChildNode(cover, page, i)];
    var node := cover'[q];
    assert q in cover ==> PageOk(m, cover, q) && Reached(m, root, cover, q);
    forall va: nat | va < LIMIT && Base(va, node.level) == node.base
      ensures PageAt(m', root, va, node.level) == To(q)
    {
      if q == child {
        assert PageOk(m, cover, page);
        ChildThrough(cover[page], i, va);
        TableExtends(m, m', root, cover, page, i, child, va);
      } else if Through(va, cover[page], i) && cover[page].level < node.level {
        TableExtends(m, m', root, cover, page, i, child, va);
        StopsAt(m, root, va, cover[page].level, node.level);
      } else {
        TableKeepsPath(m, m', root, cover, page, i, child, va, node.level);
      }
    }
  }

  /** The addresses of the new page are those that go through the entry. */
  lemma ChildThrough(node: Node, i: nat, va: nat)
    requires node.level < 3 && i < 512 && node.base % Region(node.level) == 0
    ensures Base(va, node.level + 1) == node.base + i * Span(node.level) <==> Through(va, node, i)
  {
    BaseStep(va, node.level);
    var b := node.base + i * Span(node.level);
    NodeStart(node, i);
    SameEntry(va, b, node.level);
  }

  lemma NodeStart(node: Node, i: nat)
    requires node.level < 3 && i < 512 && node.base % Region(node.level) == 0
    ensures var b := node.base + i * Span(node.level); Through(b, node, i) && b % Span(node.level) == 0
  {
    var b, s, t := node.base + i * Span(node.level), Span(node.level), node.base / Region(node.level);
    RegionIs(node.level);
    assert b == (512 * t + i) * s by { assert node.base == t * (512 * s); }
    DivModUnique(b, s, 512 * t + i, 0);
    var t', i', r' := Parts(b, node.level);
    assert t' == t && i' == i;
  }
}

/** The table-building code of lib/arch/vmm/vmm.c and vmm_pgtable.c over the memory of table pages. */
module PageTables {
  import opened Bits
  import opened BitFields
  import opened Descriptors
  import opened TableTree

  /** A page of 512 descriptors. */
  type Page = p: seq<nat> | |p| == 512 witness seq(512, _ => 0)

  type Memory = map<nat, Page>

  const PAGE_SIZE := 0x1000

  const ZERO_PAGE: Page := seq(512, _ => 0)

  ghost function ViewOf(m: Memory): View {
    (page: nat, i: nat, level: nat) => if page in m && i < 512 then ReadDesc(m[page][i], level) else Invalid
  }

  /** OFFS(va, level) */
  function Offs(va: nat, level: nat): nat {
    Slice(va, OffsBot(level), if level == 0 then 10 else 9)
  }

  lemma SpanIsPow2(level: nat)
    requires level <= 3
    ensures Span(level) == Pow2(OffsBot(level)) && Pow2(9) == 512 && Pow2(10) == 1024 && Pow2(48) == LIMIT
  {
    assert Pow2(9) == 512;
    assert Pow2(12) == 0x1000;
    Pow2Add(9, 12);
    Pow2Add(9, 21);
    Pow2Add(9, 30);
    Pow2Add(9, 39);
  }

  lemma OffsIsDivision(va: nat, level: nat)
    requires level <= 3
    ensures Offs(va, level) == (va / Span(level)) % if level == 0 then 1024 else 512
  {
    SpanIsPow2(level);
    var q := va / Span(level);
    ShrLowDivMod(va, OffsBot(level));
    assert Shr(va, OffsBot(level)) == q;
    ShrLowDivMod(q, if level == 0 then 10 else 9);
  }

  /** Below 48 bits, the extra bit that OFFS takes at level 0 is clear. */
  lemma OffsIsIndex(va: nat, level: nat)
    requires va < LIMIT && level <= 3
    ensures Offs(va, level) == Index(va, level)
  {
    OffsIsDivision(va, level);
  }

  lemma ReadZero(level: nat)
    ensures ReadDesc(0, level) == Invalid
  {
    LowZero(1);
  }

  function Written(m: Memory, page: nat, i: nat, v: nat): Memory
    requires page in m && i < 512
  {
    m[page := m[page][i := v]]
  }

  /** The code never meets a block above the level that it is asked to reach. */
  predicate NoBlockAbove(m: View, root: nat, va: nat, level: nat) {
    var leaf := Walk(m, root, va);
    leaf.desc.Block? ==> level <= leaf.level
  }

  /** The tables say the same about every address. */
  ghost predicate SameTranslations(m: View, m': View, root: nat) {
    forall va: nat :: va < LIMIT ==> Translate(m', root, va) == Translate(m, root, va)
  }

  /** The pages added are on the way to va, no deeper than the level. */
  ghost predicate GrownTowards(cover: map<nat, Node>, cover': map<nat, Node>, va: nat, level: nat) {
    && (forall q :: q in cover ==> q in cover' && cover'[q] == cover[q])
    && (forall q :: q in cover' && q !in cover ==>
          1 <= cover'[q].level <= level && cover'[q] == Node(cover'[q].level, Base(va, cover'[q].level)))
  }

  /** The memory outside the tree is the same, and the pages added to the tree are new. */
  ghost predicate FramedBy(m: Memory, m': Memory, cover: map<nat, Node>, cover': map<nat, Node>) {
    && (forall p :: p in m && p !in cover ==> p in m' && m'[p] == m[p])
    && (forall p :: p in cover' && p !in cover ==> p !in m)
  }

  ghost predicate FullOf(m: View, page: nat, level: nat, d: Desc) {
    forall j :: 0 <= j < 512 ==> m(page, j, level) == d
  }

  function FullPage(v: nat): (p: Page)
    ensures forall j :: 0 <= j < 512 ==> p[j] == v
  {
    seq(512, _ => v)
  }

  /** Memory after a new page full of v has been hung into an entry. */
  ghost function Hung(m: Memory, page: nat, i: nat, child: nat, v: nat, level: nat): Memory
    requires page in m && i < 512
  {
    Written(m[child := FullPage(v)], page, i, WriteDesc(Table(child, NO_ATTRS), level))
  }

  lemma HungTable(m: Memory, m': Memory, root: nat, cover: map<nat, Node>, page: nat, i: nat, child: nat, d: Desc)
    requires Tree(ViewOf(m), root, cover) && page in cover && page in m && i < 512 && cover[page].level < 3
    requires cover.Keys <= m.Keys && child !in m && child % PAGE_SIZE == 0 && child < LIMIT
    requires d == ReadDesc(m[page][i], cover[page].level) && !d.Table?
    requires m' == Hung(m, page, i, child, WriteDesc(d, cover[page].level), cover[page].level)
    ensures var level := cover[page].level;
            var e := ReadDesc(WriteDesc(d, level), level + 1);
            && (!e.Table? ==> TableWrite(ViewOf(m), ViewOf(m'), cover, page, i, child))
            && FullOf(ViewOf(m'), child, level + 1, e)
  {
    var level := cover[page].level;
    TableEntry(child, level);
    HungView(m, m', cover, page, i, child, FullPage(WriteDesc(d, level)), WriteDesc(Table(child, NO_ATTRS), level));
  }

  /** The entry that points to a table page points to it. */
  lemma TableEntry(child: nat, level: nat)
    requires child % PAGE_SIZE == 0 && child < LIMIT && level < 3
    ensures var d := ReadDesc(WriteDesc(Table(child, NO_ATTRS), level), level); d.Table? && d.addr == child
  {
    SpanIsPow2(3);
    ShrLowDivMod(child, 12);
    ReadTable(Table(child, NO_ATTRS), level);
  }

  lemma HungView(m: Memory, m': Memory, cover: map<nat, Node>, page: nat, i: nat, child: nat, entries: Page, v: nat)
    requires page in m && i < 512 && child !in m && cover.Keys <= m.Keys && m' == Written(m[child := entries], page, i, v)
    ensures Differs(ViewOf(m), ViewOf(m'), cover, page, i)
    ensures forall level :: ViewOf(m')(page, i, level) == ReadDesc(v, level)
    ensures forall j: nat, level :: j < 512 ==> ViewOf(m')(child, j, level) == ReadDesc(entries[j], level)
  {
  }

  lemma WrittenView(m: Memory, cover: map<nat, Node>, page: nat, i: nat, v: nat)
    requires page in m && i < 512
    ensures Differs(ViewOf(m), ViewOf(Written(m, page, i, v)), cover, page, i)
    ensures forall level :: ViewOf(Written(m, page, i, v))(page, i, level) == ReadDesc(v, level)
  {
  }

  /** What hanging a new table on the way to va leads to. */
  lemma HangKeeps(w: View, w': View, root: nat, cover: map<nat, Node>, page: nat, level: nat, child: nat,
                  va: nat, desired: nat)
    requires Tree(w, root, cover) && va < LIMIT && level < desired <= 3
    requires PageAt(w, root, va, level) == To(page) && page in cover && cover[page] == Node(level, Base(va, level))
    requires TableWrite(w, w', cover, page, Index(va, level), child)
    requires w(page, Index(va, level), level).Invalid? && EmptyPage(w', child, level + 1)
    ensures var cover' := cover[child := Node(level + 1, Base(va, level + 1))];
            Tree(w', root, cover') && GrownTowards(cover, cover', va, desired)
    ensures SameTranslations(w, w', root)
    ensures NoBlockAbove(w', root, va, desired)
    ensures PageAt(w', root, va, level + 1) == To(child)
  {
    var i := Index(va, level);
    BaseStep(va, level);
    assert ChildNode(cover, page, i) == Node(level + 1, Base(va, level + 1));
    TableKeepsTree(w, w', root, cover, page, i, child);
    forall x: nat | x < LIMIT ensures Translate(w', root, x) == Translate(w, root, x) {
      TableTranslates(w, w', root, cover, page, i, child, x);
    }
    TableExtends(w, w', root, cover, page, i, child, va);
  }

  lemma GrownTrans(c0: map<nat, Node>, c1: map<nat, Node>, c2: map<nat, Node>, va: nat, level: nat)
    requires GrownTowards(c0, c1, va, level) && GrownTowards(c1, c2, va, level)
    ensures GrownTowards(c0, c2, va, level)
  {
  }

  lemma SameTrans(m0: View, m1: View, m2: View, root: nat)
    requires SameTranslations(m0, m1, root) && SameTranslations(m1, m2, root)
    ensures SameTranslations(m0, m2, root)
  {
    forall va: nat | va < LIMIT ensures Translate(m2, root, va) == Translate(m0, root, va) {
      assert Translate(m1, root, va) == Translate(m0, root, va);
    }
  }

  lemma FramedTrans(m0: Memory, m: Memory, m': Memory, c0: map<nat, Node>, c: map<nat, Node>, c': map<nat, Node>)
    requires FramedBy(m0, m, c0, c) && FramedBy(m, m', c, c') && m0.Keys <= m.Keys && c0.Keys <= c.Keys <= c'.Keys
    ensures FramedBy(m0, m', c0, c')
  {
    forall p | p in m0 && p !in c0 ensures p in m' && m'[p] == m0[p] {
      assert p !in c;
    }
  }

  /** Of the parts of the next level, the one that a split block maps as before: at level 2, a block
    * whose nT is set is repeated with bit 16 of its address set. */
  function KeptPart(d: Desc, level: nat): nat
    requires d.Block?
  {
    if level == 2 then 16 * d.attrs.nT else 0
  }

  predicate InPart(x: nat, level: nat, k: nat) {
    k * Span(level + 1) <= x % Span(level) < (k + 1) * Span(level + 1)
  }

  /** An address is translated as before exactly when the entry for va does not cover it or it lies
    * in the k-th of the parts of the next level. */
  ghost predicate SameInPart(w: View, w': View, root: nat, va: nat, level: nat, k: nat) {
    forall x: nat :: x < LIMIT ==>
      (Translate(w', root, x) == Translate(w, root, x) <==>
         (x - x % Span(level) == va - va % Span(level) ==> InPart(x, level, k)))
  }

  /** What splitting a block the way the code does leads to. */
  lemma SplitKeeps(w: View, w': View, root: nat, cover: map<nat, Node>, page: nat, level: nat, child: nat, va: nat, d: Desc)
    requires Tree(w, root, cover) && va < LIMIT && 1 <= level < 3 && d.Block?
    requires PageAt(w, root, va, level) == To(page) && page in cover && cover[page] == Node(level, Base(va, level))
    requires TableWrite(w, w', cover, page, Index(va, level), child)
    requires w(page, Index(va, level), level) == d && FullOf(w', child, level + 1, OneDown(d, level))
    ensures Tree(w', root, cover[child := Node(level + 1, Base(va, level + 1))])
    ensures PageAt(w', root, va, level + 1) == To(child)
    ensures SameInPart(w, w', root, va, level, KeptPart(d, level))
  {
    var i := Index(va, level);
    BaseStep(va, level);
    assert ChildNode(cover, page, i) == Node(level + 1, Base(va, level + 1));
    TableKeepsTree(w, w', root, cover, page, i, child);
    TableExtends(w, w', root, cover, page, i, child, va);
    forall x: nat | x < LIMIT
      ensures Translate(w', root, x) == Translate(w, root, x) <==>
        (x - x % Span(level) == va - va % Span(level) ==> InPart(x, level, KeptPart(d, level)))
    {
      SplitTranslates(w, w', root, cover, page, level, child, va, d, x);
    }
  }

  lemma SplitTranslates(w: View, w': View, root: nat, cover: map<nat, Node>, page: nat, level: nat, child: nat,
                        va: nat, d: Desc, x: nat)
    requires Tree(w, root, cover) && va < LIMIT && x < LIMIT && 1 <= level < 3 && d.Block?
    requires page in cover && cover[page] == Node(level, Base(va, level))
    requires TableWrite(w, w', cover, page, Index(va, level), child)
    requires w(page, Index(va, level), level) == d && FullOf(w', child, level + 1, OneDown(d, level))
    ensures Translate(w', root, x) == Translate(w, root, x) <==>
      (x - x % Span(level) == va - va % Span(level) ==> InPart(x, level, KeptPart(d, level)))
  {
    var i := Index(va, level);
    SameEntry(x, va, level);
    if Through(x, cover[page], i) {
      TableExtends(w, w', root, cover, page, i, child, x);
      KeptPartIs(x, level, KeptPart(d, level));
    } else {
      TableTranslates(w, w', root, cover, page, i, child, x);
    }
  }

  lemma SplitHung(m: Memory, root: nat, cover: map<nat, Node>, page: nat, level: nat, child: nat, va: nat, d: Desc)
    requires Tree(ViewOf(m), root, cover) && cover.Keys <= m.Keys && va < LIMIT && 1 <= level < 3
    requires PageAt(ViewOf(m), root, va, level) == To(page) && page in cover && cover[page] == Node(level, Base(va, level))
    requires page in m && child !in m && child % PAGE_SIZE == 0 && child < LIMIT
    requires d == ReadDesc(m[page][Index(va, level)], level) && d.Block?
    ensures var m' := Hung(m, page, Index(va, level), child, WriteDesc(d, level), level);
            && Tree(ViewOf(m'), root, cover[child := Node(level + 1, Base(va, level + 1))])
            && PageAt(ViewOf(m'), root, va, level + 1) == To(child)
            && SameInPart(ViewOf(m), ViewOf(m'), root, va, level, KeptPart(d, level))
  {
    var m' := Hung(m, page, Index(va, level), child, WriteDesc(d, level), level);
    ReadIsEncodable(m[page][Index(va, level)], level);
    ReadOneDown(d, level);
    HungTable(m, m', root, cover, page, Index(va, level), child, d);
    SplitKeeps(ViewOf(m), ViewOf(m'), root, cover, page, level, child, va, d);
  }

  lemma KeptPartIs(x: nat, level: nat, k: nat)
    requires level < 3
    ensures x % Span(level) == k * Span(level + 1) + x % Span(level + 1) <==> InPart(x, level, k)
  {
    var t, i, r := Parts(x, level + 1);
    var s := Span(level + 1);
    RegionIs(level + 1);
    DivModUnique(x, Span(level), t, i * s + r);
    assert (k + 1) * s == k * s + s;
    if i > k {
      MulAtLeast(i - k, s);
      assert (i - k) * s == i * s - k * s;
    } else if i < k {
      MulAtLeast(k - i, s);
      assert (k - i) * s == k * s - i * s;
    }
  }

  /** The table that an invalid entry would lead to is not there yet. */
  lemma NotYet(w: View, root: nat, cover: map<nat, Node>, va: nat, level: nat)
    requires Tree(w, root, cover) && va < LIMIT && level < 3 && PageAt(w, root, va, level).To?
    requires !w(PageAt(w, root, va, level).page, Index(va, level), level).Table?
    ensures Node(level + 1, Base(va, level + 1)) !in cover.Values
  {
    forall q | q in cover ensures cover[q] != Node(level + 1, Base(va, level + 1)) {
      assert Reached(w, root, cover, q);
    }
  }

  lemma ValuesAdd(cover: map<nat, Node>, page: nat, n: Node)
    requires page !in cover
    ensures cover[page := n].Values == cover.Values + {n}
  {
    forall x ensures x in cover[page := n].Values <==> x in cover.Values + {n} {
      if x in cover.Values {
        var q :| q in cover && cover[q] == x;
        assert cover[page := n][q] == x;
      }
      assert cover[page := n][page] == n;
    }
  }

  // ----- Writing a block or a page

  /** The address is translated to pa, with the attributes asked for. */
  predicate MapsTo(t: Mapping, pa: nat, prot: nat) {
    t.Mapped? && t.pa == pa && t.attrs.(nT := 0) == Requested(prot)
  }

  predicate NoTableBelow(m: View, root: nat, va: nat, level: nat) {
    level < 3 ==> PageAt(m, root, va, level + 1).Null?
  }

  lemma InSpan(va: nat, x: nat, level: nat)
    requires level <= 3 && va % Span(level) == 0
    ensures x - x % Span(level) == va <==> va <= x < va + Span(level)
  {
    if va <= x < va + Span(level) {
      DivModUnique(x, Span(level), va / Span(level), x - va);
    }
  }

  /** Growing towards va leaves the walk where it stopped, if that is deep enough. */
  lemma StillNoTable(m: View, m': View, root: nat, cover: map<nat, Node>, cover': map<nat, Node>, va: nat, level: nat)
    requires Tree(m, root, cover) && Tree(m', root, cover') && GrownTowards(cover, cover', va, level)
    requires va < LIMIT && level <= 3 && NoTableBelow(m, root, va, level)
    requires PageAt(m', root, va, level).To?
    ensures Depth(m', root, va) == level
  {
    if level < 3 {
      TableBefore(m, m', root, cover, cover', va, level);
      if Depth(m', root, va) > level {
        PathPrefix(m', root, va, Depth(m', root, va), level + 1);
      }
    }
  }

  lemma TableBefore(m: View, m': View, root: nat, cover: map<nat, Node>, cover': map<nat, Node>, va: nat, level: nat)
    requires Tree(m, root, cover) && Tree(m', root, cover') && GrownTowards(cover, cover', va, level)
    requires va < LIMIT && level < 3
    ensures PageAt(m', root, va, level + 1).To? ==> PageAt(m, root, va, level + 1).To?
  {
    if PageAt(m', root, va, level + 1).To? {
      PathCovered(m', root, cover', va, level + 1);
      assert Reached(m, root, cover, PageAt(m', root, va, level + 1).page);
    }
  }

  /** Writing the leaf for va, at the given level. */
  lemma LeafWritten(m: Memory, m': Memory, root: nat, cover: map<nat, Node>, va: nat, v: nat)
    requires Tree(ViewOf(m), root, cover) && cover.Keys <= m.Keys && va < LIMIT
    requires var leaf := Walk(ViewOf(m), root, va);
             && !ReadDesc(v, leaf.level).Table?
             && leaf.page in m
             && m' == Written(m, leaf.page, leaf.index, v)
    ensures Tree(ViewOf(m'), root, cover) && cover.Keys <= m'.Keys
    ensures var leaf := Walk(ViewOf(m), root, va);
            forall x: nat :: x < LIMIT ==>
              Translate(ViewOf(m'), root, x) ==
              if x - x % Span(leaf.level) == va - va % Span(leaf.level) then Result(leaf.(desc := ReadDesc(v, leaf.level)), x)
              else Translate(ViewOf(m), root, x)
  {
    var w, w', leaf := ViewOf(m), ViewOf(m'), Walk(ViewOf(m), root, va);
    var page, i, level := leaf.page, leaf.index, leaf.level;
    PathCovered(w, root, cover, va, level);
    LeafIsLeaf(w, root, cover, va);
    WrittenView(m, cover, page, i, v);
    assert LeafWrite(w, w', cover, page, i);
    LeafKeepsTree(w, w', root, cover, page, i);
    forall x: nat | x < LIMIT
      ensures Translate(w', root, x) ==
        if x - x % Span(level) == va - va % Span(level) then Result(leaf.(desc := ReadDesc(v, level)), x)
        else Translate(w, root, x)
    {
      SameEntry(x, va, level);
      LeafTranslates(w, w', root, cover, page, i, x);
    }
  }

  lemma LeafIsLeaf(m: View, root: nat, cover: map<nat, Node>, va: nat)
    requires Tree(m, root, cover) && va < LIMIT
    ensures !Walk(m, root, va).desc.Table?
  {
    TableGoesOn(m, root, cover, va, Depth(m, root, va));
  }

  lemma TableGoesOn(m: View, root: nat, cover: map<nat, Node>, va: nat, level: nat)
    requires Tree(m, root, cover) && va < LIMIT && level <= 3 && PageAt(m, root, va, level).To?
    ensures m(PageAt(m, root, va, level).page, Index(va, level), level).Table? ==>
      level < 3 && PageAt(m, root, va, level + 1).To?
  {
    PathCovered(m, root, cover, va, level);
    StepCovered(m, cover, PageAt(m, root, va, level).page, va, level);
  }

  /** The walk for va still ends where the leaf was cleared. */
  lemma Cleared(m: Memory, m': Memory, root: nat, cover: map<nat, Node>, va: nat, level: nat)
    requires Tree(ViewOf(m), root, cover) && cover.Keys <= m.Keys && va < LIMIT && level <= 3
    requires PageAt(ViewOf(m), root, va, level).To?
    requires var leaf := Walk(ViewOf(m), root, va); leaf.page in m && m' == Written(m, leaf.page, leaf.index, 0)
    ensures Walk(ViewOf(m'), root, va).level == Walk(ViewOf(m), root, va).level >= level
  {
    var w, w', leaf := ViewOf(m), ViewOf(m'), Walk(ViewOf(m), root, va);
    PathCovered(w, root, cover, va, leaf.level);
    LeafIsLeaf(w, root, cover, va);
    WrittenView(m, cover, leaf.page, leaf.index, 0);
    ReadZero(leaf.level);
    LeafTranslates(w, w', root, cover, leaf.page, leaf.index, va);
  }

  lemma BlockMaps(pa: nat, prot: nat, level: nat, va: nat, x: nat, leaf: Leaf)
    requires 1 <= level <= 3 && pa < LIMIT && pa % Span(level) == 0 && va % Span(level) == 0
    requires Slice(prot, 16, 1) == 0 && va <= x < va + Span(level) && leaf.level == level
    requires leaf.desc == ReadDesc(MakeDesc(pa, prot, level), level)
    ensures MapsTo(Result(leaf, x), pa + (x - va), prot)
  {
    SpanIsPow2(level);
    ShrLowDivMod(pa, OffsBot(level));
    MakeDescMaps(pa, prot, level);
    OrZero(Slice(pa, 16, 1));
    InSpan(va, x, level);
    var attrs := leaf.desc.attrs;
    assert Requested(prot).nT == 0;
    assert attrs.(nT := 0) == Requested(prot);
  }

  lemma MakeDescNotTable(pa: nat, prot: nat, level: nat)
    requires 1 <= level <= 3 && pa < LIMIT && pa % Span(level) == 0 && Slice(prot, 16, 1) == 0
    ensures !ReadDesc(MakeDesc(pa, prot, level), level).Table?
  {
    SpanIsPow2(level);
    ShrLowDivMod(pa, OffsBot(level));
    MakeDescMaps(pa, prot, level);
  }

  /** The span at va is translated to the block at pa, and everything else as before. */
  ghost predicate MapsSpan(m: View, m': View, root: nat, va: nat, pa: nat, prot: nat, level: nat) {
    forall x: nat :: x < LIMIT ==>
      if va <= x < va + Span(level) then MapsTo(Translate(m', root, x), pa + (x - va), prot)
      else Translate(m', root, x) == Translate(m, root, x)
  }

  /** The span of the entry for va is no longer translated, and everything else as before. */
  ghost predicate ClearsSpan(m: View, m': View, root: nat, va: nat, level: nat) {
    forall x: nat :: x < LIMIT ==>
      Translate(m', root, x) == if x - x % Span(level) == va - va % Span(level) then Unmapped else Translate(m, root, x)
  }

  lemma SpanAfterSame(m0: View, m1: View, m2: View, root: nat, va: nat, pa: nat, prot: nat, level: nat)
    requires SameTranslations(m0, m1, root) && MapsSpan(m1, m2, root, va, pa, prot, level)
    ensures MapsSpan(m0, m2, root, va, pa, prot, level)
  {
    forall x: nat | x < LIMIT
      ensures if va <= x < va + Span(level) then MapsTo(Translate(m2, root, x), pa + (x - va), prot)
              else Translate(m2, root, x) == Translate(m0, root, x)
    {
      assert Translate(m1, root, x) == Translate(m0, root, x);
    }
  }

  lemma ClearAfterSame(m0: View, m1: View, m2: View, root: nat, va: nat, level: nat)
    requires SameTranslations(m0, m1, root) && ClearsSpan(m1, m2, root, va, level)
    ensures ClearsSpan(m0, m2, root, va, level)
  {
    forall x: nat | x < LIMIT
      ensures Translate(m2, root, x) == if x - x % Span(level) == va - va % Span(level) then Unmapped else Translate(m0, root, x)
    {
      assert Translate(m1, root, x) == Translate(m0, root, x);
    }
  }

  // ----- The software translation

  datatype Pointer = NULL | Address(a: nat)

  /** vmm_pa */
  function VmmPa(m: View, root: nat, va: nat): Pointer {
    var leaf := Walk(m, root, va);
    if leaf.desc.Block? then Address(Or(leaf.desc.oa, Slice(va, 0, OffsBot(leaf.level) + 1))) else NULL
  }

  /** Or-ing one bit more than the offset into an address gives the address at the offset exactly when
    * that bit is clear, or set in the address anyway. */
  lemma OneBitMore(oa: nat, va: nat, b: nat)
    requires Low(oa, b) == 0
    ensures Or(oa, Low(va, b + 1)) == oa + Low(va, b) <==> Slice(va, b, 1) == 0 || Slice(oa, b, 1) == 1
  {
    var n, c, l := Shr(oa, b), Slice(va, b, 1), Low(va, b);
    ShlShr(oa, b);
    LowBound(va, b);
    LowBound(Shr(va, b), 1);
    assert Pow2(1) == 2;
    LowOneMore(va, b);
    OrOnTop(n, c, l, b);
    ShlInjective(Or(n, c), n, b);
    OrBit(n, 0);
    OrZero(n);
    assert Slice(n, 0, 1) == Slice(oa, b, 1);
    assert Shl(1, 0) == 1;
  }

  /** vmm_pa takes one bit too many from the address: on a translated address its result is the
    * translation exactly when the lowest bit of the entry's number is clear in va or set in the
    * output address. */
  lemma VmmPaExactly(m: View, root: nat, va: nat)
    requires Walk(m, root, va).desc.Block? && Low(Walk(m, root, va).desc.oa, OffsBot(Walk(m, root, va).level)) == 0
    ensures var leaf := Walk(m, root, va);
            var b := OffsBot(leaf.level);
            VmmPa(m, root, va) == Address(Translate(m, root, va).pa) <==>
              Slice(va, b, 1) == 0 || Slice(leaf.desc.oa, b, 1) == 1
  {
    var leaf := Walk(m, root, va);
    var b := OffsBot(leaf.level);
    SpanIsPow2(leaf.level);
    ShrLowDivMod(va, b);
    assert Slice(va, 0, b + 1) == Low(va, b + 1);
    OneBitMore(leaf.desc.oa, va, b);
  }

  // ----- Mapping a range

  /** A range of addresses to be translated to the range that starts at pa. */
  datatype Request = Request(pa: nat, lo: nat, hi: nat, prot: nat) {
    predicate Sensible() {
      lo <= hi <= LIMIT && pa + (hi - lo) <= LIMIT && Aligned(pa, 3) && Slice(prot, 16, 1) == 0
    }

    /** The tables that mapping the range needs. */
    function Needs(): set<Node> {
      Need(lo, pa, hi)
    }
  }

  datatype VMRegion = VMRegion(valid: bool, vaStart: nat, vaEnd: nat, memattr: nat, prot: nat, paStart: nat) {
    function Wanted(): Request {
      Request(if paStart == 0 then vaStart else paStart, vaStart, vaEnd, Or(memattr, prot))
    }
  }

  datatype Status = Done | Unaligned | Misaligned | OutOfPages | Overlap

  /** IS_ALIGNED(x, OFFSBOT(level)) */
  predicate Aligned(x: nat, level: nat) {
    Low(x, OffsBot(level)) == 0
  }

  predicate BothAligned(va: nat, pa: nat, level: nat) {
    Aligned(va, level) && Aligned(pa, level)
  }

  lemma AlignedMod(x: nat, level: nat)
    requires level <= 3
    ensures Aligned(x, level) <==> x % Span(level) == 0
  {
    SpanIsPow2(level);
    ShrLowDivMod(x, OffsBot(level));
  }

  lemma AlignedIsMultiple(x: nat, level: nat) returns (q: nat)
    requires level <= 3 && Aligned(x, level)
    ensures x == q * Span(level)
  {
    AlignedMod(x, level);
    q := x / Span(level);
  }

  lemma MultipleIsAligned(x: nat, level: nat, q: nat)
    requires level <= 3 && x == q * Span(level)
    ensures Aligned(x, level)
  {
    DivModUnique(x, Span(level), q, 0);
    AlignedMod(x, level);
  }

  lemma AlignedStep(x: nat, level: nat)
    requires level <= 3 && Aligned(x, level)
    ensures Aligned(x + Span(level), level)
  {
    var q := AlignedIsMultiple(x, level);
    MultipleIsAligned(x + Span(level), level, q + 1);
  }

  lemma AlignedFiner(x: nat, level: nat)
    requires level < 3 && Aligned(x, level)
    ensures Aligned(x, level + 1)
  {
    var q := AlignedIsMultiple(x, level);
    RegionIs(level + 1);
    assert q * (512 * Span(level + 1)) == (512 * q) * Span(level + 1);
    MultipleIsAligned(x, level + 1, 512 * q);
  }

  lemma AlignedRoom(x: nat, hi: nat, level: nat)
    requires level <= 3 && Aligned(x, level) && Aligned(hi, level) && x < hi
    ensures x + Span(level) <= hi
  {
    var q := AlignedIsMultiple(x, level);
    var p := AlignedIsMultiple(hi, level);
    var s := Span(level);
    assert hi - x == (p - q) * s;
    MultiplesOrdered(p, q, s);
    MulAtLeast(p - q, s);
  }

  lemma MultiplesOrdered(p: nat, q: nat, s: nat)
    ensures p <= q ==> p * s <= q * s
  {
    if p <= q {
      MulNat(q - p, s);
    }
  }

  /** No table page covers nothing but addresses of the range. */
  ghost predicate NoTableInside(cover: map<nat, Node>, lo: nat, hi: nat) {
    forall q :: q in cover && 1 <= cover[q].level <= 3 ==>
      !(lo <= cover[q].base && cover[q].base + Region(cover[q].level) <= hi)
  }

  ghost predicate RangeMapped(m: View, root: nat, r: Request, hi: nat) {
    forall x: nat :: r.lo <= x < hi ==> MapsTo(Translate(m, root, x), r.pa + (x - r.lo), r.prot)
  }

  ghost predicate RangeFree(m: View, root: nat, lo: nat, hi: nat) {
    forall x: nat :: lo <= x < hi ==> Translate(m, root, x) == Unmapped
  }

  ghost predicate SameOutside(m: View, m': View, root: nat, lo: nat, hi: nat) {
    forall x: nat :: x < LIMIT && !(lo <= x < hi) ==> Translate(m', root, x) == Translate(m, root, x)
  }

  /** Where no table is inside the range, an aligned entry of the range is not a table. */
  lemma AlignedNoTable(m: View, root: nat, cover: map<nat, Node>, va: nat, hi: nat, level: nat)
    requires Tree(m, root, cover) && NoTableInside(cover, va, hi)
    requires 1 <= level <= 3 && va % Span(level) == 0 && va + Span(level) <= hi <= LIMIT
    ensures NoTableBelow(m, root, va, level)
  {
    if level < 3 && PageAt(m, root, va, level + 1).To? {
      PathCovered(m, root, cover, va, level + 1);
    }
  }

  lemma RangeStep(m0: View, m: View, m': View, root: nat, r: Request, va: nat, level: nat)
    requires r.lo <= va && va + Span(level) <= r.hi <= LIMIT
    requires RangeMapped(m, root, r, va) && RangeFree(m, root, va, r.hi) && SameOutside(m0, m, root, r.lo, r.hi)
    requires MapsSpan(m, m', root, va, r.pa + (va - r.lo), r.prot, level)
    ensures RangeMapped(m', root, r, va + Span(level)) && RangeFree(m', root, va + Span(level), r.hi)
    ensures SameOutside(m0, m', root, r.lo, r.hi)
  {
    forall x: nat | r.lo <= x < va + Span(level) ensures MapsTo(Translate(m', root, x), r.pa + (x - r.lo), r.prot) {
      assert x < va ==> MapsTo(Translate(m, root, x), r.pa + (x - r.lo), r.prot);
    }
    forall x: nat | va + Span(level) <= x < r.hi ensures Translate(m', root, x) == Unmapped {
      assert Translate(m, root, x) == Unmapped;
    }
    forall x: nat | x < LIMIT && !(r.lo <= x < r.hi) ensures Translate(m', root, x) == Translate(m0, root, x) {
      assert Translate(m, root, x) == Translate(m0, root, x);
    }
  }

  lemma InsideGrown(cover: map<nat, Node>, cover': map<nat, Node>, va: nat, level: nat, lo: nat, hi: nat)
    requires NoTableInside(cover, va, hi) && GrownTowards(cover, cover', va, level) && va < lo && level <= 3
    ensures NoTableInside(cover', lo, hi)
  {
  }

  // ----- The tables that a mapping needs

  /** The tables below the root that the walk for va goes through, down to the level. */
  function Path(va: nat, level: nat): set<Node> {
    if level == 0 then {} else Path(va, level - 1) + {Node(level, Base(va, level))}
  }

  lemma {:induction false} OnPath(va: nat, level: nat, n: Node)
    ensures n in Path(va, level) <==> 1 <= n.level <= level && n == Node(n.level, Base(va, n.level))
  {
    if level > 0 {
      OnPath(va, level - 1, n);
    }
  }

  /** The size of the block or page that the code maps at va: the largest that both addresses are
    * aligned for and that the rest of the range has room for. */
  function LevelFor(va: nat, pa: nat, hi: nat): (level: nat)
    ensures 1 <= level <= 3
  {
    if BothAligned(va, pa, 1) && va + Span(1) <= hi then 1
    else if BothAligned(va, pa, 2) && va + Span(2) <= hi then 2
    else 3
  }

  /** The tables that mapping the range from va to hi needs. */
  function Need(va: nat, pa: nat, hi: nat): set<Node>
    decreases hi - va
  {
    if hi < va + Span(3) then {}
    else
      var level := LevelFor(va, pa, hi);
      Path(va, level) + Need(va + Span(level), pa + Span(level), hi)
  }

  /** Every table that is needed covers an address of the range. */
  lemma {:induction false} NeedMeets(va: nat, pa: nat, hi: nat, n: Node) returns (x: nat)
    requires n in Need(va, pa, hi)
    ensures va <= x < hi && 1 <= n.level <= 3 && n == Node(n.level, Base(x, n.level))
    decreases hi - va
  {
    var level := LevelFor(va, pa, hi);
    OnPath(va, level, n);
    if n in Path(va, level) {
      x := va;
    } else {
      x := NeedMeets(va + Span(level), pa + Span(level), hi, n);
    }
  }

  // ----- The sizes of the blocks

  /** The block or page of the level around x lies in the range, and both its addresses are aligned. */
  predicate BlockAt(r: Request, x: nat, level: nat) {
    var base := x - x % Span(level);
    (r.pa - r.lo) % Span(level) == 0 && r.lo <= base && base + Span(level) <= r.hi
  }

  /** Of the blocks and pages around x that fit, the one of this level is the largest. */
  predicate IsLargest(r: Request, x: nat, level: nat) {
    1 <= level <= 3 && BlockAt(r, x, level) && forall k :: 1 <= k < level ==> !BlockAt(r, x, k)
  }

  lemma LargerBase(x: nat, y: nat, k: nat, level: nat)
    requires 1 <= k <= level <= 3 && x - x % Span(level) == y - y % Span(level)
    ensures x - x % Span(k) == y - y % Span(k)
  {
    if k < 3 && level == 3 {
      OneLarger(x, y, 2);
    }
    if k == 1 && 1 < level {
      OneLarger(x, y, 1);
    }
  }

  lemma OneLarger(x: nat, y: nat, k: nat)
    requires 1 <= k < 3 && x - x % Span(k + 1) == y - y % Span(k + 1)
    ensures x - x % Span(k) == y - y % Span(k)
  {
    SameEntry(x, y, k + 1);
  }

  /** Adding a multiple changes no remainder of zero. */
  lemma MultipleAdded(a: int, q: int, s: nat)
    requires 0 < s
    ensures (a + q * s) % s == 0 <==> a % s == 0
  {
    var b := a + q * s;
    if a % s == 0 {
      assert a == a / s * s;
      DivModUnique(b, s, a / s + q, 0);
    }
    if b % s == 0 {
      assert b == b / s * s;
      DivModUnique(a, s, b / s - q, 0);
    }
  }

  /** With va aligned, the code's test of both addresses is one of their distance. */
  lemma DistanceAligned(r: Request, va: nat, level: nat)
    requires 1 <= level <= 3 && r.lo <= va && va % Span(level) == 0
    ensures BothAligned(va, r.pa + (va - r.lo), level) <==> (r.pa - r.lo) % Span(level) == 0
  {
    AlignedMod(va, level);
    AlignedMod(r.pa + (va - r.lo), level);
    var q := AlignedIsMultiple(va, level);
    MultipleAdded(r.pa - r.lo, q, Span(level));
  }

  /** No block that fits lies across va. */
  ghost predicate Clear(r: Request, va: nat) {
    forall level :: 1 <= level <= 3 && BlockAt(r, va, level) ==> va % Span(level) == 0
  }

  /** The ends of the range are multiples of pages. */
  predicate WholePages(r: Request) {
    r.Sensible() && Aligned(r.lo, 3) && Aligned(r.hi, 3)
  }

  lemma PageFits(r: Request, va: nat)
    requires WholePages(r) && r.lo <= va && Aligned(va, 3) && va < r.hi
    ensures BlockAt(r, va, 3) && va + Span(3) <= r.hi && va % Span(3) == 0
  {
    AlignedMod(va, 3);
    AlignedMod(r.lo, 3);
    AlignedMod(r.pa, 3);
    AlignedRoom(va, r.hi, 3);
  }

  lemma FitsHere(r: Request, va: nat, level: nat)
    requires 1 <= level <= 3 && r.lo <= va && Clear(r, va)
    ensures BlockAt(r, va, level) <==>
      va % Span(level) == 0 && BothAligned(va, r.pa + (va - r.lo), level) && va + Span(level) <= r.hi
  {
    AlignedMod(va, level);
    if va % Span(level) == 0 {
      DistanceAligned(r, va, level);
    }
  }

  /** The code takes the largest block that fits. */
  lemma LargestHere(r: Request, va: nat)
    requires WholePages(r) && r.lo <= va && Aligned(va, 3) && va < r.hi && Clear(r, va)
    ensures IsLargest(r, va, LevelFor(va, r.pa + (va - r.lo), r.hi))
    ensures va % Span(LevelFor(va, r.pa + (va - r.lo), r.hi)) == 0
  {
    PageFits(r, va);
    FitsHere(r, va, 1);
    FitsHere(r, va, 2);
    AlignedMod(va, 1);
    AlignedMod(va, 2);
  }

  lemma LargestAround(r: Request, va: nat, x: nat, level: nat)
    requires IsLargest(r, va, level) && va % Span(level) == 0 && va <= x < va + Span(level)
    ensures IsLargest(r, x, level)
  {
    InSpan(va, x, level);
    forall k | 1 <= k < level ensures !BlockAt(r, x, k) {
      LargerBase(x, va, k, level);
      assert !BlockAt(r, va, k);
    }
  }

  lemma ClearNext(r: Request, va: nat, level: nat)
    requires IsLargest(r, va, level) && va % Span(level) == 0
    ensures Clear(r, va + Span(level))
  {
    var next := va + Span(level);
    AlignedMod(va, level);
    AlignedStep(va, level);
    AlignedMod(next, level);
    forall k | 1 <= k <= 3 && BlockAt(r, next, k) ensures next % Span(k) == 0 {
      ClearAt(r, va, next, level, k);
    }
  }

  lemma ClearAt(r: Request, va: nat, next: nat, level: nat, k: nat)
    requires IsLargest(r, va, level) && va % Span(level) == 0 && next == va + Span(level) && next % Span(level) == 0
    requires 1 <= k <= 3 && BlockAt(r, next, k)
    ensures next % Span(k) == 0
  {
    if level <= k {
      FinerMultiple(next, level, k);
    } else if next % Span(k) != 0 {
      assert !BlockAt(r, va, k);
      AcrossBoth(va, next, level, k);
    }
  }

  lemma FinerMultiple(x: nat, level: nat, k: nat)
    requires level <= k <= 3 && (x % Span(level) == 0 || x % Span(level) == Span(level))
    ensures x % Span(k) == 0
    decreases k - level
  {
    if level < k {
      AlignedMod(x, level);
      AlignedFiner(x, level);
      AlignedMod(x, level + 1);
      FinerMultiple(x, level + 1, k);
    }
  }

  /** A larger block that lies across the end of a smaller one lies around all of it. */
  lemma AcrossBoth(va: nat, next: nat, level: nat, k: nat)
    requires 1 <= k < level <= 3 && va % Span(level) == 0 && next == va + Span(level) && next % Span(k) != 0
    ensures va - va % Span(k) == next - next % Span(k)
  {
    var base := next - next % Span(k);
    DivModUnique(base, Span(k), next / Span(k), 0);
    FinerMultiple(base, k, level);
    AlignedMod(base, level);
    AlignedMod(va, level);
    AlignedStep(va, level);
    AlignedRoom(base, next, level);
    InSpan(base, va, k);
  }

  /** Each address needs the tables down to the level of the largest block around it. */
  lemma {:induction false} NeedHas(r: Request, va: nat, x: nat) returns (level: nat)
    requires WholePages(r) && r.lo <= va <= x < r.hi && Aligned(va, 3) && Clear(r, va)
    ensures IsLargest(r, x, level)
    ensures forall k :: 1 <= k <= level ==> Node(k, Base(x, k)) in Need(va, r.pa + (va - r.lo), r.hi)
    decreases r.hi - va
  {
    var pa := r.pa + (va - r.lo);
    PageFits(r, va);
    LargestHere(r, va);
    var l := LevelFor(va, pa, r.hi);
    if x < va + Span(l) {
      level := l;
      LargestAround(r, va, x, l);
      forall k | 1 <= k <= l ensures Node(k, Base(x, k)) in Need(va, pa, r.hi) {
        SameTable(va, x, k, l);
        OnPath(va, l, Node(k, Base(x, k)));
      }
    } else {
      NextPage(va, l);
      ClearNext(r, va, l);
      level := NeedHas(r, va + Span(l), x);
    }
  }

  lemma NextPage(va: nat, level: nat)
    requires 1 <= level <= 3 && va % Span(level) == 0
    ensures Aligned(va + Span(level), 3)
  {
    AlignedMod(va, level);
    AlignedStep(va, level);
    AlignedMod(va + Span(level), level);
    FinerMultiple(va + Span(level), level, 3);
    AlignedMod(va + Span(level), 3);
  }

  lemma SameTable(va: nat, x: nat, k: nat, level: nat)
    requires 1 <= k <= level <= 3 && va % Span(level) == 0 && va <= x < va + Span(level)
    ensures Base(x, k) == Base(va, k)
  {
    InSpan(va, x, level);
    LargerBase(x, va, k, level);
    SameEntry(x, va, k);
  }

  /** No table is needed but for these. */
  lemma {:induction false} NeedOnly(r: Request, va: nat, n: Node) returns (x: nat, level: nat)
    requires WholePages(r) && r.lo <= va && Aligned(va, 3) && Clear(r, va)
    requires n in Need(va, r.pa + (va - r.lo), r.hi)
    ensures va <= x < r.hi && IsLargest(r, x, level)
    ensures 1 <= n.level <= level && n == Node(n.level, Base(x, n.level))
    decreases r.hi - va
  {
    var pa := r.pa + (va - r.lo);
    PageFits(r, va);
    LargestHere(r, va);
    var l := LevelFor(va, pa, r.hi);
    OnPath(va, l, n);
    if n in Path(va, l) {
      x, level := va, l;
    } else {
      NextPage(va, l);
      ClearNext(r, va, l);
      x, level := NeedOnly(r, va + Span(l), n);
    }
  }

  lemma ClearAtStart(r: Request)
    ensures Clear(r, r.lo)
  {
  }

  ghost predicate NeededAt(r: Request, n: Node, x: nat) {
    && r.lo <= x < r.hi && n == Node(n.level, Base(x, n.level)) && 1 <= n.level <= 3
    && forall k :: 1 <= k < n.level ==> !BlockAt(r, x, k)
  }

  /** The tables that a range needs are those that serve one of its addresses, down to the level of the
    * largest block that fits around it. */
  lemma NeedExactly(r: Request, n: Node)
    requires WholePages(r)
    ensures n in r.Needs() <==> exists x: nat :: NeededAt(r, n, x)
  {
    ClearAtStart(r);
    if n in r.Needs() {
      var x, level := NeedOnly(r, r.lo, n);
      assert NeededAt(r, n, x);
    }
    if exists x: nat :: NeededAt(r, n, x) {
      var x: nat :| NeededAt(r, n, x);
      var level := NeedHas(r, r.lo, x);
      assert n.level <= level;
    }
  }

  /** A walk ends at the deepest table that serves the address. */
  lemma DepthByCover(m: View, root: nat, cover: map<nat, Node>, x: nat, level: nat)
    requires Tree(m, root, cover) && x < LIMIT && 1 <= level <= 3 && Node(level, Base(x, level)) in cover.Values
    requires level < 3 ==> Node(level + 1, Base(x, level + 1)) !in cover.Values
    ensures Walk(m, root, x).level == level
  {
    var q :| q in cover && cover[q] == Node(level, Base(x, level));
    assert Reached(m, root, cover, q);
    if level < Depth(m, root, x) {
      PathPrefix(m, root, x, Depth(m, root, x), level + 1);
      PathCovered(m, root, cover, x, level + 1);
    }
  }

  /** The tables of the range are those that it needs. */
  ghost predicate OnlyNeeded(cover: map<nat, Node>, r: Request) {
    && r.Needs() <= cover.Values
    && forall n :: n in cover.Values && 1 <= n.level <= 3 && r.lo <= n.base && n.base + Region(n.level) <= r.hi ==>
         n in r.Needs()
  }

  /** Every address of the range is translated by the largest block that fits around it. */
  ghost predicate LargestBlocks(m: View, root: nat, r: Request) {
    forall x: nat :: r.lo <= x < r.hi ==> IsLargest(r, x, Walk(m, root, x).level)
  }

  lemma LargestAreUsed(m: View, root: nat, cover: map<nat, Node>, r: Request)
    requires Tree(m, root, cover) && WholePages(r) && OnlyNeeded(cover, r)
    ensures LargestBlocks(m, root, r)
  {
    ClearAtStart(r);
    forall x: nat | r.lo <= x < r.hi ensures IsLargest(r, x, Walk(m, root, x).level) {
      var level := NeedHas(r, r.lo, x);
      assert Node(level, Base(x, level)) in cover.Values;
      if level < 3 {
        NoneInside(r, x, level);
      }
      DepthByCover(m, root, cover, x, level);
    }
  }

  lemma NoneInside(r: Request, x: nat, level: nat)
    requires WholePages(r) && r.lo <= x < r.hi && IsLargest(r, x, level) && level < 3
    ensures var n := Node(level + 1, Base(x, level + 1));
      n !in r.Needs() && r.lo <= n.base && n.base + Region(n.level) <= r.hi
  {
    var n := Node(level + 1, Base(x, level + 1));
    NeedExactly(r, n);
    forall y: nat ensures !NeededAt(r, n, y) {
      if Base(y, level + 1) == n.base {
        assert BlockAt(r, y, level);
      }
    }
  }

  /** With no table inside the range before, those that have been added are the only ones. */
  lemma LargestAfter(m: View, root: nat, cover0: map<nat, Node>, cover: map<nat, Node>, r: Request)
    requires Tree(m, root, cover) && WholePages(r) && NoTableInside(cover0, r.lo, r.hi)
    requires cover.Values == cover0.Values + r.Needs()
    ensures LargestBlocks(m, root, r)
  {
    forall n | n in cover.Values && 1 <= n.level <= 3 && r.lo <= n.base && n.base + Region(n.level) <= r.hi
      ensures n in r.Needs()
    {
      NotBefore(cover0, r.lo, r.hi, n);
    }
    LargestAreUsed(m, root, cover, r);
  }

  lemma NotBefore(cover: map<nat, Node>, lo: nat, hi: nat, n: Node)
    requires NoTableInside(cover, lo, hi) && 1 <= n.level <= 3 && lo <= n.base && n.base + Region(n.level) <= hi
    ensures n !in cover.Values
  {
    forall q | q in cover ensures cover[q] != n {}
  }

  /** From bot on, n pages can be handed out before top. */
  predicate Enough(bot: nat, top: nat, n: nat) {
    n == 0 || bot + (n - 1) * PAGE_SIZE < top
  }

  lemma MissingSplit(a: set<Node>, b: set<Node>, have: set<Node>)
    ensures |(a + b) - have| == |a - have| + |b - (have + a)|
  {
    assert (a + b) - have == (a - have) + (b - (have + a));
  }

  lemma MissingOne(a: set<Node>, n: Node, have: set<Node>)
    requires n !in a
    ensures |(a + {n}) - have| == |a - have| + if n in have then 0 else 1
  {
    if n in have {
      assert (a + {n}) - have == a - have;
    } else {
      assert (a + {n}) - have == (a - have) + {n};
    }
  }

  lemma {:induction false} PathMissing(va: nat, level: nat, deeper: nat, have: set<Node>)
    requires level <= deeper
    ensures |Path(va, level) - have| <= |Path(va, deeper) - have|
    decreases deeper
  {
    if level < deeper {
      PathMissing(va, level, deeper - 1, have);
      OnPath(va, deeper - 1, Node(deeper, Base(va, deeper)));
      MissingOne(Path(va, deeper - 1), Node(deeper, Base(va, deeper)), have);
    }
  }

  /** One more table on the way to va. */
  lemma PathMore(va: nat, level: nat, deeper: nat, have: set<Node>)
    requires level < deeper
    ensures var n := Node(level + 1, Base(va, level + 1));
            && n !in Path(va, level) && Path(va, level + 1) == Path(va, level) + {n}
            && |Path(va, level + 1) - have| == |Path(va, level) - have| + (if n in have then 0 else 1)
            && |Path(va, level + 1) - have| <= |Path(va, deeper) - have|
  {
    var n := Node(level + 1, Base(va, level + 1));
    OnPath(va, level, n);
    MissingOne(Path(va, level), n, have);
    PathMissing(va, level + 1, deeper, have);
  }

  /** The tables on the way to va down to the level are there, and have taken the pages for those
    * that were missing. */
  ghost predicate Paid(tables: set<Node>, bot: nat, top: nat, have: set<Node>, bot0: nat, va: nat, level: nat) {
    && tables == have + Path(va, level)
    && bot == bot0 + |Path(va, level) - have| * PAGE_SIZE
    && Enough(bot0, top, |Path(va, level) - have|)
  }

  lemma PaidStart(have: set<Node>, bot: nat, top: nat, va: nat)
    ensures Paid(have, bot, top, have, bot, va, 0)
  {
    assert have + {} == have && {} - have == {};
  }

  /** One more table, new or not, is paid for exactly when there is a page for it. */
  lemma PaidMore(tables: set<Node>, bot: nat, top: nat, have: set<Node>, bot0: nat, va: nat, level: nat, deeper: nat)
    requires Paid(tables, bot, top, have, bot0, va, level) && level < deeper
    ensures var n := Node(level + 1, Base(va, level + 1));
            if n in tables || bot < top
            then Paid(tables + {n}, bot + (if n in tables then 0 else PAGE_SIZE), top, have, bot0, va, level + 1)
            else !Enough(bot0, top, |Path(va, deeper) - have|)
  {
    PathMore(va, level, deeper, have);
    var n := Node(level + 1, Base(va, level + 1));
    assert tables + {n} == have + Path(va, level + 1);
  }

  /** With the tables there now and from the pages left now, the tables still needed lead to the
    * same tables and take the same pages as all of them did from the start. */
  ghost predicate OnBudget(have: set<Node>, bot: nat, top: nat, need: set<Node>, have0: set<Node>, bot0: nat, need0: set<Node>) {
    && have + need == have0 + need0
    && bot + |need - have| * PAGE_SIZE == bot0 + |need0 - have0| * PAGE_SIZE
    && (Enough(bot, top, |need - have|) <==> Enough(bot0, top, |need0 - have0|))
  }

  lemma BudgetStep(have: set<Node>, bot: nat, top: nat, path: set<Node>, rest: set<Node>,
                   have0: set<Node>, bot0: nat, need0: set<Node>)
    requires OnBudget(have, bot, top, path + rest, have0, bot0, need0)
    ensures Enough(bot, top, |path - have|) ==>
      OnBudget(have + path, bot + |path - have| * PAGE_SIZE, top, rest, have0, bot0, need0)
    ensures !Enough(bot, top, |path - have|) ==> !Enough(bot0, top, |need0 - have0|)
  {
    MissingSplit(path, rest, have);
    assert have + (path + rest) == (have + path) + rest;
  }

  /** The state of an account: whether the tables there and the pages left fit the tables that are
    * still needed, and whether the pages do not suffice for all that were needed. */
  datatype Budget = Budget(fits: (set<Node>, nat, set<Node>) -> bool, broke: bool)

  ghost predicate GoesOnAt(b: Budget, top: nat, have: set<Node>, bot: nat, path: set<Node>, rest: set<Node>) {
    b.fits(have, bot, path + rest) ==>
      if Enough(bot, top, |path - have|) then b.fits(have + path, bot + |path - have| * PAGE_SIZE, rest) else b.broke
  }

  ghost predicate GoesOn(b: Budget, top: nat) {
    forall have, bot, path, rest :: GoesOnAt(b, top, have, bot, path, rest)
  }

  ghost function BudgetOf(have0: set<Node>, bot0: nat, top: nat, need0: set<Node>): Budget {
    Budget((have: set<Node>, bot: nat, need: set<Node>) => OnBudget(have, bot, top, need, have0, bot0, need0),
           !Enough(bot0, top, |need0 - have0|))
  }

  lemma BudgetGoesOn(have0: set<Node>, bot0: nat, top: nat, need0: set<Node>)
    ensures GoesOn(BudgetOf(have0, bot0, top, need0), top)
    ensures BudgetOf(have0, bot0, top, need0).fits(have0, bot0, need0)
  {
    forall have, bot: nat, path, rest ensures GoesOnAt(BudgetOf(have0, bot0, top, need0), top, have, bot, path, rest) {
      if OnBudget(have, bot, top, path + rest, have0, bot0, need0) {
        BudgetStep(have, bot, top, path, rest, have0, bot0, need0);
      }
    }
  }

  lemma BudgetUsed(have: set<Node>, bot: nat, top: nat, have0: set<Node>, bot0: nat, need0: set<Node>)
    requires BudgetOf(have0, bot0, top, need0).fits(have, bot, {})
    ensures Enough(bot0, top, |need0 - have0|)
    ensures bot == bot0 + |need0 - have0| * PAGE_SIZE
    ensures have == have0 + need0
  {
    assert have + {} == have && {} - have == {};
  }

  /** What is known while a range is being mapped: whether the tables there and the pages left fit what
    * is still to be mapped from an address on, and whether the pages do not suffice for all of it. */
  datatype Account = Account(funded: (set<Node>, nat, nat) -> bool, broke: bool)

  /** One step with the account goes through exactly when there are pages for it. */
  ghost predicate SoundAt(acc: Account, r: Request, top: nat, have: set<Node>, bot: nat, va: nat)
    requires r.lo <= va
  {
    var level := LevelFor(va, r.pa + (va - r.lo), r.hi);
    var missing := |Path(va, level) - have|;
    acc.funded(have, bot, va) && va + Span(3) <= r.hi ==>
      if Enough(bot, top, missing)
      then acc.funded(have + Path(va, level), bot + missing * PAGE_SIZE, va + Span(level))
      else acc.broke
  }

  ghost predicate Sound(acc: Account, r: Request, top: nat) {
    forall have, bot, va :: r.lo <= va ==> SoundAt(acc, r, top, have, bot, va)
  }

  /** What a step of the loops does to the account. */
  lemma UseAccount(acc: Account, r: Request, top: nat, have: set<Node>, bot: nat, va: nat, level: nat,
                   ok: bool, have': set<Node>, bot': nat)
    requires Sound(acc, r, top) && acc.funded(have, bot, va)
    requires r.lo <= va && level == LevelFor(va, r.pa + (va - r.lo), r.hi) && va + Span(3) <= r.hi
    requires ok <==> Enough(bot, top, |Path(va, level) - have|)
    requires ok ==> bot' == bot + |Path(va, level) - have| * PAGE_SIZE && have' == have + Path(va, level)
    ensures if ok then acc.funded(have', bot', va + Span(level)) else acc.broke
  {
    assert SoundAt(acc, r, top, have, bot, va);
  }

  /** The tables that the rest of the range from va on needs. */
  function Rest(r: Request, va: nat): set<Node> {
    if va < r.lo then {} else Need(va, r.pa + (va - r.lo), r.hi)
  }

  lemma RestStep(r: Request, va: nat, level: nat)
    requires r.lo <= va && level == LevelFor(va, r.pa + (va - r.lo), r.hi) && va + Span(3) <= r.hi
    ensures Rest(r, va) == Path(va, level) + Rest(r, va + Span(level))
  {
    assert r.pa + (va + Span(level) - r.lo) == r.pa + (va - r.lo) + Span(level);
  }

  /** The account of a range for a budget. */
  ghost function AccountOf(b: Budget, r: Request): Account {
    Account((have: set<Node>, bot: nat, va: nat) => b.fits(have, bot, Rest(r, va)), b.broke)
  }

  lemma AccountSoundAt(b: Budget, r: Request, top: nat, have: set<Node>, bot: nat, va: nat)
    requires GoesOn(b, top) && r.lo <= va
    ensures SoundAt(AccountOf(b, r), r, top, have, bot, va)
  {
    var level := LevelFor(va, r.pa + (va - r.lo), r.hi);
    if b.fits(have, bot, Rest(r, va)) && va + Span(3) <= r.hi {
      RestStep(r, va, level);
      assert GoesOnAt(b, top, have, bot, Path(va, level), Rest(r, va + Span(level)));
    }
  }

  lemma AccountSound(b: Budget, r: Request, top: nat)
    requires GoesOn(b, top)
    ensures Sound(AccountOf(b, r), r, top)
  {
    forall have, bot: nat, va | r.lo <= va ensures SoundAt(AccountOf(b, r), r, top, have, bot, va) {
      AccountSoundAt(b, r, top, have, bot, va);
    }
  }

  lemma RestEnds(r: Request)
    requires r.lo <= r.hi
    ensures Rest(r, r.lo) == r.Needs() && Rest(r, r.hi) == {}
  {
  }

  lemma NotFiner(va: nat, pa: nat)
    requires !BothAligned(va, pa, 2)
    ensures !BothAligned(va, pa, 1)
  {
    if BothAligned(va, pa, 1) {
      AlignedFiner(va, 1);
      AlignedFiner(pa, 1);
    }
  }

  /** ALIGN_TO goes down by less than a span. */
  lemma AlignedDown(x: nat, level: nat)
    requires level <= 3
    ensures Low(x, OffsBot(level)) <= x && Low(x, OffsBot(level)) < Span(level)
  {
    SpanIsPow2(level);
    ShrLowDivMod(x, OffsBot(level));
  }

  // ----- Mapping many regions

  predicate InRegion(reg: VMRegion, x: nat) {
    reg.valid && reg.vaStart <= x < reg.vaEnd
  }

  predicate Apart(a: VMRegion, b: VMRegion) {
    a.valid && b.valid ==> a.vaEnd <= b.vaStart || b.vaEnd <= a.vaStart
  }

  /** No two valid regions overlap. */
  predicate PairwiseApart(regs: seq<VMRegion>) {
    forall j, k :: 0 <= j < k < |regs| ==> Apart(regs[j], regs[k])
  }

  predicate AlignedRegion(reg: VMRegion) {
    reg.valid ==> Aligned(reg.vaStart, 3) && Aligned(reg.vaEnd, 3)
  }

  /** The tables that the valid regions need, all together. */
  function NeedsOf(regs: seq<VMRegion>): set<Node> {
    if regs == [] then {}
    else
      var last := regs[|regs| - 1];
      NeedsOf(regs[..|regs| - 1]) + if last.valid then last.Wanted().Needs() else {}
  }

  lemma {:induction false} NeedsMore(regs: seq<VMRegion>, k: nat)
    requires k <= |regs|
    ensures NeedsOf(regs[..k]) <= NeedsOf(regs)
  {
    if k < |regs| {
      NeedsMore(regs[..|regs| - 1], k);
      assert regs[..|regs| - 1][..k] == regs[..k];
    } else {
      assert regs[..k] == regs;
    }
  }

  lemma NeedsNext(regs: seq<VMRegion>, k: nat)
    requires k < |regs|
    ensures NeedsOf(regs[..k + 1]) == NeedsOf(regs[..k]) + if regs[k].valid then regs[k].Wanted().Needs() else {}
  {
    assert regs[..k + 1][..k] == regs[..k];
  }

  /** The region is translated as it asks for. */
  ghost predicate RegionMapped(m: View, root: nat, reg: VMRegion) {
    reg.valid ==> RangeMapped(m, root, reg.Wanted(), reg.vaEnd)
  }

  /** The attributes of a page that the harness maps with this word of protection and memory type. */
  predicate Grants(a: Attrs, word: nat) {
    && a.attr == Slice(word, 2, 3) && a.NS == 0 && a.AP == Slice(word, 6, 2) && a.SH == 3
    && a.AF == 1 && a.nG == 1 && a.PXN == Slice(word, 53, 1) && a.XN == Slice(word, 54, 1)
  }

  /** An address of the region goes to the same offset from its physical address, or to itself if it has
    * none, with its protection and memory type. */
  ghost predicate RegionTranslated(m: View, root: nat, reg: VMRegion) {
    forall x: nat :: reg.vaStart <= x < reg.vaEnd ==>
      var t := Translate(m, root, x);
      t.Mapped? && Grants(t.attrs, Or(reg.memattr, reg.prot)) &&
      t.pa == if reg.paStart == 0 then x else reg.paStart + (x - reg.vaStart)
  }

  lemma RegionTranslates(m: View, root: nat, reg: VMRegion)
    requires RangeMapped(m, root, reg.Wanted(), reg.vaEnd)
    ensures RegionTranslated(m, root, reg)
  {
    forall x: nat | reg.vaStart <= x < reg.vaEnd
      ensures var t := Translate(m, root, x);
        t.Mapped? && Grants(t.attrs, Or(reg.memattr, reg.prot)) &&
        t.pa == if reg.paStart == 0 then x else reg.paStart + (x - reg.vaStart)
    {
      assert MapsTo(Translate(m, root, x), reg.Wanted().pa + (x - reg.vaStart), reg.Wanted().prot);
    }
  }

  /** The region can be mapped: nothing is translated in it, and no table is inside it. */
  ghost predicate RegionOpen(m: View, root: nat, cover: map<nat, Node>, reg: VMRegion) {
    reg.valid ==>
      && reg.Wanted().Sensible()
      && RangeFree(m, root, reg.vaStart, reg.vaEnd) && NoTableInside(cover, reg.vaStart, reg.vaEnd)
  }

  predicate InSome(regs: seq<VMRegion>, k: nat, x: nat) {
    exists j :: 0 <= j < k <= |regs| && InRegion(regs[j], x)
  }

  /** The first k regions are mapped, the others can be, and everything else is as before. */
  ghost predicate MappedUpTo(m0: View, m: View, root: nat, cover: map<nat, Node>, regs: seq<VMRegion>, k: nat) {
    && k <= |regs|
    && (forall j :: 0 <= j < k ==> RegionMapped(m, root, regs[j]))
    && (forall j :: k <= j < |regs| ==> RegionOpen(m, root, cover, regs[j]))
    && (forall x: nat :: x < LIMIT && !InSome(regs, k, x) ==> Translate(m, root, x) == Translate(m0, root, x))
  }

  /** Mapping a range puts no table inside another one. */
  lemma NoTableElsewhere(cover: map<nat, Node>, cover': map<nat, Node>, r: Request, lo: nat, hi: nat)
    requires NoTableInside(cover, lo, hi) && cover'.Values == cover.Values + r.Needs()
    requires r.hi <= lo || hi <= r.lo
    ensures NoTableInside(cover', lo, hi)
  {
    forall q | q in cover' && 1 <= cover'[q].level <= 3
      ensures !(lo <= cover'[q].base && cover'[q].base + Region(cover'[q].level) <= hi)
    {
      var n := cover'[q];
      assert n in cover'.Values;
      if n in cover.Values {
        var p :| p in cover && cover[p] == n;
      } else {
        var x := NeedMeets(r.lo, r.pa, r.hi, n);
        InRegionOfNode(x, n.level);
      }
    }
  }

  lemma InRegionOfNode(x: nat, level: nat)
    requires 1 <= level <= 3
    ensures Base(x, level) <= x < Base(x, level) + Region(level)
  {
  }

  lemma OthersOpen(m: View, m': View, root: nat, cover: map<nat, Node>, cover': map<nat, Node>, r: Request, reg: VMRegion)
    requires RegionOpen(m, root, cover, reg) && SameOutside(m, m', root, r.lo, r.hi)
    requires cover'.Values == cover.Values + r.Needs()
    requires reg.valid ==> r.hi <= reg.vaStart || reg.vaEnd <= r.lo
    ensures RegionOpen(m', root, cover', reg)
  {
    if reg.valid {
      NoTableElsewhere(cover, cover', r, reg.vaStart, reg.vaEnd);
      forall x: nat | reg.vaStart <= x < reg.vaEnd ensures Translate(m', root, x) == Unmapped {
        assert Translate(m, root, x) == Unmapped;
      }
    }
  }

  lemma OthersMapped(m: View, m': View, root: nat, r: Request, reg: VMRegion)
    requires RegionMapped(m, root, reg) && SameOutside(m, m', root, r.lo, r.hi)
    requires reg.valid ==> reg.vaEnd <= LIMIT && (r.hi <= reg.vaStart || reg.vaEnd <= r.lo)
    ensures RegionMapped(m', root, reg)
  {
    if reg.valid {
      forall x: nat | reg.vaStart <= x < reg.vaEnd
        ensures MapsTo(Translate(m', root, x), reg.Wanted().pa + (x - reg.vaStart), reg.Wanted().prot)
      {
        assert MapsTo(Translate(m, root, x), reg.Wanted().pa + (x - reg.vaStart), reg.Wanted().prot);
      }
    }
  }

  predicate SensibleRegions(regs: seq<VMRegion>) {
    forall k :: 0 <= k < |regs| && regs[k].valid ==> regs[k].Wanted().Sensible()
  }

  /** One more region has been mapped. */
  lemma RegionAdded(m0: View, m: View, m': View, root: nat, cover: map<nat, Node>, cover': map<nat, Node>,
                    regs: seq<VMRegion>, k: nat)
    requires MappedUpTo(m0, m, root, cover, regs, k) && k < |regs| && regs[k].valid
    requires PairwiseApart(regs) && SensibleRegions(regs)
    requires var r := regs[k].Wanted();
             && RangeMapped(m', root, r, r.hi) && SameOutside(m, m', root, r.lo, r.hi)
             && cover'.Values == cover.Values + r.Needs()
    ensures MappedUpTo(m0, m', root, cover', regs, k + 1)
  {
    var r := regs[k].Wanted();
    forall j | 0 <= j < k + 1 ensures RegionMapped(m', root, regs[j]) {
      if j < k {
        assert Apart(regs[j], regs[k]) && RegionMapped(m, root, regs[j]);
        OthersMapped(m, m', root, r, regs[j]);
      }
    }
    forall j | k + 1 <= j < |regs| ensures RegionOpen(m', root, cover', regs[j]) {
      assert Apart(regs[k], regs[j]) && RegionOpen(m, root, cover, regs[j]);
      OthersOpen(m, m', root, cover, cover', r, regs[j]);
    }
    forall x: nat | x < LIMIT && !InSome(regs, k + 1, x) ensures Translate(m', root, x) == Translate(m0, root, x) {
      assert !InRegion(regs[k], x);
      InFewer(regs, k, x);
    }
  }

  lemma InFewer(regs: seq<VMRegion>, k: nat, x: nat)
    requires k < |regs|
    ensures InSome(regs, k + 1, x) <==> InSome(regs, k, x) || InRegion(regs[k], x)
  {
  }

  /** A region that is not valid is passed over. */
  lemma RegionSkipped(m0: View, m: View, root: nat, cover: map<nat, Node>, regs: seq<VMRegion>, k: nat)
    requires MappedUpTo(m0, m, root, cover, regs, k) && k < |regs| && !regs[k].valid
    ensures MappedUpTo(m0, m, root, cover, regs, k + 1)
  {
    forall x: nat | x < LIMIT && !InSome(regs, k + 1, x) ensures Translate(m, root, x) == Translate(m0, root, x) {
      InFewer(regs, k, x);
    }
  }

  /** The tables of the first k regions are there, and their pages have been taken. */
  ghost predicate RegionsPaid(tables: set<Node>, bot: nat, top: nat, have0: set<Node>, bot0: nat, regs: seq<VMRegion>, k: nat) {
    && k <= |regs|
    && tables == have0 + NeedsOf(regs[..k])
    && bot == bot0 + |NeedsOf(regs[..k]) - have0| * PAGE_SIZE
    && Enough(bot0, top, |NeedsOf(regs[..k]) - have0|)
  }

  /** Whether the pages suffice for one more region decides whether they suffice for all so far. */
  lemma RegionsPaidNext(tables: set<Node>, bot: nat, top: nat, have0: set<Node>, bot0: nat, regs: seq<VMRegion>, k: nat)
    requires RegionsPaid(tables, bot, top, have0, bot0, regs, k) && k < |regs|
    ensures !regs[k].valid ==> RegionsPaid(tables, bot, top, have0, bot0, regs, k + 1)
    ensures regs[k].valid ==>
      var needs := regs[k].Wanted().Needs();
      if Enough(bot, top, |needs - tables|)
      then RegionsPaid(tables + needs, bot + |needs - tables| * PAGE_SIZE, top, have0, bot0, regs, k + 1)
      else !Enough(bot0, top, |NeedsOf(regs) - have0|)
  {
    NeedsNext(regs, k);
    var before := NeedsOf(regs[..k]);
    if regs[k].valid {
      var needs := regs[k].Wanted().Needs();
      MissingSplit(before, needs, have0);
      assert tables + needs == have0 + (before + needs);
      NeedsMore(regs, k + 1);
      MoreMissing(before + needs, NeedsOf(regs), have0);
    } else {
      assert before + {} == before;
    }
  }

  lemma NothingMapped(m: View, root: nat, cover: map<nat, Node>, bot: nat, top: nat, regs: seq<VMRegion>)
    requires forall k :: 0 <= k < |regs| ==> RegionOpen(m, root, cover, regs[k])
    ensures MappedUpTo(m, m, root, cover, regs, 0)
    ensures RegionsPaid(cover.Values, bot, top, cover.Values, bot, regs, 0)
  {
    assert cover.Values + {} == cover.Values && {} - cover.Values == {};
  }

  lemma AllMapped(m0: View, m: View, root: nat, cover: map<nat, Node>, bot: nat, top: nat,
                  have: set<Node>, bot0: nat, regs: seq<VMRegion>)
    requires MappedUpTo(m0, m, root, cover, regs, |regs|)
    requires RegionsPaid(cover.Values, bot, top, have, bot0, regs, |regs|)
    ensures forall k :: 0 <= k < |regs| ==> RegionMapped(m, root, regs[k])
    ensures forall x: nat :: x < LIMIT && !InSome(regs, |regs|, x) ==> Translate(m, root, x) == Translate(m0, root, x)
    ensures Enough(bot0, top, |NeedsOf(regs) - have|)
    ensures cover.Values == have + NeedsOf(regs) && bot == bot0 + |NeedsOf(regs) - have| * PAGE_SIZE
  {
    assert regs[..|regs|] == regs;
  }

  lemma {:induction false} NeedsFrom(regs: seq<VMRegion>, n: Node) returns (k: nat)
    requires n in NeedsOf(regs)
    ensures k < |regs| && regs[k].valid && n in regs[k].Wanted().Needs()
  {
    k := |regs| - 1;
    if n in NeedsOf(regs[..k]) {
      k := NeedsFrom(regs[..k], n);
    }
  }

  /** A table inside one region is needed by no other. */
  lemma NeedsInside(regs: seq<VMRegion>, k: nat, n: Node)
    requires PairwiseApart(regs) && k < |regs| && regs[k].valid && n in NeedsOf(regs)
    requires 1 <= n.level <= 3 && regs[k].vaStart <= n.base && n.base + Region(n.level) <= regs[k].vaEnd
    ensures n in regs[k].Wanted().Needs()
  {
    var j := NeedsFrom(regs, n);
    if j != k {
      assert if j < k then Apart(regs[j], regs[k]) else Apart(regs[k], regs[j]);
      var r := regs[j].Wanted();
      var x := NeedMeets(r.lo, r.pa, r.hi, n);
      InRegionOfNode(x, n.level);
    }
  }

  lemma RegionOnlyNeeded(cover0: map<nat, Node>, cover: map<nat, Node>, regs: seq<VMRegion>, k: nat)
    requires PairwiseApart(regs) && k < |regs| && regs[k].valid && cover.Values == cover0.Values + NeedsOf(regs)
    requires NoTableInside(cover0, regs[k].vaStart, regs[k].vaEnd)
    ensures OnlyNeeded(cover, regs[k].Wanted())
  {
    var r := regs[k].Wanted();
    NeedsNext(regs, k);
    NeedsMore(regs, k + 1);
    forall n | n in cover.Values && 1 <= n.level <= 3 && r.lo <= n.base && n.base + Region(n.level) <= r.hi
      ensures n in r.Needs()
    {
      NotBefore(cover0, r.lo, r.hi, n);
      NeedsInside(regs, k, n);
    }
  }

  lemma AllTranslated(m: View, root: nat, cover0: map<nat, Node>, cover: map<nat, Node>, regs: seq<VMRegion>)
    requires Tree(m, root, cover) && PairwiseApart(regs) && SensibleRegions(regs)
    requires forall k :: 0 <= k < |regs| ==> AlignedRegion(regs[k]) && RegionMapped(m, root, regs[k])
    requires cover.Values == cover0.Values + NeedsOf(regs)
    requires forall k :: 0 <= k < |regs| && regs[k].valid ==> NoTableInside(cover0, regs[k].vaStart, regs[k].vaEnd)
    ensures forall k :: 0 <= k < |regs| && regs[k].valid ==>
      RegionTranslated(m, root, regs[k]) && LargestBlocks(m, root, regs[k].Wanted())
  {
    forall k | 0 <= k < |regs| && regs[k].valid
      ensures RegionTranslated(m, root, regs[k]) && LargestBlocks(m, root, regs[k].Wanted())
    {
      assert AlignedRegion(regs[k]) && RegionMapped(m, root, regs[k]);
      RegionTranslates(m, root, regs[k]);
      RegionOnlyNeeded(cover0, cover, regs, k);
      LargestAreUsed(m, root, cover, regs[k].Wanted());
    }
  }

  lemma MoreMissing(a: set<Node>, b: set<Node>, have: set<Node>)
    requires a <= b
    ensures |a - have| <= |b - have|
  {
    assert b - have == (a - have) + (b - have - a);
  }

  lemma EmptyRoot(m: Memory, root: nat)
    requires m == map[root := ZERO_PAGE]
    ensures Tree(ViewOf(m), root, map[root := Node(0, 0)]) && RangeFree(ViewOf(m), root, 0, LIMIT)
  {
    var cover := map[root := Node(0, 0)];
    ReadZero(0);
    assert PageOk(ViewOf(m), cover, root);
    forall va: nat | va < LIMIT ensures Translate(ViewOf(m), root, va) == Unmapped {
      EndsHere(ViewOf(m), root, va, 0);
    }
  }

  class Vmm {
    var mem: Memory
    /** The table pages not handed out yet start here and end at top. */
    var bot: nat
    const top: nat
    const root: nat
    ghost var cover: map<nat, Node>

    ghost predicate Valid()
      reads this
    {
      && Tree(ViewOf(mem), root, cover)
      && cover.Keys <= mem.Keys
      && (forall p :: p in mem ==> p + PAGE_SIZE <= bot)
      && bot % PAGE_SIZE == 0 && top <= LIMIT
    }

    /** A new root table: nothing is translated, and there are no tables in the way of a mapping. */
    constructor (start: nat, top: nat)
      requires start % PAGE_SIZE == 0 && start < top <= LIMIT
      ensures Valid() && root == start && this.top == top
      ensures bot == start + PAGE_SIZE && cover == map[start := Node(0, 0)]
      ensures RangeFree(ViewOf(mem), root, 0, LIMIT)
      ensures forall lo, hi :: NoTableInside(cover, lo, hi)
    {
      mem := map[start := ZERO_PAGE];
      bot, root, this.top := start + PAGE_SIZE, start, top;
      cover := map[start := Node(0, 0)];
      new;
      EmptyRoot(mem, root);
    }

    /** vmm_update_pte: the entry is made invalid before it gets its new value. */
    method UpdatePte(page: nat, i: nat, v: nat)
      requires page in mem && i < 512
      modifies this`mem
      ensures mem == Written(old(mem), page, i, v)
    {
      if mem[page][i] > 0 {
        mem := mem[page := mem[page][i := 0]];
      }
      mem := mem[page := mem[page][i := v]];
      assert mem[page] == old(mem)[page][i := v];
    }

    /** zalloc_ptable: fails when the pages are used up. */
    method Zalloc() returns (ok: bool, page: nat)
      requires (forall p :: p in mem ==> p + PAGE_SIZE <= bot) && bot % PAGE_SIZE == 0 && top <= LIMIT
      modifies this`mem, this`bot
      ensures ok == (old(bot) < top)
      ensures ok ==> page !in old(mem) && page % PAGE_SIZE == 0 && page < LIMIT && mem == old(mem)[page := ZERO_PAGE]
      ensures ok ==> (forall p :: p in mem ==> p + PAGE_SIZE <= bot) && bot % PAGE_SIZE == 0
      ensures bot == old(bot) + PAGE_SIZE
    {
      page := bot;
      bot := bot + PAGE_SIZE;
      if page >= top {
        return false, page;
      }
      mem := mem[page := ZERO_PAGE];
      return true, page;
    }

    /** The part of vmm_ensure_level that makes a new table: both for an invalid entry and for a
      * block, the code fills the new page with the entry that it has found, before it hangs the
      * page into the tree. */
    method Hang(current: nat, i: nat, level: nat, desc: Desc) returns (ok: bool, pg: nat)
      requires current in mem && i < 512
      requires (forall p :: p in mem ==> p + PAGE_SIZE <= bot) && bot % PAGE_SIZE == 0 && top <= LIMIT
      modifies this`mem, this`bot
      ensures ok == (old(bot) < top)
      ensures ok ==> pg !in old(mem) && pg % PAGE_SIZE == 0 && pg < LIMIT
      ensures ok ==> mem == Hung(old(mem), current, i, pg, WriteDesc(desc, level), level)
      ensures ok ==> (forall p :: p in mem ==> p + PAGE_SIZE <= bot) && bot % PAGE_SIZE == 0
      ensures bot == old(bot) + PAGE_SIZE
    {
      ok, pg := Zalloc();
      if !ok {
        return;
      }
      ghost var zeroed, next, v := mem, bot, WriteDesc(desc, level);
      for j := 0 to 512
        invariant bot == next && mem.Keys == zeroed.Keys && pg in mem
        invariant mem == zeroed[pg := mem[pg]]
        invariant forall k :: 0 <= k < j ==> mem[pg][k] == v
      {
        UpdatePte(pg, j, WriteDesc(desc, level));
      }
      assert mem[pg] == FullPage(v);
      UpdatePte(current, i, WriteDesc(Table(pg, NO_ATTRS), level));
    }

    /** vmm_ensure_level: afterwards the walk for va goes through tables down to the level, and no
      * address is translated differently; exactly the missing tables on the way to va have been
      * added, in new pages.  It fails exactly when there are not enough pages for them. */
    method EnsureLevel(desired: nat, va: nat) returns (ok: bool)
      requires Valid() && desired <= 3 && va < LIMIT && NoBlockAbove(ViewOf(mem), root, va, desired)
      modifies this
      ensures ok <==> Enough(old(bot), top, |Path(va, desired) - old(cover).Values|)
      ensures ok ==> bot == old(bot) + |Path(va, desired) - old(cover).Values| * PAGE_SIZE
      ensures ok ==> cover.Values == old(cover).Values + Path(va, desired)
      ensures ok ==> Valid()
      ensures ok ==> PageAt(ViewOf(mem), root, va, desired).To?
      ensures ok ==> SameTranslations(ViewOf(old(mem)), ViewOf(mem), root)
      ensures ok ==> GrownTowards(old(cover), cover, va, desired) && FramedBy(old(mem), mem, old(cover), cover)
      ensures ok ==> NoBlockAbove(ViewOf(mem), root, va, desired)
    {
      var current := root;
      ghost var have := cover.Values;
      PaidStart(have, bot, top, va);
      for level := 0 to desired
        invariant Valid()
        invariant PageAt(ViewOf(mem), root, va, level) == To(current)
        invariant NoBlockAbove(ViewOf(mem), root, va, desired)
        invariant SameTranslations(ViewOf(old(mem)), ViewOf(mem), root)
        invariant GrownTowards(old(cover), cover, va, desired)
        invariant FramedBy(old(mem), mem, old(cover), cover) && old(mem).Keys <= mem.Keys
        invariant Paid(cover.Values, bot, top, have, old(bot), va, level)
      {
        PaidMore(cover.Values, bot, top, have, old(bot), va, level, desired);
        ok, current := Down(current, level, va, desired, old(mem), old(cover));
        if !ok {
          return;
        }
      }
      ok := true;
    }

    /** One round of vmm_ensure_level. */
    method Down(current: nat, level: nat, va: nat, desired: nat, ghost mem0: Memory, ghost cover0: map<nat, Node>)
      returns (ok: bool, next: nat)
      requires Valid() && level < desired <= 3 && va < LIMIT
      requires PageAt(ViewOf(mem), root, va, level) == To(current)
      requires NoBlockAbove(ViewOf(mem), root, va, desired)
      requires SameTranslations(ViewOf(mem0), ViewOf(mem), root)
      requires GrownTowards(cover0, cover, va, desired)
      requires FramedBy(mem0, mem, cover0, cover) && mem0.Keys <= mem.Keys
      modifies this
      ensures ok <==> Node(level + 1, Base(va, level + 1)) in old(cover).Values || old(bot) < top
      ensures ok ==> cover.Values == old(cover).Values + {Node(level + 1, Base(va, level + 1))}
      ensures ok ==>
        bot == old(bot) + if Node(level + 1, Base(va, level + 1)) in old(cover).Values then 0 else PAGE_SIZE
      ensures ok ==> Valid()
      ensures ok ==> PageAt(ViewOf(mem), root, va, level + 1) == To(next)
      ensures ok ==> NoBlockAbove(ViewOf(mem), root, va, desired)
      ensures ok ==> SameTranslations(ViewOf(mem0), ViewOf(mem), root)
      ensures ok ==> GrownTowards(cover0, cover, va, desired)
      ensures ok ==> FramedBy(mem0, mem, cover0, cover) && mem0.Keys <= mem.Keys
    {
      ghost var m, c := mem, cover;
      PathCovered(ViewOf(m), root, cover, va, level);
      OffsIsIndex(va, level);
      var i := Offs(va, level);
      var desc := ReadDesc(mem[current][i], level);
      assert desc == ViewOf(m)(current, i, level);
      if desc.Table? {
        StepCovered(ViewOf(m), c, current, va, level);
        assert c[desc.addr] in c.Values;
        return true, desc.addr;
      }
      EndsHere(ViewOf(m), root, va, level);
      assert desc.Invalid?;
      ok, next := HangEmpty(current, level, va, desired);
      if ok {
        GrownTrans(cover0, c, cover, va, desired);
        SameTrans(ViewOf(mem0), ViewOf(m), ViewOf(mem), root);
        FramedTrans(mem0, m, mem, cover0, c, cover);
      }
    }

    /** An invalid entry on the way to va gets a new table. */
    method HangEmpty(current: nat, level: nat, va: nat, desired: nat) returns (ok: bool, next: nat)
      requires Valid() && level < desired <= 3 && va < LIMIT
      requires PageAt(ViewOf(mem), root, va, level) == To(current)
      requires ViewOf(mem)(current, Index(va, level), level).Invalid?
      modifies this
      ensures Node(level + 1, Base(va, level + 1)) !in old(cover).Values
      ensures ok == (old(bot) < top) && bot == old(bot) + PAGE_SIZE
      ensures ok ==> cover.Values == old(cover).Values + {Node(level + 1, Base(va, level + 1))}
      ensures ok ==> Valid() && PageAt(ViewOf(mem), root, va, level + 1) == To(next)
      ensures ok ==> NoBlockAbove(ViewOf(mem), root, va, desired)
      ensures ok ==> SameTranslations(ViewOf(old(mem)), ViewOf(mem), root)
      ensures ok ==> GrownTowards(old(cover), cover, va, desired)
      ensures ok ==> FramedBy(old(mem), mem, old(cover), cover) && old(mem).Keys <= mem.Keys
    {
      ghost var m, c := mem, cover;
      PathCovered(ViewOf(m), root, c, va, level);
      NotYet(ViewOf(m), root, c, va, level);
      ok, next := Hang(current, Index(va, level), level, Invalid);
      if ok {
        HungTable(m, mem, root, c, current, Index(va, level), next, Invalid);
        ReadZero(level + 1);
        HangKeeps(ViewOf(m), ViewOf(mem), root, c, current, level, next, va, desired);
        ValuesAdd(c, next, Node(level + 1, Base(va, level + 1)));
        cover := c[next := Node(level + 1, Base(va, level + 1))];
      }
    }

    /** The Block arm of vmm_ensure_level.  The new page repeats the block's own entry 512 times, so
      * afterwards an address is translated as before exactly when the block does not cover it or it
      * lies in one of the 512 parts: the first, or the seventeenth for a block of level 2 with nT set. */
    method SplitBlock(current: nat, level: nat, va: nat) returns (ok: bool, next: nat)
      requires Valid() && 1 <= level < 3 && va < LIMIT && PageAt(ViewOf(mem), root, va, level) == To(current)
      requires ViewOf(mem)(current, Index(va, level), level).Block?
      modifies this
      ensures ok == (old(bot) < top) && bot == old(bot) + PAGE_SIZE
      ensures ok ==> Valid() && PageAt(ViewOf(mem), root, va, level + 1) == To(next)
      ensures var kept := KeptPart(ViewOf(old(mem))(current, Index(va, level), level), level);
        ok ==> SameInPart(ViewOf(old(mem)), ViewOf(mem), root, va, level, kept)
    {
      ghost var m, c := mem, cover;
      PathCovered(ViewOf(m), root, c, va, level);
      OffsIsIndex(va, level);
      var i := Offs(va, level);
      var desc := ReadDesc(mem[current][i], level);
      ok, next := Hang(current, i, level, desc);
      if ok {
        SplitHung(m, root, c, current, level, next, va, desc);
        cover := c[next := Node(level + 1, Base(va, level + 1))];
      }
    }

    /** vmm_translation_walk: the level never passes 3, where every valid entry is a page. */
    method TranslationWalk(va: nat) returns (leaf: Leaf)
      requires Valid() && va < LIMIT
      ensures leaf == Walk(ViewOf(mem), root, va) && leaf.page in mem && !leaf.desc.Table?
    {
      var page, level := root, 0;
      while true
        invariant level <= 3 && PageAt(ViewOf(mem), root, va, level) == To(page)
        decreases 3 - level
      {
        PathCovered(ViewOf(mem), root, cover, va, level);
        OffsIsIndex(va, level);
        var i := Offs(va, level);
        var desc := ReadDesc(mem[page][i], level);
        assert desc == ViewOf(mem)(page, i, level);
        if !desc.Table? {
          EndsHere(ViewOf(mem), root, va, level);
          return Leaf(page, i, level, desc);
        }
        StepCovered(ViewOf(mem), cover, page, va, level);
        page, level := desc.addr, level + 1;
      }
    }

    /** set_block_or_page, mapping: exactly the span of the entry is translated to the block at pa,
      * and no other address is translated differently. */
    method SetBlockOrPage(va: nat, pa: nat, prot: nat, level: nat) returns (ok: bool)
      requires Valid() && 1 <= level <= 3 && Slice(prot, 16, 1) == 0
      requires va < LIMIT && va % Span(level) == 0 && pa < LIMIT && pa % Span(level) == 0
      requires NoBlockAbove(ViewOf(mem), root, va, level) && NoTableBelow(ViewOf(mem), root, va, level)
      modifies this
      ensures ok <==> Enough(old(bot), top, |Path(va, level) - old(cover).Values|)
      ensures ok ==> bot == old(bot) + |Path(va, level) - old(cover).Values| * PAGE_SIZE
      ensures ok ==> cover.Values == old(cover).Values + Path(va, level)
      ensures ok ==> Valid()
      ensures ok ==> MapsSpan(ViewOf(old(mem)), ViewOf(mem), root, va, pa, prot, level)
      ensures ok ==> GrownTowards(old(cover), cover, va, level)
    {
      ghost var m0, c0 := mem, cover;
      ok := EnsureLevel(level, va);
      if ok {
        StillNoTable(ViewOf(m0), ViewOf(mem), root, c0, cover, va, level);
        WriteEnsured(ViewOf(m0), va, pa, prot, level);
      }
    }

    /** The block is written where the level has been ensured, since the translations w. */
    method WriteEnsured(ghost w: View, va: nat, pa: nat, prot: nat, level: nat)
      requires Valid() && 1 <= level <= 3 && Slice(prot, 16, 1) == 0
      requires va < LIMIT && va % Span(level) == 0 && pa < LIMIT && pa % Span(level) == 0
      requires TableTree.Depth(ViewOf(mem), root, va) == level && SameTranslations(w, ViewOf(mem), root)
      modifies this`mem
      ensures Valid() && MapsSpan(w, ViewOf(mem), root, va, pa, prot, level)
    {
      ghost var m := mem;
      WriteBlock(va, pa, prot, level);
      SpanAfterSame(w, ViewOf(m), ViewOf(mem), root, va, pa, prot, level);
    }

    /** The part of set_block_or_page after vmm_ensure_level, mapping. */
    method WriteBlock(va: nat, pa: nat, prot: nat, level: nat)
      requires Valid() && 1 <= level <= 3 && Slice(prot, 16, 1) == 0
      requires va < LIMIT && va % Span(level) == 0 && pa < LIMIT && pa % Span(level) == 0
      requires TableTree.Depth(ViewOf(mem), root, va) == level
      modifies this`mem
      ensures Valid() && MapsSpan(ViewOf(old(mem)), ViewOf(mem), root, va, pa, prot, level)
    {
      ghost var m := mem;
      var leaf := TranslationWalk(va);
      UpdatePte(leaf.page, leaf.index, MakeDesc(pa, prot, leaf.level));
      MakeDescNotTable(pa, prot, level);
      LeafWritten(m, mem, root, cover, va, MakeDesc(pa, prot, level));
      forall x: nat | x < LIMIT
        ensures if va <= x < va + Span(level) then MapsTo(Translate(ViewOf(mem), root, x), pa + (x - va), prot)
                else Translate(ViewOf(mem), root, x) == Translate(ViewOf(m), root, x)
      {
        InSpan(va, x, level);
        InSpan(va, va, level);
        if va <= x < va + Span(level) {
          BlockMaps(pa, prot, level, va, x, leaf.(desc := ReadDesc(MakeDesc(pa, prot, level), level)));
        }
      }
    }

    /** set_block_or_page, unmapping: exactly the span of the entry that translates va, at the level
      * or below, is no longer translated. */
    method ClearBlockOrPage(va: nat, level: nat) returns (ok: bool)
      requires Valid() && 1 <= level <= 3 && va < LIMIT && NoBlockAbove(ViewOf(mem), root, va, level)
      modifies this
      ensures ok <==> Enough(old(bot), top, |Path(va, level) - old(cover).Values|)
      ensures ok ==> bot == old(bot) + |Path(va, level) - old(cover).Values| * PAGE_SIZE
      ensures ok ==> cover.Values == old(cover).Values + Path(va, level)
      ensures ok ==> Valid()
      ensures ok ==> level <= Walk(ViewOf(mem), root, va).level
      ensures ok ==> ClearsSpan(ViewOf(old(mem)), ViewOf(mem), root, va, Walk(ViewOf(mem), root, va).level)
    {
      ghost var m0 := mem;
      ok := EnsureLevel(level, va);
      if ok {
        ghost var m1 := mem;
        ClearLeaf(va, level);
        ClearAfterSame(ViewOf(m0), ViewOf(m1), ViewOf(mem), root, va, Walk(ViewOf(mem), root, va).level);
      }
    }

    /** The part of set_block_or_page after vmm_ensure_level, unmapping. */
    method ClearLeaf(va: nat, level: nat)
      requires Valid() && level <= 3 && va < LIMIT && PageAt(ViewOf(mem), root, va, level).To?
      modifies this`mem
      ensures Valid() && level <= Walk(ViewOf(mem), root, va).level
      ensures ClearsSpan(ViewOf(old(mem)), ViewOf(mem), root, va, Walk(ViewOf(mem), root, va).level)
    {
      ghost var m := mem;
      var leaf := TranslationWalk(va);
      UpdatePte(leaf.page, leaf.index, 0);
      ReadZero(leaf.level);
      LeafWritten(m, mem, root, cover, va, 0);
      Cleared(m, mem, root, cover, va, level);
    }

    /** The range is mapped up to va, the rest of it is still free, and nothing else has changed. */
    ghost predicate Progress(m0: Memory, r: Request, va: nat)
      reads this
    {
      && Valid() && r.lo <= va <= r.hi <= LIMIT
      && RangeMapped(ViewOf(mem), root, r, va)
      && RangeFree(ViewOf(mem), root, va, r.hi)
      && SameOutside(ViewOf(m0), ViewOf(mem), root, r.lo, r.hi)
      && NoTableInside(cover, va, r.hi)
    }

    /** One round of a loop of __ptable_set_range. */
    method MapOne(r: Request, va: nat, pa: nat, level: nat, ghost m0: Memory) returns (ok: bool)
      requires Progress(m0, r, va) && r.Sensible() && pa == r.pa + (va - r.lo)
      requires 1 <= level <= 3 && BothAligned(va, pa, level) && va + Span(level) <= r.hi
      modifies this
      ensures ok <==> Enough(old(bot), top, |Path(va, level) - old(cover).Values|)
      ensures ok ==> bot == old(bot) + |Path(va, level) - old(cover).Values| * PAGE_SIZE
      ensures ok ==> cover.Values == old(cover).Values + Path(va, level)
      ensures ok ==> Progress(m0, r, va + Span(level))
    {
      AlignedMod(va, level);
      AlignedMod(pa, level);
      ghost var m1, c1 := mem, cover;
      assert Translate(ViewOf(m1), root, va) == Unmapped;
      AlignedNoTable(ViewOf(m1), root, cover, va, r.hi, level);
      ok := SetBlockOrPage(va, pa, r.prot, level);
      if ok {
        InsideGrown(c1, cover, va, level, va + Span(level), r.hi);
        RangeStep(ViewOf(m0), ViewOf(m1), ViewOf(mem), root, r, va, level);
      }
    }

    /** One round, with what it takes of the pages. */
    method MapFunded(r: Request, va: nat, pa: nat, level: nat, ghost m0: Memory, ghost acc: Account) returns (ok: bool)
      requires Progress(m0, r, va) && r.Sensible() && pa == r.pa + (va - r.lo)
      requires Sound(acc, r, top) && acc.funded(cover.Values, bot, va)
      requires level == LevelFor(va, pa, r.hi) && BothAligned(va, pa, level) && va + Span(level) <= r.hi
      modifies this
      ensures ok ==> Progress(m0, r, va + Span(level)) && acc.funded(cover.Values, bot, va + Span(level))
      ensures !ok ==> acc.broke
    {
      ghost var have, bot0 := cover.Values, bot;
      ok := MapOne(r, va, pa, level, m0);
      UseAccount(acc, r, top, have, bot0, va, level, ok, cover.Values, bot);
    }

    /** One round and the step to the next one. */
    method MapNext(r: Request, va0: nat, pa0: nat, level: nat, ghost m0: Memory, ghost acc: Account) returns (ok: bool, va: nat, pa: nat)
      requires Sound(acc, r, top) && Progress(m0, r, va0) && acc.funded(cover.Values, bot, va0) && r.Sensible() && pa0 == r.pa + (va0 - r.lo)
      requires level == LevelFor(va0, pa0, r.hi) && BothAligned(va0, pa0, level) && va0 + Span(level) <= r.hi
      modifies this
      ensures !ok ==> acc.broke
      ensures va == va0 + Span(level) && pa == pa0 + Span(level) == r.pa + (va - r.lo)
      ensures BothAligned(va, pa, level)
      ensures ok ==> Progress(m0, r, va) && acc.funded(cover.Values, bot, va)
    {
      ok := MapFunded(r, va0, pa0, level, m0, acc);
      AlignedStep(va0, level);
      AlignedStep(pa0, level);
      va, pa := va0 + Span(level), pa0 + Span(level);
    }

    /** __ptable_set_range with unmap == 0.  On a free range with no table inside it, it maps the
      * whole range with blocks and pages whose two addresses are aligned for their level, changes
      * the translation of no other address, and never finds the two addresses misaligned.  It is
      * done exactly when the ends are aligned and there are pages for the tables that are missing,
      * and then exactly these have been added. */
    method SetRange(r: Request) returns (status: Status)
      requires Valid() && r.Sensible()
      requires RangeFree(ViewOf(mem), root, r.lo, r.hi) && NoTableInside(cover, r.lo, r.hi)
      modifies this
      ensures status == Unaligned <==> !Aligned(r.lo, 3) || !Aligned(r.hi, 3)
      ensures status != Misaligned && status != Overlap
      ensures status == OutOfPages ==> !Enough(old(bot), top, |r.Needs() - old(cover).Values|)
      ensures status == Done ==> Enough(old(bot), top, |r.Needs() - old(cover).Values|)
      ensures status == Done ==> bot == old(bot) + |r.Needs() - old(cover).Values| * PAGE_SIZE
      ensures status == Done ==> cover.Values == old(cover).Values + r.Needs()
      ensures status == Done ==> Valid() && RangeMapped(ViewOf(mem), root, r, r.hi)
      ensures status == Done ==> SameOutside(ViewOf(old(mem)), ViewOf(mem), root, r.lo, r.hi)
      ensures status == Done ==> LargestBlocks(ViewOf(mem), root, r)
    {
      if !Aligned(r.lo, 3) {
        return Unaligned;
      }
      if !Aligned(r.hi, 3) {
        return Unaligned;
      }
      ghost var m0, have, bot0 := mem, cover.Values, bot;
      ghost var b := BudgetOf(have, bot0, top, r.Needs());
      BudgetGoesOn(have, bot0, top, r.Needs());
      AccountSound(b, r, top);
      RestEnds(r);
      ghost var c := cover;
      status := SetAligned(r, m0, AccountOf(b, r));
      if status == Done {
        BudgetUsed(cover.Values, bot, top, have, bot0, r.Needs());
        LargestAfter(ViewOf(mem), root, c, cover, r);
      }
    }

    /** The loops of __ptable_set_range. */
    method SetAligned(r: Request, ghost m0: Memory, ghost acc: Account) returns (status: Status)
      requires Sound(acc, r, top) && Progress(m0, r, r.lo) && acc.funded(cover.Values, bot, r.lo) && r.Sensible() && Aligned(r.lo, 3) && Aligned(r.hi, 3)
      modifies this
      ensures status == Done || (status == OutOfPages && acc.broke)
      ensures status == Done ==> Progress(m0, r, r.hi) && acc.funded(cover.Values, bot, r.hi)
    {
      var va, pa;
      status, va, pa := Ascend(r, m0, acc);
      if status == Done {
        status := Descend(r, va, pa, m0, acc);
      }
    }

    /** The first three loops of __ptable_set_range: pages up to a 2M boundary, then 2M blocks up to
      * a 1G boundary, then 1G blocks. */
    method Ascend(r: Request, ghost m0: Memory, ghost acc: Account) returns (status: Status, va: nat, pa: nat)
      requires Sound(acc, r, top) && Progress(m0, r, r.lo) && acc.funded(cover.Values, bot, r.lo) && r.Sensible() && Aligned(r.lo, 3) && Aligned(r.hi, 3)
      modifies this
      ensures status == Done || (status == OutOfPages && acc.broke)
      ensures status == Done ==> Progress(m0, r, va) && acc.funded(cover.Values, bot, va) && pa == r.pa + (va - r.lo)
      ensures status == Done ==> BothAligned(va, pa, 2) || va == r.hi
      ensures status == Done ==> r.hi < va + Span(1)
    {
      status, va, pa := PagesUp(r, m0, acc);
      if status != Done {
        return;
      }
      if Aligned(va, 2) && !Aligned(pa, 2) && va + Span(3) <= r.hi {
        return Misaligned, va, pa;
      }
      status, va, pa := BlocksUp(r, va, pa, m0, acc);
      if status == Done {
        status, va, pa := Gigabytes(r, va, pa, m0, acc);
      }
    }

    /** The third loop of __ptable_set_range. */
    method Gigabytes(r: Request, va0: nat, pa0: nat, ghost m0: Memory, ghost acc: Account) returns (status: Status, va: nat, pa: nat)
      requires Sound(acc, r, top) && Progress(m0, r, va0) && acc.funded(cover.Values, bot, va0) && r.Sensible() && pa0 == r.pa + (va0 - r.lo)
      requires BothAligned(va0, pa0, 2) || va0 == r.hi
      requires BothAligned(va0, pa0, 1) || r.hi < va0 + Span(2)
      modifies this
      ensures status == Done || (status == OutOfPages && acc.broke)
      ensures status == Done ==> Progress(m0, r, va) && acc.funded(cover.Values, bot, va) && pa == r.pa + (va - r.lo)
      ensures status == Done ==> BothAligned(va, pa, 2) || va == r.hi
      ensures status == Done ==> r.hi < va + Span(1)
    {
      AlignedDown(r.hi, 1);
      va, pa := va0, pa0;
      while va < r.hi - Low(r.hi, OffsBot(1)) && va + Span(1) <= r.hi
        invariant Progress(m0, r, va) && acc.funded(cover.Values, bot, va) && pa == r.pa + (va - r.lo)
        invariant BothAligned(va, pa, 2) || va == r.hi
        invariant BothAligned(va, pa, 1) || r.hi < va + Span(2)
      {
        var ok;
        ok, va, pa := MapNext(r, va, pa, 1, m0, acc);
        if !ok {
          return OutOfPages, va, pa;
        }
        AlignedFiner(va, 1);
        AlignedFiner(pa, 1);
      }
      return Done, va, pa;
    }

    /** The second loop of __ptable_set_range. */
    method BlocksUp(r: Request, va0: nat, pa0: nat, ghost m0: Memory, ghost acc: Account) returns (status: Status, va: nat, pa: nat)
      requires Sound(acc, r, top) && Progress(m0, r, va0) && acc.funded(cover.Values, bot, va0) && r.Sensible() && pa0 == r.pa + (va0 - r.lo)
      requires BothAligned(va0, pa0, 2) || va0 == r.hi
      modifies this
      ensures status == Done || (status == OutOfPages && acc.broke)
      ensures status == Done ==> Progress(m0, r, va) && acc.funded(cover.Values, bot, va) && pa == r.pa + (va - r.lo)
      ensures status == Done ==> BothAligned(va, pa, 2) || va == r.hi
      ensures status == Done ==> BothAligned(va, pa, 1) || r.hi < va + Span(2)
    {
      va, pa := va0, pa0;
      while !BothAligned(va, pa, 1) && va + Span(2) <= r.hi
        invariant Progress(m0, r, va) && acc.funded(cover.Values, bot, va)
        invariant pa == r.pa + (va - r.lo)
        invariant BothAligned(va, pa, 2) || va == r.hi
      {
        var ok;
        ok, va, pa := MapNext(r, va, pa, 2, m0, acc);
        if !ok {
          return OutOfPages, va, pa;
        }
      }
      return Done, va, pa;
    }

    /** The first loop of __ptable_set_range. */
    method PagesUp(r: Request, ghost m0: Memory, ghost acc: Account) returns (status: Status, va: nat, pa: nat)
      requires Sound(acc, r, top) && Progress(m0, r, r.lo) && acc.funded(cover.Values, bot, r.lo) && r.Sensible() && Aligned(r.lo, 3) && Aligned(r.hi, 3)
      modifies this
      ensures status == Done || (status == OutOfPages && acc.broke)
      ensures status == Done ==> Progress(m0, r, va) && acc.funded(cover.Values, bot, va) && pa == r.pa + (va - r.lo)
      ensures status == Done ==> BothAligned(va, pa, 2) || va == r.hi
    {
      va, pa := r.lo, r.pa;
      while !BothAligned(va, pa, 2) && va + Span(3) <= r.hi
        invariant Progress(m0, r, va) && acc.funded(cover.Values, bot, va) && pa == r.pa + (va - r.lo)
        invariant BothAligned(va, pa, 3)
      {
        NotFiner(va, pa);
        var ok;
        ok, va, pa := MapNext(r, va, pa, 3, m0, acc);
        if !ok {
          return OutOfPages, va, pa;
        }
      }
      if va < r.hi {
        AlignedRoom(va, r.hi, 3);
      }
      return Done, va, pa;
    }

    /** The last two loops of __ptable_set_range: 2M blocks as far as possible, then pages. */
    method Descend(r: Request, va0: nat, pa0: nat, ghost m0: Memory, ghost acc: Account) returns (status: Status)
      requires Sound(acc, r, top) && Progress(m0, r, va0) && acc.funded(cover.Values, bot, va0) && r.Sensible() && pa0 == r.pa + (va0 - r.lo) && Aligned(r.hi, 3)
      requires BothAligned(va0, pa0, 2) || va0 == r.hi
      requires r.hi < va0 + Span(1)
      modifies this
      ensures status == Done || (status == OutOfPages && acc.broke)
      ensures status == Done ==> Progress(m0, r, r.hi) && acc.funded(cover.Values, bot, r.hi)
    {
      AlignedDown(r.hi, 2);
      var va, pa := va0, pa0;
      while va < r.hi - Low(r.hi, OffsBot(2)) && va + Span(2) <= r.hi
        invariant Progress(m0, r, va) && acc.funded(cover.Values, bot, va) && pa == r.pa + (va - r.lo)
        invariant BothAligned(va, pa, 2) || va == r.hi
        invariant r.hi < va + Span(1)
      {
        var ok;
        ok, va, pa := MapNext(r, va, pa, 2, m0, acc);
        if !ok {
          return OutOfPages;
        }
      }
      if va < r.hi {
        AlignedFiner(va, 2);
        AlignedFiner(pa, 2);
      }
      status := PagesRest(r, va, pa, m0, acc);
    }

    /** The last loop of __ptable_set_range. */
    method PagesRest(r: Request, va0: nat, pa0: nat, ghost m0: Memory, ghost acc: Account) returns (status: Status)
      requires Sound(acc, r, top) && Progress(m0, r, va0) && acc.funded(cover.Values, bot, va0) && r.Sensible() && pa0 == r.pa + (va0 - r.lo) && Aligned(r.hi, 3)
      requires BothAligned(va0, pa0, 3) || va0 == r.hi
      requires r.hi < va0 + Span(2)
      modifies this
      ensures status == Done || (status == OutOfPages && acc.broke)
      ensures status == Done ==> Progress(m0, r, r.hi) && acc.funded(cover.Values, bot, r.hi)
    {
      var va, pa := va0, pa0;
      while va < r.hi
        invariant Progress(m0, r, va) && acc.funded(cover.Values, bot, va) && pa == r.pa + (va - r.lo)
        invariant BothAligned(va, pa, 3) || va == r.hi
        invariant r.hi < va + Span(2)
      {
        AlignedRoom(va, r.hi, 3);
        var ok;
        ok, va, pa := MapNext(r, va, pa, 3, m0, acc);
        if !ok {
          return OutOfPages;
        }
      }
      return Done;
    }

    /** vmm_ptable_map: a region without a physical address of its own is mapped to itself. */
    method PtableMap(reg: VMRegion) returns (status: Status)
      requires Valid() && reg.Wanted().Sensible()
      requires RangeFree(ViewOf(mem), root, reg.vaStart, reg.vaEnd) && NoTableInside(cover, reg.vaStart, reg.vaEnd)
      modifies this
      ensures status == Unaligned <==> !Aligned(reg.vaStart, 3) || !Aligned(reg.vaEnd, 3)
      ensures status != Misaligned && status != Overlap
      ensures status == OutOfPages ==> !Enough(old(bot), top, |reg.Wanted().Needs() - old(cover).Values|)
      ensures status == Done ==> Enough(old(bot), top, |reg.Wanted().Needs() - old(cover).Values|)
      ensures status == Done ==> bot == old(bot) + |reg.Wanted().Needs() - old(cover).Values| * PAGE_SIZE
      ensures status == Done ==> cover.Values == old(cover).Values + reg.Wanted().Needs()
      ensures status == Done ==> Valid() && RangeMapped(ViewOf(mem), root, reg.Wanted(), reg.vaEnd)
      ensures status == Done ==> SameOutside(ViewOf(old(mem)), ViewOf(mem), root, reg.vaStart, reg.vaEnd)
      ensures status == Done ==> LargestBlocks(ViewOf(mem), root, reg.Wanted())
      ensures status == Done ==> RegionTranslated(ViewOf(mem), root, reg)
    {
      var paStart := if reg.paStart != 0 then reg.paStart else reg.vaStart;
      status := SetRange(Request(paStart, reg.vaStart, reg.vaEnd, Or(reg.memattr, reg.prot)));
      if status == Done {
        RegionTranslates(ViewOf(mem), root, reg);
      }
    }

    /** update_table_from_vmregion_map.  The regions before a region are not remembered, so the two
      * checks for overlaps never fail.  On regions that do not overlap, in which nothing is mapped
      * yet, it is done exactly when all ends are aligned and there are pages for the tables that are
      * missing; then every region is translated to its own physical addresses, and every address
      * outside of them is translated as before. */
    method UpdateTable(regs: seq<VMRegion>) returns (status: Status)
      requires Valid() && PairwiseApart(regs) && SensibleRegions(regs)
      requires forall k :: 0 <= k < |regs| ==> RegionOpen(ViewOf(mem), root, cover, regs[k])
      modifies this
      ensures status != Misaligned && status != Overlap
      ensures status == Done <==>
        && (forall k :: 0 <= k < |regs| ==> AlignedRegion(regs[k]))
        && Enough(old(bot), top, |NeedsOf(regs) - old(cover).Values|)
      ensures status == Done ==> Valid() && forall k :: 0 <= k < |regs| ==> RegionMapped(ViewOf(mem), root, regs[k])
      ensures status == Done ==> forall x: nat :: x < LIMIT && !InSome(regs, |regs|, x) ==>
        Translate(ViewOf(mem), root, x) == Translate(ViewOf(old(mem)), root, x)
      ensures status == Done ==> cover.Values == old(cover).Values + NeedsOf(regs)
      ensures status == Done ==> bot == old(bot) + |NeedsOf(regs) - old(cover).Values| * PAGE_SIZE
      ensures status == Done ==> forall k :: 0 <= k < |regs| && regs[k].valid ==>
        RegionTranslated(ViewOf(mem), root, regs[k]) && LargestBlocks(ViewOf(mem), root, regs[k].Wanted())
    {
      ghost var m0, c, have, bot0 := ViewOf(mem), cover, cover.Values, bot;
      NothingMapped(m0, root, cover, bot, top, regs);
      status := UpdateEach(regs, m0, have, bot0);
      if status == Done {
        AllMapped(m0, ViewOf(mem), root, cover, bot, top, have, bot0, regs);
        AllTranslated(ViewOf(mem), root, c, cover, regs);
      }
    }

    /** The loop over the regions. */
    method UpdateEach(regs: seq<VMRegion>, ghost m0: View, ghost have: set<Node>, ghost bot0: nat) returns (status: Status)
      requires Valid() && PairwiseApart(regs) && SensibleRegions(regs)
      requires MappedUpTo(m0, ViewOf(mem), root, cover, regs, 0)
      requires RegionsPaid(cover.Values, bot, top, have, bot0, regs, 0)
      modifies this
      ensures status != Misaligned && status != Overlap
      ensures status == Unaligned ==> exists k :: 0 <= k < |regs| && !AlignedRegion(regs[k])
      ensures status == OutOfPages ==> !Enough(bot0, top, |NeedsOf(regs) - have|)
      ensures status == Done ==> Valid() && forall k :: 0 <= k < |regs| ==> AlignedRegion(regs[k])
      ensures status == Done ==> MappedUpTo(m0, ViewOf(mem), root, cover, regs, |regs|)
      ensures status == Done ==> RegionsPaid(cover.Values, bot, top, have, bot0, regs, |regs|)
    {
      for i := 0 to |regs|
        invariant Valid() && MappedUpTo(m0, ViewOf(mem), root, cover, regs, i)
        invariant RegionsPaid(cover.Values, bot, top, have, bot0, regs, i)
        invariant forall k :: 0 <= k < i ==> AlignedRegion(regs[k])
      {
        status := UpdateOne(regs, i, m0, have, bot0);
        if status != Done {
          return;
        }
      }
      return Done;
    }

    /** One round of the loop. */
    method UpdateOne(regs: seq<VMRegion>, i: nat, ghost m0: View, ghost have: set<Node>, ghost bot0: nat)
      returns (status: Status)
      requires Valid() && i < |regs| && PairwiseApart(regs) && SensibleRegions(regs)
      requires MappedUpTo(m0, ViewOf(mem), root, cover, regs, i)
      requires RegionsPaid(cover.Values, bot, top, have, bot0, regs, i)
      modifies this
      ensures status != Misaligned && status != Overlap
      ensures status == Unaligned ==> !AlignedRegion(regs[i])
      ensures status == OutOfPages ==> !Enough(bot0, top, |NeedsOf(regs) - have|)
      ensures status == Done ==> Valid() && AlignedRegion(regs[i])
      ensures status == Done ==> MappedUpTo(m0, ViewOf(mem), root, cover, regs, i + 1)
      ensures status == Done ==> RegionsPaid(cover.Values, bot, top, have, bot0, regs, i + 1)
    {
      RegionsPaidNext(cover.Values, bot, top, have, bot0, regs, i);
      if !regs[i].valid {
        RegionSkipped(m0, ViewOf(mem), root, cover, regs, i);
        return Done;
      }
      var previous := VMRegion(false, 0, 0, 0, 0, 0);
      if regs[i].vaStart < previous.vaEnd || regs[i].vaStart < previous.vaStart {
        return Overlap;
      }
      assert RegionOpen(ViewOf(mem), root, cover, regs[i]);
      ghost var m, c := ViewOf(mem), cover;
      status := PtableMap(regs[i]);
      if status == Done {
        RegionAdded(m0, m, ViewOf(mem), root, c, cover, regs, i);
      }
    }
  }

  lemma {:induction false} NeedsDeep(regs: seq<VMRegion>, n: Node)
    requires n in NeedsOf(regs)
    ensures 1 <= n.level
  {
    var rest, last := regs[..|regs| - 1], regs[|regs| - 1];
    if n in NeedsOf(rest) {
      NeedsDeep(rest, n);
    } else {
      var x := NeedMeets(last.Wanted().lo, last.Wanted().pa, last.Wanted().hi, n);
    }
  }

  lemma FreshTable(cover: map<nat, Node>, root: nat, regs: seq<VMRegion>)
    requires cover == map[root := Node(0, 0)]
    ensures NeedsOf(regs) - cover.Values == NeedsOf(regs)
  {
    forall n | n in NeedsOf(regs) ensures n !in cover.Values {
      NeedsDeep(regs, n);
    }
  }

  /** A new table with these regions, with pages from start to top.  It is done exactly when all ends
    * are aligned and there are pages for the root and for every table needed; then each address of a
    * region is translated to its offset in that region, and no other address is translated.  The code
    * goes through several lists of regions, which is the same as going through all in one list, for it
    * remembers nothing from one region to the next. */
  method AllocTable(start: nat, top: nat, regs: seq<VMRegion>) returns (status: Status, vmm: Vmm)
    requires start % PAGE_SIZE == 0 && start < top <= LIMIT
    requires PairwiseApart(regs) && SensibleRegions(regs)
    ensures fresh(vmm) && status != Misaligned && status != Overlap
    ensures status == Done <==>
      (forall k :: 0 <= k < |regs| ==> AlignedRegion(regs[k])) && Enough(start + PAGE_SIZE, top, |NeedsOf(regs)|)
    ensures status == Done ==> forall k :: 0 <= k < |regs| ==> RegionMapped(ViewOf(vmm.mem), vmm.root, regs[k])
    ensures status == Done ==> forall x: nat :: x < LIMIT && !InSome(regs, |regs|, x) ==>
      Translate(ViewOf(vmm.mem), vmm.root, x) == Unmapped
    ensures status == Done ==> forall k :: 0 <= k < |regs| && regs[k].valid ==>
      RegionTranslated(ViewOf(vmm.mem), vmm.root, regs[k]) && LargestBlocks(ViewOf(vmm.mem), vmm.root, regs[k].Wanted())
  {
    vmm := new Vmm(start, top);
    ghost var m := ViewOf(vmm.mem);
    FreshTable(vmm.cover, vmm.root, regs);
    forall k | 0 <= k < |regs| ensures RegionOpen(m, vmm.root, vmm.cover, regs[k]) {
      assert regs[k].valid ==> regs[k].Wanted().Sensible();
    }
    status := vmm.UpdateTable(regs);
    forall x: nat | x < LIMIT ensures Translate(m, vmm.root, x) == Unmapped {}
  }
}
