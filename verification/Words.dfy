/** Memory as bytes, and 64-bit little-endian words in it. */
module Words {
  import opened Bits

  type Byte = x: nat | x < 256

  function Encode(v: nat, n: nat): (b: seq<Byte>)
    ensures |b| == n
  {
    if n == 0 then [] else [v % 256] + Encode(v / 256, n - 1)
  }

  function Decode(b: seq<Byte>): nat {
    if b == [] then 0 else b[0] + 256 * Decode(b[1..])
  }

  /** The word at address a. */
  function Word(m: seq<Byte>, a: nat): nat
    requires a + 8 <= |m|
  {
    Decode(m[a..a + 8])
  }

  /** Memory after v has been stored at address a. */
  function PutWord(m: seq<Byte>, a: nat, v: nat): (r: seq<Byte>)
    requires a + 8 <= |m|
    ensures |r| == |m|
  {
    m[..a] + Encode(v, 8) + m[a + 8..]
  }

  lemma {:induction false} DecodeEncode(v: nat, n: nat)
    requires v < Pow2(8 * n)
    ensures Decode(Encode(v, n)) == v
  {
    if n > 0 {
      Pow2Add(8, 8 * (n - 1));
      assert Pow2(8) == 256;
      DecodeEncode(v / 256, n - 1);
      assert Encode(v, n)[1..] == Encode(v / 256, n - 1);
    }
  }

  /** What is stored is read back. */
  lemma WordSame(m: seq<Byte>, a: nat, v: nat)
    requires a + 8 <= |m| && v < U64
    ensures Word(PutWord(m, a, v), a) == v
  {
    Pow2Is64();
    DecodeEncode(v, 8);
    assert PutWord(m, a, v)[a..a + 8] == Encode(v, 8);
  }

  /** A word that a store does not overlap keeps its value. */
  lemma WordOther(m: seq<Byte>, a: nat, v: nat, b: nat)
    requires a + 8 <= |m| && b + 8 <= |m| && (a + 8 <= b || b + 8 <= a)
    ensures Word(PutWord(m, a, v), b) == Word(m, b)
  {
    assert PutWord(m, a, v)[b..b + 8] == m[b..b + 8];
  }

  lemma {:induction false} DecodeBound(b: seq<Byte>)
    ensures Decode(b) < Pow2(8 * |b|)
  {
    if b != [] {
      DecodeBound(b[1..]);
      Pow2Add(8, 8 * (|b| - 1));
      assert Pow2(8) == 256;
    }
  }

  lemma WordBound(m: seq<Byte>, a: nat)
    requires a + 8 <= |m|
    ensures Word(m, a) < U64
  {
    DecodeBound(m[a..a + 8]);
    Pow2Is64();
  }
}

/** Doubly linked lists: nodes are numbered from 1, and 0 is NULL. */
module Links {

  function At(order: seq<nat>, k: int): nat {
    if 0 <= k < |order| then order[k] else 0
  }

  function Without(order: seq<nat>, k: nat): seq<nat>
    requires k < |order|
  {
    order[..k] + order[k + 1..]
  }

  ghost predicate Distinct(order: seq<nat>) {
    forall i, j :: 0 <= i < j < |order| ==> order[i] != order[j]
  }

  /** The k-th node of the list is linked to its neighbours. */
  ghost predicate LinkedAt(prev: map<nat, nat>, next: map<nat, nat>, order: seq<nat>, k: nat)
    requires k < |order|
  {
    && order[k] != 0
    && order[k] in prev && prev[order[k]] == At(order, k - 1)
    && order[k] in next && next[order[k]] == At(order, k + 1)
  }

  /** Following next from head visits the nodes in order, and prev leads back. */
  ghost predicate IsList(prev: map<nat, nat>, next: map<nat, nat>, head: nat, order: seq<nat>) {
    && head == At(order, 0)
    && Distinct(order)
    && forall k :: 0 <= k < |order| ==> LinkedAt(prev, next, order, k)
  }

  lemma DistinctWithout(order: seq<nat>, k: nat)
    requires Distinct(order) && k < |order|
    ensures Distinct(Without(order, k))
    ensures forall c :: c in Without(order, k) <==> c in order && c != order[k]
  {
    var rest := Without(order, k);
    forall i | 0 <= i < |rest| ensures rest[i] == order[if i < k then i else i + 1] {}
    forall c | c in order && c != order[k] ensures c in rest {
      var i :| 0 <= i < |order| && order[i] == c;
      assert rest[if i < k then i else i - 1] == c;
    }
  }

  lemma NodesNotNull(prev: map<nat, nat>, next: map<nat, nat>, head: nat, order: seq<nat>)
    requires IsList(prev, next, head, order)
    ensures 0 !in order
  {
    forall k | 0 <= k < |order| ensures order[k] != 0 {
      assert LinkedAt(prev, next, order, k);
    }
  }

  /** The links of the node at position j once the node at position k is out of the list. */
  lemma LinksWithout(order: seq<nat>, k: nat, j: nat)
    requires Distinct(order) && 0 !in order && k < |order| && j < |order| && j != k
    ensures var i, rest := if j < k then j else j - 1, Without(order, k);
            && rest[i] == order[j]
            && At(rest, i - 1) == (if order[j] == At(order, k + 1) then At(order, k - 1) else At(order, j - 1))
            && At(rest, i + 1) == (if order[j] == At(order, k - 1) then At(order, k + 1) else At(order, j + 1))
  {
    assert order[j] == At(order, k + 1) <==> j == k + 1;
    assert order[j] == At(order, k - 1) <==> j == k - 1;
  }

  /** Unlinking the k-th node. */
  lemma RemoveNode(prev: map<nat, nat>, next: map<nat, nat>, head: nat, order: seq<nat>, k: nat)
    requires IsList(prev, next, head, order) && k < |order|
    ensures order[k] in prev && order[k] in next
    ensures var p, n := prev[order[k]], next[order[k]];
            IsList(if n != 0 then prev[n := p] else prev, if p != 0 then next[p := n] else next,
                   if p == 0 then n else head, Without(order, k))
  {
    assert LinkedAt(prev, next, order, k);
    var p, n := At(order, k - 1), At(order, k + 1);
    var rest := Without(order, k);
    var prev', next' := if n != 0 then prev[n := p] else prev, if p != 0 then next[p := n] else next;
    NodesNotNull(prev, next, head, order);
    DistinctWithout(order, k);
    forall i | 0 <= i < |rest| ensures LinkedAt(prev', next', rest, i) {
      var j := if i < k then i else i + 1;
      LinksWithout(order, k, j);
      assert LinkedAt(prev, next, order, j);
    }
  }

  /** Linking a new node in at the front. */
  lemma PushNode(prev: map<nat, nat>, next: map<nat, nat>, head: nat, order: seq<nat>, c: nat)
    requires IsList(prev, next, head, order) && c != 0 && c !in order
    ensures IsList((if head != 0 then prev[head := c] else prev)[c := 0], next[c := head], c, [c] + order)
  {
    var prev', next', more := (if head != 0 then prev[head := c] else prev)[c := 0], next[c := head], [c] + order;
    NodesNotNull(prev, next, head, order);
    forall i | 0 <= i < |more| ensures LinkedAt(prev', next', more, i) {
      if i > 0 {
        assert more[i] == order[i - 1] && LinkedAt(prev, next, order, i - 1);
        assert order[i - 1] == head <==> i == 1;
      }
    }
  }

  /** A list is the same list in any two stores that agree on its nodes. */
  lemma SameList(prev: map<nat, nat>, next: map<nat, nat>, head: nat, order: seq<nat>,
                 prev': map<nat, nat>, next': map<nat, nat>)
    requires IsList(prev, next, head, order)
    requires forall c :: c in order ==> c in prev' && c in next'
    requires forall c :: c in order && c in prev && c in next ==> prev'[c] == prev[c] && next'[c] == next[c]
    ensures IsList(prev', next', head, order)
  {
    forall k | 0 <= k < |order| ensures LinkedAt(prev', next', order, k) {
      assert LinkedAt(prev, next, order, k) && order[k] in order;
    }
  }
}
