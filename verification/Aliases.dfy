/** fill_unbacked_addrs of tools/litmus-toml-translator/src/litmus.rs: giving every address of a
  * test a value, or none, and orienting the aliases so that each leads back to an address that has
  * memory of its own.
  */
module Aliases {

  type Addr = string

  /** Some(value) for memory that holds the value, None for an unmapped address. */
  datatype State = Holds(val: string) | NotMapped

  datatype Init = Unmapped(id: Addr) | Var(id: Addr, val: string) | Alias(from: Addr, to: Addr)

  type Graph = map<Addr, seq<Addr>>

  function Adj(g: Graph, x: Addr): seq<Addr> {
    if x in g then g[x] else []
  }

  /** Every alias leads both ways, to addresses of the graph. */
  ghost predicate Symmetric(g: Graph) {
    forall x, y :: y in Adj(g, x) ==> x in Adj(g, y)
  }

  // ----- Being connected by aliases

  ghost predicate Hop(g: Graph, p: seq<Addr>, k: nat)
    requires 0 < k < |p|
  {
    p[k] in Adj(g, p[k - 1])
  }

  ghost predicate Path(g: Graph, p: seq<Addr>) {
    |p| > 0 && forall k :: 0 < k < |p| ==> Hop(g, p, k)
  }

  ghost predicate Joins(g: Graph, a: Addr, b: Addr, p: seq<Addr>) {
    Path(g, p) && p[0] == a && p[|p| - 1] == b
  }

  ghost predicate Linked(g: Graph, a: Addr, b: Addr) {
    exists p :: Joins(g, a, b, p)
  }

  lemma LinkedSelf(g: Graph, a: Addr)
    ensures Linked(g, a, a)
  {
    assert Joins(g, a, a, [a]);
  }

  lemma LinkedStep(g: Graph, a: Addr, b: Addr, c: Addr)
    requires Linked(g, a, b) && c in Adj(g, b)
    ensures Linked(g, a, c)
  {
    var p :| Joins(g, a, b, p);
    forall k | 0 < k < |p + [c]| ensures Hop(g, p + [c], k) {
      assert k < |p| ==> Hop(g, p, k);
    }
    assert Joins(g, a, c, p + [c]);
  }

  lemma PathInit(g: Graph, p: seq<Addr>)
    requires Path(g, p) && |p| > 1
    ensures Path(g, p[..|p| - 1]) && p[|p| - 1] in Adj(g, p[|p| - 2])
  {
    var q := p[..|p| - 1];
    assert Hop(g, p, |p| - 1);
    forall k | 0 < k < |q| ensures Hop(g, q, k) {
      assert Hop(g, p, k);
    }
  }

  lemma {:induction false} LinkedJoin(g: Graph, a: Addr, b: Addr, p: seq<Addr>, c: Addr)
    requires Linked(g, a, b) && Joins(g, b, c, p)
    ensures Linked(g, a, c)
    decreases |p|
  {
    if |p| > 1 {
      var q := p[..|p| - 1];
      PathInit(g, p);
      assert Joins(g, b, q[|q| - 1], q);
      LinkedJoin(g, a, b, q, q[|q| - 1]);
      LinkedStep(g, a, q[|q| - 1], c);
    }
  }

  lemma {:induction false} JoinsBack(g: Graph, a: Addr, b: Addr, p: seq<Addr>)
    requires Symmetric(g) && Joins(g, a, b, p)
    ensures Linked(g, b, a)
    decreases |p|
  {
    if |p| == 1 {
      LinkedSelf(g, a);
    } else {
      var q := p[..|p| - 1];
      var m := q[|q| - 1];
      PathInit(g, p);
      assert Joins(g, a, m, q);
      JoinsBack(g, a, m, q);
      LinkedSelf(g, b);
      assert b in Adj(g, m);
      LinkedStep(g, b, b, m);
      var r :| Joins(g, m, a, r);
      LinkedJoin(g, b, m, r, a);
    }
  }

  // ----- The state of the search

  /** seen holds the states found so far, and directions the aliases that they were found through. */
  datatype Search = Search(seen: map<Addr, State>, directions: seq<(Addr, Addr)>)

  ghost predicate Child(ds: seq<(Addr, Addr)>, x: Addr) {
    exists k :: 0 <= k < |ds| && ds[k].1 == x
  }

  /** Every address is found at most once, and an alias comes later in the list than those that are
    * found through it. */
  ghost predicate Ordered(ds: seq<(Addr, Addr)>) {
    && (forall j, k :: 0 <= j < k < |ds| ==> ds[j].1 != ds[k].1)
    && (forall j, k :: 0 <= j <= k < |ds| ==> ds[j].1 != ds[k].0)
  }

  /** The addresses found through an alias are those that have a state, but for the ones that it was
    * given to and the ones in todo that are still being explored. */
  ghost predicate Found(s: Search, roots: set<Addr>, todo: set<Addr>) {
    forall x :: Child(s.directions, x) <==> x in s.seen && x !in roots && x !in todo
  }

  /** The aliases follow the graph and join addresses of the same state. */
  ghost predicate Follows(g: Graph, s: Search) {
    forall k :: 0 <= k < |s.directions| ==> FollowsAt(g, s, s.directions[k])
  }

  ghost predicate FollowsAt(g: Graph, s: Search, d: (Addr, Addr)) {
    d.0 in s.seen && d.1 in s.seen && d.1 in Adj(g, d.0) && s.seen[d.1] == s.seen[d.0]
  }

  ghost predicate SourcedAt(g: Graph, s: Search, roots: set<Addr>, x: Addr, v: State) {
    exists r :: r in roots && r in s.seen && s.seen[r] == v && Linked(g, r, x)
  }

  /** Every state comes from a root that is linked to the address. */
  ghost predicate Sourced(g: Graph, s: Search, roots: set<Addr>) {
    forall x {:trigger SourcedAt(g, s, roots, x, s.seen[x])} :: x in s.seen ==> SourcedAt(g, s, roots, x, s.seen[x])
  }

  ghost predicate Inv(g: Graph, s: Search, roots: set<Addr>, todo: set<Addr>) {
    && Symmetric(g)
    && roots <= s.seen.Keys && todo <= s.seen.Keys && roots !! todo
    && Ordered(s.directions)
    && Found(s, roots, todo)
    && Follows(g, s)
    && Sourced(g, s, roots)
  }

  /** All aliases of x have the state of x. */
  ghost predicate Closed(g: Graph, s: Search, x: Addr) {
    x in s.seen && forall y :: y in Adj(g, x) ==> y in s.seen && s.seen[y] == s.seen[x]
  }

  /** Nothing that had a state has lost it, and what got one has been explored. */
  ghost predicate Grown(g: Graph, s: Search, t: Search) {
    && (forall x :: x in s.seen ==> x in t.seen && t.seen[x] == s.seen[x])
    && (forall x :: x in t.seen && x !in s.seen ==> Closed(g, t, x))
  }

  /** Two roots that are linked have different states. */
  ghost predicate Clash(g: Graph, s: Search, roots: set<Addr>) {
    exists a, b :: a in roots && b in roots && a in s.seen && b in s.seen && Linked(g, a, b) && s.seen[a] != s.seen[b]
  }

  // ----- The steps of the search

  lemma VisitKeeps(g: Graph, s: Search, roots: set<Addr>, todo: set<Addr>, x: Addr, v: State)
    requires Inv(g, s, roots, todo) && x !in s.seen && SourcedAt(g, s, roots, x, v)
    ensures Inv(g, s.(seen := s.seen[x := v]), roots, todo + {x})
  {
    var t := s.(seen := s.seen[x := v]);
    VisitSourced(g, s, t, roots, x, v);
    FollowsStays(g, s, t);
  }

  lemma VisitSourced(g: Graph, s: Search, t: Search, roots: set<Addr>, x: Addr, v: State)
    requires Sourced(g, s, roots) && x !in s.seen && SourcedAt(g, s, roots, x, v) && t.seen == s.seen[x := v]
    ensures Sourced(g, t, roots)
  {
    forall y | y in t.seen ensures SourcedAt(g, t, roots, y, t.seen[y]) {
      SourcedStays(g, s, t, roots, y, t.seen[y]);
    }
  }

  lemma FollowsStays(g: Graph, s: Search, t: Search)
    requires Follows(g, s) && t.directions == s.directions
    requires forall y :: y in s.seen ==> y in t.seen && t.seen[y] == s.seen[y]
    ensures Follows(g, t)
  {
    forall k | 0 <= k < |t.directions| ensures FollowsAt(g, t, t.directions[k]) {
      assert FollowsAt(g, s, s.directions[k]);
    }
  }

  lemma SourcedStays(g: Graph, s: Search, t: Search, roots: set<Addr>, x: Addr, v: State)
    requires SourcedAt(g, s, roots, x, v) || (x in s.seen && v == s.seen[x] && Sourced(g, s, roots))
    requires forall y :: y in s.seen ==> y in t.seen && t.seen[y] == s.seen[y]
    ensures SourcedAt(g, t, roots, x, v)
  {
    assert SourcedAt(g, s, roots, x, v);
    var r :| r in roots && r in s.seen && s.seen[r] == v && Linked(g, r, x);
  }

  /** When the search of y from x is over, y is one of the addresses found. */
  lemma LinkKeeps(g: Graph, s: Search, roots: set<Addr>, todo: set<Addr>, x: Addr, y: Addr)
    requires Inv(g, s, roots, todo + {y}) && y !in todo && y !in roots && y in Adj(g, x)
    requires x in s.seen && s.seen[y] == s.seen[x] && (x in roots || x in todo)
    ensures Inv(g, s.(directions := s.directions + [(x, y)]), roots, todo)
  {
    var t := s.(directions := s.directions + [(x, y)]);
    assert !Child(s.directions, x) && !Child(s.directions, y);
    LinkOrdered(s.directions, x, y);
    LinkFound(s, t, roots, todo, x, y);
    LinkFollows(g, s, t, x, y);
    SourcedSame(g, s, t, roots);
  }

  lemma SourcedSame(g: Graph, s: Search, t: Search, roots: set<Addr>)
    requires Sourced(g, s, roots) && t.seen == s.seen
    ensures Sourced(g, t, roots)
  {
    forall z | z in t.seen ensures SourcedAt(g, t, roots, z, t.seen[z]) {
      SourcedStays(g, s, t, roots, z, t.seen[z]);
    }
  }

  lemma LinkOrdered(ds: seq<(Addr, Addr)>, x: Addr, y: Addr)
    requires Ordered(ds) && !Child(ds, x) && !Child(ds, y) && x != y
    ensures Ordered(ds + [(x, y)])
  {
  }

  lemma LinkFound(s: Search, t: Search, roots: set<Addr>, todo: set<Addr>, x: Addr, y: Addr)
    requires Found(s, roots, todo + {y}) && y !in todo && y !in roots && y in s.seen
    requires t == s.(directions := s.directions + [(x, y)])
    ensures Found(t, roots, todo)
  {
    var n := |s.directions|;
    assert t.directions[n].1 == y;
    forall z ensures Child(t.directions, z) <==> Child(s.directions, z) || z == y {
      if Child(s.directions, z) {
        var k :| 0 <= k < n && s.directions[k].1 == z;
        assert t.directions[k].1 == z;
      }
    }
  }

  lemma LinkFollows(g: Graph, s: Search, t: Search, x: Addr, y: Addr)
    requires Follows(g, s) && t == s.(directions := s.directions + [(x, y)])
    requires FollowsAt(g, s, (x, y))
    ensures Follows(g, t)
  {
    forall k | 0 <= k < |t.directions| ensures FollowsAt(g, t, t.directions[k]) {
      assert k < |s.directions| ==> FollowsAt(g, s, s.directions[k]);
    }
  }

  lemma GrownTrans(g: Graph, s: Search, t: Search, u: Search)
    requires Grown(g, s, t) && Grown(g, t, u)
    ensures Grown(g, s, u)
  {
    forall x | x in u.seen && x !in s.seen ensures Closed(g, u, x) {
      if x in t.seen {
        assert Closed(g, t, x);
      }
    }
  }

  /** Meeting an address with another state means that two roots clash. */
  lemma MeetsOther(g: Graph, s: Search, roots: set<Addr>, todo: set<Addr>, x: Addr, y: Addr, v: State)
    requires Symmetric(g) && Sourced(g, s, roots) && SourcedAt(g, s, roots, x, v) && y in Adj(g, x)
    requires y in s.seen && s.seen[y] != v
    ensures Clash(g, s, roots)
  {
    var a :| a in roots && a in s.seen && s.seen[a] == v && Linked(g, a, x);
    assert SourcedAt(g, s, roots, y, s.seen[y]);
    var b :| b in roots && b in s.seen && s.seen[b] == s.seen[y] && Linked(g, b, y);
    LinkedAcross(g, a, b, x, y);
  }

  lemma LinkedAcross(g: Graph, a: Addr, b: Addr, x: Addr, y: Addr)
    requires Symmetric(g) && Linked(g, a, x) && Linked(g, b, y) && y in Adj(g, x)
    ensures Linked(g, a, b)
  {
    LinkedStep(g, a, x, y);
    var p :| Joins(g, b, y, p);
    JoinsBack(g, b, y, p);
    var q :| Joins(g, y, b, q);
    LinkedJoin(g, a, y, q, b);
  }

  lemma SubsetSize<T>(a: set<T>, b: set<T>)
    requires a <= b
    ensures |a| <= |b| && (a != b ==> |a| < |b|)
  {
    if a != {} {
      var x :| x in a;
      SubsetSize(a - {x}, b - {x});
      assert a == (a - {x}) + {x} && b == (b - {x}) + {x};
    }
  }

  /** What the search still has to explore shrinks. */
  lemma LessLeft(g: Graph, before: map<Addr, State>, after: map<Addr, State>, x: Addr)
    requires before.Keys <= after.Keys
    ensures |g.Keys - after.Keys| <= |g.Keys - before.Keys|
    ensures x in g && x in after && x !in before ==> |g.Keys - after.Keys| < |g.Keys - before.Keys|
  {
    SubsetSize(g.Keys - after.Keys, g.Keys - before.Keys);
    if x in g && x in after && x !in before {
      assert x in g.Keys - before.Keys && x !in g.Keys - after.Keys;
    }
  }

  /** The addresses that s and t both know have the same state. */
  ghost predicate Kept(s: Search, t: Search) {
    forall x :: x in s.seen ==> x in t.seen && t.seen[x] == s.seen[x]
  }

  /** The address x may be explored with state v: it is a root with that state or it is new, and
    * linked to a root with that state. */
  ghost predicate MayExplore(g: Graph, s: Search, roots: set<Addr>, x: Addr, v: State) {
    && (if x in roots then x in s.seen && s.seen[x] == v else x !in s.seen)
    && SourcedAt(g, s, roots, x, v)
  }

  function Exploring(roots: set<Addr>, todo: set<Addr>, x: Addr): set<Addr> {
    if x in roots then todo else todo + {x}
  }

  lemma ExploreStart(g: Graph, s: Search, roots: set<Addr>, todo: set<Addr>, x: Addr, v: State)
    requires Inv(g, s, roots, todo) && MayExplore(g, s, roots, x, v)
    ensures Inv(g, s.(seen := s.seen[x := v]), roots, Exploring(roots, todo, x))
    ensures Kept(s, s.(seen := s.seen[x := v]))
    ensures SourcedAt(g, s.(seen := s.seen[x := v]), roots, x, v)
  {
    var t := s.(seen := s.seen[x := v]);
    if x in roots {
      assert t.seen == s.seen;
    } else {
      VisitKeeps(g, s, roots, todo, x, v);
    }
    SourcedStays(g, s, t, roots, x, v);
  }

  lemma AliasMayBeExplored(g: Graph, s: Search, roots: set<Addr>, todo: set<Addr>, x: Addr, y: Addr, v: State)
    requires Inv(g, s, roots, todo) && SourcedAt(g, s, roots, x, v) && y in Adj(g, x) && y !in s.seen
    ensures MayExplore(g, s, roots, y, v)
  {
    var r :| r in roots && r in s.seen && s.seen[r] == v && Linked(g, r, x);
    LinkedStep(g, r, x, y);
  }

  /** What is new is explored, but for the address itself. */
  ghost predicate GrownBut(g: Graph, s: Search, t: Search, x: Addr) {
    Kept(s, t) && forall y :: y in t.seen && y !in s.seen && y != x ==> Closed(g, t, y)
  }

  lemma GrownButMore(g: Graph, s: Search, t: Search, u: Search, x: Addr)
    requires GrownBut(g, s, t, x) && Grown(g, t, u)
    ensures GrownBut(g, s, u, x)
  {
    forall y | y in u.seen && y !in s.seen && y != x ensures Closed(g, u, y) {
      if y in t.seen {
        assert Closed(g, t, y);
      }
    }
  }

  lemma SameStates(g: Graph, s: Search, t: Search, u: Search, x: Addr)
    requires GrownBut(g, s, t, x) && u.seen == t.seen
    ensures GrownBut(g, s, u, x)
  {
    forall y | y in u.seen && y !in s.seen && y != x ensures Closed(g, u, y) {
      assert Closed(g, t, y);
    }
  }

  /** The search of an alias is over and its direction is about to be recorded. */
  lemma AliasExplored(g: Graph, s: Search, t: Search, u: Search, roots: set<Addr>, todo: set<Addr>,
                      x: Addr, y: Addr, v: State)
    requires GrownBut(g, s, t, x) && Grown(g, t, u) && Kept(t, u)
    requires y !in t.seen && y in Adj(g, x) && todo <= t.seen.Keys && roots <= t.seen.Keys
    requires Inv(g, u, roots, Exploring(roots, todo, y)) && y in u.seen && u.seen[y] == v
    requires x in t.seen && t.seen[x] == v && SourcedAt(g, t, roots, x, v) && (x in roots || x in todo)
    ensures var w := u.(directions := u.directions + [(x, y)]);
            && Inv(g, w, roots, todo) && GrownBut(g, s, w, x) && SourcedAt(g, w, roots, x, v)
  {
    var w := u.(directions := u.directions + [(x, y)]);
    GrownButMore(g, s, t, u, x);
    LinkKeeps(g, u, roots, todo, x, y);
    SameStates(g, s, u, w, x);
    SourcedStays(g, t, w, roots, x, v);
  }

  ghost predicate AllHave(s: Search, ys: seq<Addr>, v: State) {
    forall y :: y in ys ==> y in s.seen && s.seen[y] == v
  }

  lemma HaveMore(s: Search, t: Search, ys: seq<Addr>, k: nat, v: State)
    requires k < |ys| && AllHave(s, ys[..k], v) && Kept(s, t) && ys[k] in t.seen && t.seen[ys[k]] == v
    ensures AllHave(t, ys[..k + 1], v)
  {
    assert ys[..k + 1] == ys[..k] + [ys[k]];
  }

  lemma StartGrown(g: Graph, s: Search, t: Search, x: Addr, v: State)
    requires t == s.(seen := s.seen[x := v]) && Kept(s, t)
    ensures GrownBut(g, s, t, x)
  {
  }

  lemma AllFollowed(g: Graph, s: Search, t: Search, roots: set<Addr>, x: Addr, v: State)
    requires GrownBut(g, s, t, x) && x in t.seen && t.seen[x] == v && AllHave(t, Adj(g, x), v)
    ensures Grown(g, s, t) && Closed(g, t, x)
  {
    forall y | y in t.seen && y !in s.seen ensures Closed(g, t, y) {
      if y != x {
        assert Closed(g, t, y);
      }
    }
  }

  class Filler {
    const edges: Graph
    var seen: map<Addr, State>
    var directions: seq<(Addr, Addr)>
    ghost var roots: set<Addr>

    ghost function Now(): Search
      reads this
    {
      Search(seen, directions)
    }

    constructor (edges: Graph)
      ensures this.edges == edges && seen == map[] && directions == [] && roots == {}
    {
      this.edges, seen, directions, roots := edges, map[], [], {};
    }

    /** dfs: gives the state to every address that is linked to addr through addresses without one,
      * unless it meets another state. */
    method Dfs(addr: Addr, val: State, ghost todo: set<Addr>) returns (ok: bool)
      requires Inv(edges, Now(), roots, todo) && MayExplore(edges, Now(), roots, addr, val)
      modifies this`seen, this`directions
      ensures Kept(old(Now()), Now())
      ensures ok ==> Inv(edges, Now(), roots, Exploring(roots, todo, addr))
      ensures ok ==> Grown(edges, old(Now()), Now()) && Closed(edges, Now(), addr) && seen[addr] == val
      ensures !ok ==> Clash(edges, Now(), roots)
      decreases |edges.Keys - seen.Keys|, if addr in seen then 1 else 0, 3
    {
      ghost var s := Now();
      ExploreStart(edges, s, roots, todo, addr, val);
      seen := seen[addr := val];
      assert Now() == s.(seen := s.seen[addr := val]);
      StartGrown(edges, s, Now(), addr, val);
      ok := FollowAll(addr, val, s, Exploring(roots, todo, addr));
      if ok {
        AllFollowed(edges, s, Now(), roots, addr, val);
      }
    }

    /** The loop over the aliases of addr. */
    method FollowAll(addr: Addr, val: State, ghost s: Search, ghost todo: set<Addr>) returns (ok: bool)
      requires Inv(edges, Now(), roots, todo) && GrownBut(edges, s, Now(), addr)
      requires addr in roots || addr in todo
      requires addr in seen && seen[addr] == val && SourcedAt(edges, Now(), roots, addr, val)
      requires addr !in s.seen || addr in roots
      modifies this`seen, this`directions
      ensures Kept(s, Now())
      ensures ok ==> Inv(edges, Now(), roots, todo) && GrownBut(edges, s, Now(), addr)
      ensures ok ==> addr in seen && seen[addr] == val && AllHave(Now(), Adj(edges, addr), val)
      ensures !ok ==> Clash(edges, Now(), roots)
      decreases |edges.Keys - s.seen.Keys|, if addr in s.seen then 1 else 0, 2
    {
      if addr !in edges {
        return true;
      }
      var aliases := edges[addr];
      for k := 0 to |aliases|
        invariant Inv(edges, Now(), roots, todo) && GrownBut(edges, s, Now(), addr)
        invariant addr in seen && seen[addr] == val && SourcedAt(edges, Now(), roots, addr, val)
        invariant AllHave(Now(), aliases[..k], val)
      {
        ghost var t := Now();
        ok := Follow(addr, aliases[k], val, s, todo);
        if !ok {
          return;
        }
        HaveMore(t, Now(), aliases, k, val);
      }
      assert aliases[..|aliases|] == aliases;
      return true;
    }

    /** One alias of addr: it has the right state already, or it is explored and its direction is
      * recorded. */
    method Follow(addr: Addr, alias: Addr, val: State, ghost s: Search, ghost todo: set<Addr>) returns (ok: bool)
      requires Inv(edges, Now(), roots, todo) && GrownBut(edges, s, Now(), addr)
      requires addr in roots || addr in todo
      requires addr in seen && seen[addr] == val && SourcedAt(edges, Now(), roots, addr, val)
      requires alias in Adj(edges, addr) && (addr !in s.seen || addr in roots)
      modifies this`seen, this`directions
      ensures Kept(s, Now()) && Kept(old(Now()), Now())
      ensures ok ==> Inv(edges, Now(), roots, todo) && GrownBut(edges, s, Now(), addr)
      ensures ok ==> SourcedAt(edges, Now(), roots, addr, val)
      ensures ok ==> alias in seen && seen[alias] == val
      ensures !ok ==> Clash(edges, Now(), roots)
      decreases |edges.Keys - s.seen.Keys|, if addr in s.seen then 1 else 0, 1
    {
      if alias in seen {
        if seen[alias] != val {
          MeetsOther(edges, Now(), roots, todo, addr, alias, val);
          return false;
        }
        return true;
      }
      ghost var t := Now();
      ok := Explore(addr, alias, val, s, todo);
      if ok {
        ghost var u := Now();
        AliasExplored(edges, s, t, u, roots, todo, addr, alias, val);
        directions := directions + [(addr, alias)];
        assert Now() == u.(directions := u.directions + [(addr, alias)]);
      }
    }

    /** An alias that has no state yet. */
    method Explore(addr: Addr, alias: Addr, val: State, ghost s: Search, ghost todo: set<Addr>) returns (ok: bool)
      requires Inv(edges, Now(), roots, todo) && Kept(s, Now())
      requires addr in seen && SourcedAt(edges, Now(), roots, addr, val)
      requires alias in Adj(edges, addr) && alias !in seen && (addr !in s.seen || addr in roots)
      modifies this`seen, this`directions
      ensures Kept(old(Now()), Now())
      ensures ok ==> Inv(edges, Now(), roots, Exploring(roots, todo, alias)) && Grown(edges, old(Now()), Now())
      ensures ok ==> alias in seen && seen[alias] == val
      ensures !ok ==> Clash(edges, Now(), roots)
      decreases |edges.Keys - s.seen.Keys|, if addr in s.seen then 1 else 0, 0
    {
      AliasMayBeExplored(edges, Now(), roots, todo, addr, alias, val);
      LessLeft(edges, s.seen, seen, addr);
      ok := Dfs(alias, val, todo);
    }

    /** The searches from the given addresses, in any order: they fail exactly when linked addresses
      * are given different states. */
    method SearchGiven(ghost inits: seq<Init>, given: map<Addr, State>) returns (ok: bool)
      requires Symmetric(edges) && given == Given(inits)
      modifies this
      ensures ok <==> !Conflict(edges, inits)
      ensures ok ==> Inv(edges, Now(), roots, {}) && ClosedBut(edges, Now(), {})
      ensures ok ==> roots == given.Keys && Kept(Search(given, []), Now())
    {
      seen, directions, roots := given, [], given.Keys;
      GivenInv(edges, given);
      var todo := given.Keys;
      while todo != {}
        invariant todo <= given.Keys && roots == given.Keys
        invariant Inv(edges, Now(), roots, {}) && ClosedBut(edges, Now(), todo)
        invariant Kept(Search(given, []), Now())
        decreases |todo|
      {
        var a :| a in todo;
        ok := SearchOne(a, given[a], todo);
        if !ok {
          ClashIsConflict(edges, Now(), inits);
          return;
        }
        todo := todo - {a};
      }
      NoClash(edges, Now(), roots);
      ClashIsConflict(edges, Now(), inits);
      return true;
    }

    method SearchOne(a: Addr, val: State, ghost open: set<Addr>) returns (ok: bool)
      requires Inv(edges, Now(), roots, {}) && ClosedBut(edges, Now(), open)
      requires a in roots && a in seen && seen[a] == val
      modifies this`seen, this`directions
      ensures Kept(old(Now()), Now())
      ensures ok ==> Inv(edges, Now(), roots, {}) && ClosedBut(edges, Now(), open - {a})
      ensures !ok ==> Clash(edges, Now(), roots)
    {
      ghost var s := Now();
      assert SourcedAt(edges, s, roots, a, s.seen[a]);
      ok := Dfs(a, val, {});
      if ok {
        ClosedMore(edges, s, Now(), open, a);
      }
    }

    /** The loop over the physical addresses, in any order: those that nothing is known about hold
      * zero.  A search from one of them meets no other state. */
    method SearchPhysical(ghost inits: seq<Init>, pas: set<Addr>) returns (zeros: seq<Addr>)
      requires Searched(edges, inits, pas, Now(), []) && roots == Roots(inits, [])
      modifies this
      ensures Searched(edges, inits, pas, Now(), zeros) && forall p :: p in pas ==> p in seen
    {
      zeros := [];
      var todo := pas;
      while todo != {}
        invariant todo <= pas && Searched(edges, inits, pas, Now(), zeros) && roots == Roots(inits, zeros)
        invariant forall p :: p in pas && p !in todo ==> p in seen
        decreases |todo|
      {
        var pa :| pa in todo;
        todo := todo - {pa};
        if pa !in seen {
          FillZero(pa, inits, pas, zeros);
          zeros := zeros + [pa];
        }
      }
    }

    /** A physical address that has no state yet holds zero, and so does all that is linked to it. */
    method FillZero(pa: Addr, ghost inits: seq<Init>, ghost pas: set<Addr>, ghost zeros: seq<Addr>)
      requires Searched(edges, inits, pas, Now(), zeros) && roots == Roots(inits, zeros)
      requires pa in pas && pa !in seen
      modifies this
      ensures Searched(edges, inits, pas, Now(), zeros + [pa]) && roots == Roots(inits, zeros + [pa])
      ensures Kept(old(Now()), Now()) && pa in seen
    {
      ghost var s, was := Now(), roots;
      ghost var t := s.(seen := s.seen[pa := Holds("0")]);
      NewRoot(edges, s, roots, pa, Holds("0"));
      BeforeZero(edges, s, t, pa);
      seen, roots := seen[pa := Holds("0")], roots + {pa};
      assert Now() == t;
      var ok := SearchOne(pa, Holds("0"), {pa});
      NewRootNoClash(edges, s, Now(), was, pa);
      assert ok;
      assert {pa} - {pa} == {};
      ZeroAdded(edges, inits, pas, s, Now(), zeros, pa);
    }
  }

  // ----- The graph of the aliases

  /** The two addresses are aliases of each other, in one direction or the other. */
  predicate Aliased(inits: seq<Init>, x: Addr, y: Addr) {
    Alias(x, y) in inits || Alias(y, x) in inits
  }

  predicate InGraph(inits: seq<Init>, x: Addr) {
    exists k :: 0 <= k < |inits| && inits[k].Alias? && (inits[k].from == x || inits[k].to == x)
  }

  ghost predicate IsGraphOf(g: Graph, inits: seq<Init>) {
    && (forall x :: x in g <==> InGraph(inits, x))
    && (forall x, y :: y in Adj(g, x) <==> Aliased(inits, x, y))
  }

  function WithKey(g: Graph, x: Addr): Graph {
    if x in g then g else g[x := []]
  }

  function WithEdge(g: Graph, x: Addr, y: Addr): Graph
    requires x in g
  {
    g[x := g[x] + [y]]
  }

  lemma GraphStep(g: Graph, g': Graph, inits: seq<Init>, k: nat)
    requires k < |inits| && IsGraphOf(g, inits[..k])
    requires inits[k].Alias? ==>
      var w := WithKey(WithKey(g, inits[k].from), inits[k].to);
      g' == WithEdge(WithEdge(w, inits[k].from, inits[k].to), inits[k].to, inits[k].from)
    requires !inits[k].Alias? ==> g' == g
    ensures IsGraphOf(g', inits[..k + 1])
  {
    var more := inits[..k + 1];
    assert more == inits[..k] + [inits[k]];
    forall x, y ensures y in Adj(g', x) <==> Aliased(more, x, y) {
      assert Aliased(more, x, y) <==> Aliased(inits[..k], x, y) || inits[k] == Alias(x, y) || inits[k] == Alias(y, x);
      assert y in Adj(g, x) <==> Aliased(inits[..k], x, y);
    }
    forall x ensures x in g' <==> InGraph(more, x) {
      GraphKeys(inits, k, x);
      assert x in g <==> InGraph(inits[..k], x);
    }
  }

  lemma GraphKeys(inits: seq<Init>, k: nat, x: Addr)
    requires k < |inits|
    ensures InGraph(inits[..k + 1], x) <==>
      InGraph(inits[..k], x) || (inits[k].Alias? && (inits[k].from == x || inits[k].to == x))
  {
    if InGraph(inits[..k], x) {
      var j :| 0 <= j < k && inits[j].Alias? && (inits[j].from == x || inits[j].to == x);
      assert inits[..k + 1][j] == inits[j];
    }
    assert inits[..k + 1][k] == inits[k];
  }

  /** The first loop of fill_unbacked_addrs: every alias is an edge both ways. */
  method BuildGraph(inits: seq<Init>) returns (edges: Graph)
    ensures IsGraphOf(edges, inits) && Symmetric(edges)
  {
    edges := map[];
    for k := 0 to |inits|
      invariant IsGraphOf(edges, inits[..k])
    {
      ghost var g := edges;
      match inits[k] {
        case Alias(from, to) =>
          if from !in edges {
            edges := edges[from := []];
          }
          if to !in edges {
            edges := edges[to := []];
          }
          edges := edges[from := edges[from] + [to]];
          edges := edges[to := edges[to] + [from]];
        case _ =>
      }
      GraphStep(g, edges, inits, k);
    }
    assert inits[..|inits|] == inits;
    GraphSymmetric(edges, inits);
  }

  lemma GraphSymmetric(g: Graph, inits: seq<Init>)
    requires IsGraphOf(g, inits)
    ensures Symmetric(g)
  {
    forall x, y | y in Adj(g, x) ensures x in Adj(g, y) {
      assert Aliased(inits, x, y) && Aliased(inits, y, x);
    }
  }

  // ----- The given states

  /** The last state given for each address. */
  function Given(inits: seq<Init>): map<Addr, State> {
    if inits == [] then map[]
    else
      var before, last := Given(inits[..|inits| - 1]), inits[|inits| - 1];
      match last
      case Var(id, val) => before[id := Holds(val)]
      case Unmapped(id) => before[id := NotMapped]
      case Alias(_, _) => before
  }

  /** The last entry, other than an alias, that is for the address. */
  predicate LastFor(inits: seq<Init>, a: Addr, k: nat) {
    && k < |inits| && !inits[k].Alias? && inits[k].id == a
    && forall j :: k < j < |inits| ==> inits[j].Alias? || inits[j].id != a
  }

  /** An address is given the state of its last entry. */
  lemma {:induction false} GivenIsLast(inits: seq<Init>, a: Addr, k: nat)
    requires LastFor(inits, a, k)
    ensures a in Given(inits) && Given(inits)[a] == if inits[k].Var? then Holds(inits[k].val) else NotMapped
  {
    if k < |inits| - 1 {
      assert inits[|inits| - 1].Alias? || inits[|inits| - 1].id != a;
      GivenIsLast(inits[..|inits| - 1], a, k);
    }
  }

  /** An address without an entry is given no state. */
  lemma {:induction false} GivenHasEntry(inits: seq<Init>, a: Addr) returns (k: nat)
    requires a in Given(inits)
    ensures LastFor(inits, a, k)
  {
    k := |inits| - 1;
    if inits[k].Alias? || inits[k].id != a {
      k := GivenHasEntry(inits[..k], a);
    }
  }

  /** Two addresses that are linked by aliases are given different states. */
  ghost predicate Conflict(g: Graph, inits: seq<Init>) {
    exists a, b :: a in Given(inits) && b in Given(inits) && Linked(g, a, b) && Given(inits)[a] != Given(inits)[b]
  }

  method CollectGiven(inits: seq<Init>) returns (given: map<Addr, State>)
    ensures given == Given(inits)
  {
    given := map[];
    for k := 0 to |inits|
      invariant given == Given(inits[..k])
    {
      assert inits[..k + 1][..k] == inits[..k];
      match inits[k] {
        case Var(id, val) => given := given[id := Holds(val)];
        case Unmapped(id) => given := given[id := NotMapped];
        case _ =>
      }
    }
    assert inits[..|inits|] == inits;
  }

  // ----- Searches from roots

  /** Every address that has a state is explored, but for some roots. */
  ghost predicate ClosedBut(g: Graph, s: Search, open: set<Addr>) {
    forall x {:trigger Closed(g, s, x)} :: x in s.seen && x !in open ==> Closed(g, s, x)
  }

  /** Where everything is explored, linked addresses have the same state. */
  lemma {:induction false} LinkedSame(g: Graph, s: Search, a: Addr, b: Addr, p: seq<Addr>)
    requires ClosedBut(g, s, {}) && a in s.seen && Joins(g, a, b, p)
    ensures b in s.seen && s.seen[b] == s.seen[a]
    decreases |p|
  {
    if |p| > 1 {
      var q := p[..|p| - 1];
      PathInit(g, p);
      assert Joins(g, a, q[|q| - 1], q);
      LinkedSame(g, s, a, q[|q| - 1], q);
      assert Closed(g, s, q[|q| - 1]);
    }
  }

  lemma NoClash(g: Graph, s: Search, roots: set<Addr>)
    requires ClosedBut(g, s, {})
    ensures !Clash(g, s, roots)
  {
    forall a, b | a in s.seen && b in s.seen && Linked(g, a, b) ensures s.seen[a] == s.seen[b] {
      var p :| Joins(g, a, b, p);
      LinkedSame(g, s, a, b, p);
    }
  }

  /** A new root that has no state is linked to nothing that has one, so searching from it cannot
    * fail. */
  lemma NewRootNoClash(g: Graph, s: Search, t: Search, roots: set<Addr>, pa: Addr)
    requires Symmetric(g) && ClosedBut(g, s, {}) && roots <= s.seen.Keys && pa !in s.seen
    requires Kept(s, t)
    ensures !Clash(g, t, roots + {pa})
  {
    forall a, b | a in roots + {pa} && b in roots + {pa} && a in t.seen && b in t.seen && Linked(g, a, b)
      ensures t.seen[a] == t.seen[b]
    {
      var p :| Joins(g, a, b, p);
      JoinsBack(g, a, b, p);
      var q :| Joins(g, b, a, q);
      if a in s.seen {
        LinkedSame(g, s, a, b, p);
      } else if b in s.seen {
        LinkedSame(g, s, b, a, q);
      }
    }
  }

  /** What is explored stays explored. */
  lemma ClosedMore(g: Graph, s: Search, t: Search, open: set<Addr>, x: Addr)
    requires ClosedBut(g, s, open) && Grown(g, s, t) && Closed(g, t, x)
    ensures ClosedBut(g, t, open - {x})
  {
    forall y | y in t.seen && y !in open - {x} ensures Closed(g, t, y) {
      if y in s.seen && y != x {
        assert Closed(g, s, y);
      }
    }
  }

  lemma GivenInv(g: Graph, given: map<Addr, State>)
    requires Symmetric(g)
    ensures Inv(g, Search(given, []), given.Keys, {})
  {
    var s := Search(given, []);
    forall x | x in s.seen ensures SourcedAt(g, s, given.Keys, x, s.seen[x]) {
      LinkedSelf(g, x);
    }
  }

  lemma ClashIsConflict(g: Graph, s: Search, inits: seq<Init>)
    requires forall a :: a in Given(inits) ==> a in s.seen && s.seen[a] == Given(inits)[a]
    ensures Clash(g, s, Given(inits).Keys) <==> Conflict(g, inits)
  {
  }

  /** Where everything that has a state is explored, a new address can be made a root. */
  lemma NewRoot(g: Graph, s: Search, roots: set<Addr>, pa: Addr, v: State)
    requires Inv(g, s, roots, {}) && pa !in s.seen
    ensures Inv(g, s.(seen := s.seen[pa := v]), roots + {pa}, {})
    ensures SourcedAt(g, s.(seen := s.seen[pa := v]), roots + {pa}, pa, v)
  {
    var t := s.(seen := s.seen[pa := v]);
    LinkedSelf(g, pa);
    NewRootSourced(g, s, t, roots, pa, v);
    FollowsStays(g, s, t);
  }

  lemma NewRootSourced(g: Graph, s: Search, t: Search, roots: set<Addr>, pa: Addr, v: State)
    requires Sourced(g, s, roots) && pa !in s.seen && t.seen == s.seen[pa := v] && Linked(g, pa, pa)
    ensures Sourced(g, t, roots + {pa}) && SourcedAt(g, t, roots + {pa}, pa, v)
  {
    assert SourcedAt(g, t, roots + {pa}, pa, v);
    forall x | x in t.seen ensures SourcedAt(g, t, roots + {pa}, x, t.seen[x]) {
      if x != pa {
        assert SourcedAt(g, s, roots, x, s.seen[x]);
        var r :| r in roots && r in s.seen && s.seen[r] == s.seen[x] && Linked(g, r, x);
      }
    }
  }

  lemma BeforeZero(g: Graph, s: Search, t: Search, pa: Addr)
    requires ClosedBut(g, s, {}) && pa !in s.seen && t.seen.Keys == s.seen.Keys + {pa} && Kept(s, t)
    ensures ClosedBut(g, t, {pa})
  {
    forall x | x in t.seen && x !in {pa} ensures Closed(g, t, x) {
      assert Closed(g, s, x);
    }
  }

  lemma ZeroAdded(g: Graph, inits: seq<Init>, pas: set<Addr>, s: Search, t: Search, zeros: seq<Addr>, pa: Addr)
    requires Searched(g, inits, pas, s, zeros) && pa in pas && pa !in s.seen && Kept(s, t)
    requires pa in t.seen && t.seen[pa] == Holds("0")
    requires Inv(g, t, Roots(inits, zeros) + {pa}, {}) && ClosedBut(g, t, {})
    ensures Roots(inits, zeros + [pa]) == Roots(inits, zeros) + {pa}
    ensures Searched(g, inits, pas, t, zeros + [pa])
  {
    assert Roots(inits, zeros + [pa]) == Roots(inits, zeros) + {pa};
  }

  // ----- The result

  /** How the addresses were filled in: the outcome of the search, the physical addresses that got a
    * zero, the addresses of the graph and the symbolic addresses left without memory. */
  datatype Filled = Filled(s: Search, zeros: seq<Addr>, rest: seq<Addr>, more: seq<Addr>)

  function NonAliases(inits: seq<Init>): seq<Init> {
    if inits == [] then []
    else NonAliases(inits[..|inits| - 1]) + if inits[|inits| - 1].Alias? then [] else [inits[|inits| - 1]]
  }

  function Zeros(ps: seq<Addr>): (r: seq<Init>)
    ensures |r| == |ps|
  {
    seq(|ps|, k requires 0 <= k < |ps| => Var(ps[k], "0"))
  }

  function Unmappeds(ps: seq<Addr>): (r: seq<Init>)
    ensures |r| == |ps|
  {
    seq(|ps|, k requires 0 <= k < |ps| => Unmapped(ps[k]))
  }

  function Oriented(ds: seq<(Addr, Addr)>): (r: seq<Init>)
    ensures |r| == |ds|
  {
    seq(|ds|, k requires 0 <= k < |ds| => Alias(ds[k].1, ds[k].0))
  }

  function Output(inits: seq<Init>, f: Filled): seq<Init> {
    NonAliases(inits) + Zeros(f.zeros) + Unmappeds(f.rest) + Unmappeds(f.more) + Oriented(f.s.directions)
  }

  function Without(syms: seq<Addr>, seen: map<Addr, State>): (r: seq<Addr>)
    ensures forall x :: x in r <==> x in syms && x !in seen
  {
    if syms == [] then []
    else Without(syms[..|syms| - 1], seen) + if syms[|syms| - 1] in seen then [] else [syms[|syms| - 1]]
  }

  ghost predicate NoDup(s: seq<Addr>) {
    forall j, k :: 0 <= j < k < |s| ==> s[j] != s[k]
  }

  ghost function Roots(inits: seq<Init>, zeros: seq<Addr>): set<Addr> {
    Given(inits).Keys + set z | z in zeros
  }

  ghost predicate ZerosOk(inits: seq<Init>, s: Search, zeros: seq<Addr>, pas: set<Addr>) {
    && NoDup(zeros)
    && forall z :: z in zeros ==> z in pas && z !in Given(inits) && z in s.seen && s.seen[z] == Holds("0")
  }

  /** The search so far: all given addresses and these physical addresses are roots, with their
    * states, and everything that has a state is explored. */
  ghost predicate Searched(g: Graph, inits: seq<Init>, pas: set<Addr>, s: Search, zeros: seq<Addr>) {
    && Inv(g, s, Roots(inits, zeros), {})
    && ClosedBut(g, s, {})
    && (forall a :: a in Given(inits) ==> a in s.seen && s.seen[a] == Given(inits)[a])
    && ZerosOk(inits, s, zeros, pas)
  }

  ghost predicate Correct(g: Graph, inits: seq<Init>, syms: seq<Addr>, pas: set<Addr>, f: Filled) {
    && Searched(g, inits, pas, f.s, f.zeros)
    && (forall p :: p in pas ==> p in f.s.seen)
    && NoDup(f.rest) && (forall x :: x in f.rest <==> x in g && x !in f.s.seen)
    && f.more == Without(syms, f.s.seen)
  }

  datatype Result = Failure | Success(inits: seq<Init>)

  /** The addresses of a set, in some order. */
  method Listed(xs: set<Addr>) returns (r: seq<Addr>)
    ensures NoDup(r) && forall x :: x in r <==> x in xs
  {
    r := [];
    var todo := xs;
    while todo != {}
      invariant todo <= xs && NoDup(r) && forall x :: x in r <==> x in xs && x !in todo
      decreases |todo|
    {
      var x :| x in todo;
      todo := todo - {x};
      r := r + [x];
    }
  }

  /** What fill_unbacked_addrs is for, in the graph of the aliases: it fails exactly when linked
    * addresses are given different states, and otherwise fills in the addresses as Correct says. */
  ghost predicate FillsIn(g: Graph, inits: seq<Init>, syms: seq<Addr>, pas: set<Addr>, r: Result) {
    && IsGraphOf(g, inits) && Symmetric(g)
    && (r.Failure? <==> Conflict(g, inits))
    && (r.Success? ==> exists f :: IsFilled(g, inits, syms, pas, f, r.inits))
  }

  ghost predicate IsFilled(g: Graph, inits: seq<Init>, syms: seq<Addr>, pas: set<Addr>, f: Filled, out: seq<Init>) {
    Correct(g, inits, syms, pas, f) && out == Output(inits, f)
  }

  /** fill_unbacked_addrs */
  method FillUnbackedAddrs(inits: seq<Init>, symbolics: seq<Addr>, pas: set<Addr>) returns (r: Result)
    ensures exists g :: FillsIn(g, inits, symbolics, pas, r)
  {
    var edges := BuildGraph(inits);
    var given := CollectGiven(inits);
    var filler := new Filler(edges);
    var ok := filler.SearchGiven(inits, given);
    if !ok {
      assert FillsIn(edges, inits, symbolics, pas, Failure);
      return Failure;
    }
    assert Roots(inits, []) == given.Keys;
    var zeros := filler.SearchPhysical(inits, pas);
    var rest := Listed(edges.Keys - filler.seen.Keys);
    var more := Without(symbolics, filler.seen);
    r := Success(NonAliases(inits) + Zeros(zeros) + Unmappeds(rest) + Unmappeds(more) + Oriented(filler.directions));
    assert IsFilled(edges, inits, symbolics, pas, Filled(filler.Now(), zeros, rest, more), r.inits);
    assert FillsIn(edges, inits, symbolics, pas, r);
  }

  // ----- What the result means

  function Id(i: Init): Addr {
    match i
    case Unmapped(id) => id
    case Var(id, _) => id
    case Alias(from, _) => from
  }

  predicate Direct(out: seq<Init>, x: Addr, v: State) {
    match v
    case Holds(val) => Var(x, val) in out
    case NotMapped => Unmapped(x) in out
  }

  /** The aliases in the list lead along the chain to an address that has the state itself. */
  predicate Leads(out: seq<Init>, chain: seq<Addr>, v: State) {
    if chain == [] then false
    else if |chain| == 1 then Direct(out, chain[0], v)
    else Alias(chain[0], chain[1]) in out && Leads(out, chain[1..], v)
  }

  lemma LeadsMore(out: seq<Init>, x: Addr, chain: seq<Addr>, v: State)
    requires Leads(out, chain, v) && Alias(x, chain[0]) in out
    ensures Leads(out, [x] + chain, v)
  {
    assert ([x] + chain)[1..] == chain;
  }

  lemma {:induction false} GivenInNonAliases(inits: seq<Init>, a: Addr)
    requires a in Given(inits)
    ensures match Given(inits)[a]
            case Holds(val) => Var(a, val) in NonAliases(inits)
            case NotMapped => Unmapped(a) in NonAliases(inits)
  {
    var last := inits[|inits| - 1];
    if !last.Alias? && Id(last) == a {
    } else {
      GivenInNonAliases(inits[..|inits| - 1], a);
    }
  }

  lemma RootResolves(g: Graph, inits: seq<Init>, syms: seq<Addr>, pas: set<Addr>, f: Filled, x: Addr)
    requires Correct(g, inits, syms, pas, f) && x in Roots(inits, f.zeros)
    ensures x in f.s.seen && Direct(Output(inits, f), x, f.s.seen[x])
  {
    if x in Given(inits) {
      GivenInNonAliases(inits, x);
    } else {
      var k :| 0 <= k < |f.zeros| && f.zeros[k] == x;
      assert Zeros(f.zeros)[k] == Var(x, "0");
      assert Var(x, "0") in Zeros(f.zeros);
    }
  }

  /** The list has an alias for every direction, and every root has its state in it. */
  ghost predicate Covers(out: seq<Init>, s: Search, roots: set<Addr>) {
    && (forall k {:trigger s.directions[k]} :: 0 <= k < |s.directions| ==> Alias(s.directions[k].1, s.directions[k].0) in out)
    && (forall r :: r in roots ==> r in s.seen && Direct(out, r, s.seen[r]))
  }

  lemma OutputCovers(g: Graph, inits: seq<Init>, syms: seq<Addr>, pas: set<Addr>, f: Filled)
    requires Correct(g, inits, syms, pas, f)
    ensures Covers(Output(inits, f), f.s, Roots(inits, f.zeros))
  {
    forall k | 0 <= k < |f.s.directions|
      ensures Alias(f.s.directions[k].1, f.s.directions[k].0) in Output(inits, f)
    {
      assert Oriented(f.s.directions)[k] in Oriented(f.s.directions);
    }
    forall r | r in Roots(inits, f.zeros) ensures r in f.s.seen && Direct(Output(inits, f), r, f.s.seen[r]) {
      RootResolves(g, inits, syms, pas, f, r);
    }
  }

  /** The parent of a direction is a root or is itself found later in the list. */
  lemma ParentLater(g: Graph, s: Search, roots: set<Addr>, k: nat) returns (j: nat)
    requires Inv(g, s, roots, {}) && k < |s.directions| && s.directions[k].0 !in roots
    ensures k < j < |s.directions| && s.directions[j].1 == s.directions[k].0
  {
    assert FollowsAt(g, s, s.directions[k]);
    assert Child(s.directions, s.directions[k].0);
    j :| 0 <= j < |s.directions| && s.directions[j].1 == s.directions[k].0;
  }

  lemma FoundAt(s: Search, roots: set<Addr>, x: Addr) returns (k: nat)
    requires Found(s, roots, {}) && x in s.seen && x !in roots
    ensures k < |s.directions| && s.directions[k].1 == x
  {
    assert Child(s.directions, x);
    k :| 0 <= k < |s.directions| && s.directions[k].1 == x;
  }

  /** From the k-th direction on, aliases lead back to a root. */
  lemma {:induction false} DirectionResolves(g: Graph, s: Search, roots: set<Addr>, out: seq<Init>, k: nat)
    returns (chain: seq<Addr>)
    requires Inv(g, s, roots, {}) && Covers(out, s, roots) && k < |s.directions|
    ensures s.directions[k].1 in s.seen && |chain| > 0 && chain[0] == s.directions[k].1
    ensures Leads(out, chain, s.seen[s.directions[k].1])
    decreases |s.directions| - k
  {
    var p, c := s.directions[k].0, s.directions[k].1;
    assert FollowsAt(g, s, s.directions[k]);
    var rest := [p];
    if p !in roots {
      var j := ParentLater(g, s, roots, k);
      rest := DirectionResolves(g, s, roots, out, j);
    }
    chain := [c] + rest;
    LeadsMore(out, c, rest, s.seen[p]);
  }

  lemma SeenResolves(g: Graph, s: Search, roots: set<Addr>, out: seq<Init>, x: Addr) returns (chain: seq<Addr>)
    requires Inv(g, s, roots, {}) && Covers(out, s, roots) && x in s.seen
    ensures |chain| > 0 && chain[0] == x && Leads(out, chain, s.seen[x])
  {
    if x in roots {
      chain := [x];
    } else {
      var k := FoundAt(s, roots, x);
      chain := DirectionResolves(g, s, roots, out, k);
    }
  }

  /** Every address that is linked to a given address leads to the state given there. */
  lemma LinkedToGiven(g: Graph, inits: seq<Init>, syms: seq<Addr>, pas: set<Addr>, f: Filled, a: Addr, x: Addr)
    returns (chain: seq<Addr>)
    requires Correct(g, inits, syms, pas, f) && a in Given(inits) && Linked(g, a, x)
    ensures |chain| > 0 && chain[0] == x && Leads(Output(inits, f), chain, Given(inits)[a])
  {
    var p :| Joins(g, a, x, p);
    LinkedSame(g, f.s, a, x, p);
    OutputCovers(g, inits, syms, pas, f);
    chain := SeenResolves(g, f.s, Roots(inits, f.zeros), Output(inits, f), x);
  }

  /** Every address that is linked to a physical address, but to no given one, leads to zero. */
  lemma LinkedToPhysical(g: Graph, inits: seq<Init>, syms: seq<Addr>, pas: set<Addr>, f: Filled, pa: Addr, x: Addr)
    returns (chain: seq<Addr>)
    requires Correct(g, inits, syms, pas, f) && pa in pas && Linked(g, pa, x)
    requires forall a :: a in Given(inits) ==> !Linked(g, a, pa)
    ensures |chain| > 0 && chain[0] == x && Leads(Output(inits, f), chain, Holds("0"))
  {
    var roots := Roots(inits, f.zeros);
    assert SourcedAt(g, f.s, roots, pa, f.s.seen[pa]);
    var r :| r in roots && r in f.s.seen && f.s.seen[r] == f.s.seen[pa] && Linked(g, r, pa);
    assert r in f.zeros;
    var p :| Joins(g, pa, x, p);
    LinkedSame(g, f.s, pa, x, p);
    OutputCovers(g, inits, syms, pas, f);
    chain := SeenResolves(g, f.s, roots, Output(inits, f), x);
  }

  // ----- One state for each address

  function Ids(out: seq<Init>): (r: seq<Addr>)
    ensures |r| == |out|
  {
    seq(|out|, k requires 0 <= k < |out| => Id(out[k]))
  }

  function Children(ds: seq<(Addr, Addr)>): (r: seq<Addr>)
    ensures |r| == |ds|
  {
    seq(|ds|, k requires 0 <= k < |ds| => ds[k].1)
  }

  lemma NoDupConcat(a: seq<Addr>, b: seq<Addr>)
    ensures NoDup(a + b) <==> NoDup(a) && NoDup(b) && forall x :: x in a ==> x !in b
  {
    var c := a + b;
    if NoDup(c) {
      forall j, k | 0 <= j < k < |a| ensures a[j] != a[k] { assert c[j] != c[k]; }
      forall j, k | 0 <= j < k < |b| ensures b[j] != b[k] { assert c[|a| + j] != c[|a| + k]; }
      forall x | x in a ensures x !in b {
        var j :| 0 <= j < |a| && a[j] == x;
        forall k | 0 <= k < |b| ensures b[k] != x { assert c[j] != c[|a| + k]; }
      }
    } else {
      var j, k :| 0 <= j < k < |c| && c[j] == c[k];
      assert j < |a| ==> c[j] in a;
      assert k >= |a| ==> c[k] in b;
    }
  }

  lemma OutputIds(inits: seq<Init>, f: Filled)
    ensures Ids(Output(inits, f)) == Ids(NonAliases(inits)) + f.zeros + f.rest + f.more + Children(f.s.directions)
  {
  }

  lemma {:induction false} NonAliasIds(inits: seq<Init>, x: Addr)
    ensures x in Ids(NonAliases(inits)) <==> x in Given(inits)
  {
    if inits != [] {
      var init, last := inits[..|inits| - 1], inits[|inits| - 1];
      NonAliasIds(init, x);
      if last.Alias? {
        assert NonAliases(inits) == NonAliases(init);
      } else {
        assert Ids(NonAliases(inits)) == Ids(NonAliases(init)) + [Id(last)];
      }
    }
  }

  lemma {:induction false} WithoutNoDup(syms: seq<Addr>, seen: map<Addr, State>)
    requires NoDup(syms)
    ensures NoDup(Without(syms, seen))
  {
    if syms != [] {
      var init, last := syms[..|syms| - 1], syms[|syms| - 1];
      WithoutNoDup(init, seen);
      forall k | 0 <= k < |init| ensures init[k] != last {
        assert syms[k] != syms[|syms| - 1];
      }
      if last in seen {
        assert Without(syms, seen) == Without(init, seen);
      } else {
        NoDupConcat(Without(init, seen), [last]);
        assert last !in Without(init, seen);
        assert Without(syms, seen) == Without(init, seen) + [last];
      }
    }
  }

  lemma ChildrenDistinct(s: Search, roots: set<Addr>, x: Addr)
    requires Ordered(s.directions) && Found(s, roots, {})
    ensures NoDup(Children(s.directions))
    ensures x in Children(s.directions) <==> x in s.seen && x !in roots
  {
    var ds := s.directions;
    if Child(ds, x) {
      var k :| 0 <= k < |ds| && ds[k].1 == x;
      assert Children(ds)[k] == x;
    }
    if x in Children(ds) {
      var k :| 0 <= k < |ds| && Children(ds)[k] == x;
      assert ds[k].1 == x;
    }
  }

  /** The address is linked to one that is given or physical. */
  ghost predicate Backed(g: Graph, inits: seq<Init>, pas: set<Addr>, x: Addr) {
    exists r :: (r in Given(inits) || r in pas) && Linked(g, r, x)
  }

  /** Exactly the addresses that are linked to a given or physical one have a state. */
  lemma SeenIsBacked(g: Graph, inits: seq<Init>, syms: seq<Addr>, pas: set<Addr>, f: Filled, x: Addr)
    requires Correct(g, inits, syms, pas, f)
    ensures x in f.s.seen <==> Backed(g, inits, pas, x)
  {
    if x in f.s.seen {
      assert SourcedAt(g, f.s, Roots(inits, f.zeros), x, f.s.seen[x]);
    }
    if Backed(g, inits, pas, x) {
      var r :| (r in Given(inits) || r in pas) && Linked(g, r, x);
      var p :| Joins(g, r, x, p);
      LinkedSame(g, f.s, r, x, p);
    }
  }

  /** Where no address is given twice and no symbolic one is listed twice, every address gets one
    * state exactly when each symbolic address that has aliases is backed: the code declares the
    * others unmapped once for the graph and once more for the list of symbolic addresses. */
  lemma OneStateExactly(g: Graph, inits: seq<Init>, syms: seq<Addr>, pas: set<Addr>, f: Filled)
    requires Correct(g, inits, syms, pas, f) && NoDup(Ids(NonAliases(inits))) && NoDup(syms)
    ensures NoDup(Ids(Output(inits, f))) <==> forall x :: x in syms && x in g ==> Backed(g, inits, pas, x)
  {
    var given, zeros, rest, more, children := Ids(NonAliases(inits)), f.zeros, f.rest, f.more, Children(f.s.directions);
    OutputIds(inits, f);
    NoDupConcat(given, zeros);
    NoDupConcat(given + zeros, rest);
    NoDupConcat(given + zeros + rest, more);
    NoDupConcat(given + zeros + rest + more, children);
    WithoutNoDup(syms, f.s.seen);
    forall x ensures x in given <==> x in Given(inits) { NonAliasIds(inits, x); }
    forall x ensures x in children <==> x in f.s.seen && x !in Roots(inits, zeros) {
      ChildrenDistinct(f.s, Roots(inits, zeros), x);
    }
    ChildrenDistinct(f.s, Roots(inits, zeros), "");
    forall x ensures x in f.s.seen <==> Backed(g, inits, pas, x) {
      SeenIsBacked(g, inits, syms, pas, f, x);
    }
  }
}
