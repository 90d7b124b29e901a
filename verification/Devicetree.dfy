/** The walkers of lib/arch/device.c over a flattened devicetree (section 5 of the Devicetree
  * Specification v0.4).  Addresses are offsets into the blob, which is aligned.
  */
module Devicetree {
  import opened Bits
  import opened HashVector

  const FDT_BEGIN_NODE := 1
  const FDT_END_NODE := 2
  const FDT_PROP := 3
  const FDT_END := 9

  const NUL := 0 as char

  // ----- Reading the blob

  /** read_be */
  function ReadBe(m: string, p: nat): (v: nat)
    requires p + 4 <= |m|
  {
    U8(m[p]) * 0x100_0000 + U8(m[p + 1]) * 0x1_0000 + U8(m[p + 2]) * 0x100 + U8(m[p + 3])
  }

  function U8(c: char): nat {
    c as int % 256
  }

  predicate Token(m: string, p: nat, token: nat) {
    p + 4 <= |m| && ReadBe(m, p) == token
  }

  /** How far it is to the next multiple of 4. */
  function Gap(n: nat): (g: nat)
    ensures g < 4
  {
    if 4 <= n then Gap(n - 4) else if n == 0 then 0 else 4 - n
  }

  /** A multiple of 4. */
  predicate Aligned(n: nat) {
    if 4 <= n then Aligned(n - 4) else n == 0
  }

  /** FDT_ALIGN */
  function Align(x: nat): nat {
    x + Gap(x)
  }

  lemma {:induction false} AlignedModulo(n: nat)
    ensures Aligned(n) <==> n % 4 == 0
  {
    if 4 <= n {
      AlignedModulo(n - 4);
    }
  }

  lemma {:induction false} GapAfter(p: nat, n: nat)
    requires Aligned(p)
    ensures Gap(p + n) == Gap(n)
  {
    if 4 <= p {
      GapAfter(p - 4, n);
    }
  }

  lemma {:induction false} AlignAligns(n: nat)
    ensures Aligned(Align(n))
  {
    if 4 <= n {
      AlignAligns(n - 4);
      assert Align(n) == Align(n - 4) + 4;
    }
  }

  lemma TwoMultiples(x: nat, a: nat, b: nat)
    requires a % 4 == 0 && b % 4 == 0 && x <= a < x + 4 && x <= b < x + 4
    ensures a == b
  {
  }

  /** It is what the macro computes by masking. */
  lemma AlignIsMacro(x: nat)
    ensures Align(x) == AlignPow2(x + 3, 4)
  {
    assert Pow2(2) == 4;
    AlignPow2Spec(x + 3, 4);
    AlignAligns(x);
    AlignedModulo(Align(x));
    TwoMultiples(x, Align(x), AlignPow2(x + 3, 4));
  }

  /** The string at an address. */
  function CStr(m: string, p: nat): (s: string)
    ensures p <= |m| ==> p + |s| <= |m|
    decreases |m| - p
  {
    if p >= |m| || m[p] == NUL then "" else [m[p]] + CStr(m, p + 1)
  }

  predicate NameAt(m: string, p: nat, name: string) {
    && p + |name| < |m| && m[p..p + |name|] == name && m[p + |name|] == NUL
    && forall k :: 0 <= k < |name| ==> name[k] != NUL
  }

  lemma {:induction false} NameRead(m: string, p: nat, name: string)
    requires NameAt(m, p, name)
    ensures CStr(m, p) == name
    decreases |name|
  {
    if name != "" {
      assert m[p] == m[p..p + |name|][0] == name[0];
      assert m[p + 1..p + |name|] == m[p..p + |name|][1..] == name[1..];
      NameRead(m, p + 1, name[1..]);
    }
  }

  // ----- Trees and their layout

  /** What is between the beginning and the end of a node: properties and nodes, in order. */
  datatype Items =
    | Nil
    | Prop(nameoff: nat, data: string, rest: Items)
    | Node(name: string, items: Items, next: Items)

  /** The address after the header of a node, after a property, or after the end of a node. */
  function AfterBegin(p: nat, name: string): nat {
    Align(p + 4 + |name| + 1)
  }

  function AfterProp(p: nat, data: string): nat {
    Align(p + 12 + |data|)
  }

  function AfterEnd(p: nat): nat {
    Align(p + 4)
  }

  /** The address after the items. */
  function End(items: Items, p: nat): (q: nat)
    ensures p <= q
  {
    match items
    case Nil => p
    case Prop(_, data, rest) => End(rest, AfterProp(p, data))
    case Node(name, inner, next) => End(next, AfterEnd(End(inner, AfterBegin(p, name))))
  }

  /** The items lie flattened at address p. */
  predicate Laid(m: string, p: nat, items: Items)
    decreases items
  {
    match items
    case Nil => true
    case Prop(nameoff, data, rest) =>
      && p + 12 + |data| <= |m| && Token(m, p, FDT_PROP)
      && ReadBe(m, p + 4) == |data| && ReadBe(m, p + 8) == nameoff && m[p + 12..p + 12 + |data|] == data
      && Laid(m, AfterProp(p, data), rest)
    case Node(name, inner, next) =>
      && Token(m, p, FDT_BEGIN_NODE) && NameAt(m, p + 4, name)
      && Laid(m, AfterBegin(p, name), inner)
      && Token(m, End(inner, AfterBegin(p, name)), FDT_END_NODE)
      && Laid(m, AfterEnd(End(inner, AfterBegin(p, name))), next)
  }

  /** How deeply nodes are nested. */
  function Depth(items: Items): nat {
    match items
    case Nil => 0
    case Prop(_, _, rest) => Depth(rest)
    case Node(_, inner, next) => if 1 + Depth(inner) < Depth(next) then Depth(next) else 1 + Depth(inner)
  }

  /** The blob holds the tree: its structure block is the root node and the end token. */
  predicate Blob(m: string, root: Items) {
    && 40 <= |m|
    && root.Node? && root.next.Nil?
    && Laid(m, StructBlock(m), root)
    && Token(m, End(root, StructBlock(m)), FDT_END)
  }

  function StructBlock(m: string): nat
    requires 40 <= |m|
  {
    ReadBe(m, 8)
  }

  /** dtb_read_str */
  function PropName(m: string, nameoff: nat): string
    requires 40 <= |m|
  {
    CStr(m, ReadBe(m, 12) + nameoff)
  }

  // ----- What a tree holds, in order

  datatype Event =
    | PropEvent(owner: Option<string>, depth: nat, nameoff: nat, at: nat)
    | NodeEvent(name: string, depth: nat, at: nat)

  /** The properties and nodes in the order of their beginnings, with the name of the node that a
    * property belongs to, and the number of nodes around. */
  function Events(items: Items, owner: Option<string>, depth: nat, p: nat): seq<Event> {
    match items
    case Nil => []
    case Prop(nameoff, data, rest) =>
      [PropEvent(owner, depth, nameoff, p)] + Events(rest, owner, depth, AfterProp(p, data))
    case Node(name, inner, next) =>
      [NodeEvent(name, depth, p)] + Events(inner, Some(name), depth + 1, AfterBegin(p, name))
        + Events(next, owner, depth, AfterEnd(End(inner, AfterBegin(p, name))))
  }

  /** The address of the first event that is wanted. */
  function First(es: seq<Event>, wanted: Event -> bool): Option<nat> {
    if es == [] then None
    else if wanted(es[0]) then Some(es[0].at)
    else First(es[1..], wanted)
  }

  ghost predicate IsFirst(es: seq<Event>, wanted: Event -> bool, k: nat) {
    k < |es| && wanted(es[k]) && forall j :: 0 <= j < k ==> !wanted(es[j])
  }

  /** It is the address of an event that is wanted, with none before it; there is none exactly when
    * nothing is wanted. */
  lemma {:induction false} FirstIsFirst(es: seq<Event>, wanted: Event -> bool) returns (k: nat)
    ensures First(es, wanted).None? <==> forall j :: 0 <= j < |es| ==> !wanted(es[j])
    ensures First(es, wanted).Some? ==> IsFirst(es, wanted, k) && es[k].at == First(es, wanted).value
    decreases |es|
  {
    k := 0;
    if es != [] && !wanted(es[0]) {
      var i := FirstIsFirst(es[1..], wanted);
      k := i + 1;
      assert forall j :: 0 < j < |es| ==> es[j] == es[1..][j - 1];
      assert forall j :: 0 <= j < |es| - 1 ==> es[j + 1] == es[1..][j];
    }
  }

  lemma {:induction false} FirstConcat(a: seq<Event>, b: seq<Event>, wanted: Event -> bool)
    ensures First(a + b, wanted) == if First(a, wanted).Some? then First(a, wanted) else First(b, wanted)
    decreases |a|
  {
    if a == [] {
      assert a + b == b;
    } else {
      assert (a + b)[1..] == a[1..] + b;
      FirstConcat(a[1..], b, wanted);
    }
  }

  /** A walk over the events, up to the first one that is wanted, never enters a node with 100 nodes
    * around it. */
  predicate HasRoom(es: seq<Event>, wanted: Event -> bool) {
    es == [] || ((es[0].NodeEvent? ==> es[0].depth < 100) && (wanted(es[0]) || HasRoom(es[1..], wanted)))
  }

  lemma {:induction false} ShallowHasRoom(es: seq<Event>, wanted: Event -> bool)
    requires forall k :: 0 <= k < |es| && es[k].NodeEvent? ==> es[k].depth < 100
    ensures HasRoom(es, wanted)
    decreases |es|
  {
    if es != [] {
      ShallowHasRoom(es[1..], wanted);
    }
  }

  /** In a tree of this depth no node has more nodes around it. */
  lemma {:induction false} EventDepths(items: Items, owner: Option<string>, depth: nat, p: nat, k: nat)
    requires k < |Events(items, owner, depth, p)| && Events(items, owner, depth, p)[k].NodeEvent?
    ensures Events(items, owner, depth, p)[k].depth < depth + Depth(items)
    decreases items
  {
    match items {
      case Nil =>
      case Prop(_, data, rest) => EventDepths(rest, owner, depth, AfterProp(p, data), k - 1);
      case Node(name, inner, next) =>
        var q := AfterBegin(p, name);
        var e := AfterEnd(End(inner, q));
        var below := Events(inner, Some(name), depth + 1, q);
        ThirdOf([NodeEvent(name, depth, p)], below, Events(next, owner, depth, e), k);
        if 0 < k <= |below| {
          EventDepths(inner, Some(name), depth + 1, q, k - 1);
        } else if k > 0 {
          EventDepths(next, owner, depth, e, k - 1 - |below|);
        }
    }
  }

  /** Every walk has room in a tree that is nested at most 100 deep. */
  lemma DepthHasRoom(root: Items, p: nat, wanted: Event -> bool)
    requires Depth(root) <= 100
    ensures HasRoom(Events(root, None, 0, p), wanted)
  {
    var es := Events(root, None, 0, p);
    forall k | 0 <= k < |es| && es[k].NodeEvent? ensures es[k].depth < 100 {
      EventDepths(root, None, 0, p, k);
    }
    ShallowHasRoom(es, wanted);
  }

  lemma ThirdOf(a: seq<Event>, b: seq<Event>, c: seq<Event>, k: nat)
    requires |a| == 1 && k < |a + b + c|
    ensures (a + b + c)[k] == if k == 0 then a[0] else if k - 1 < |b| then b[k - 1] else c[k - 1 - |b|]
  {
  }

  // ----- Where a walk stands

  /** A node that has been entered: what comes after it, and the name of the node around it. */
  datatype Frame = Frame(rest: Items, outer: Option<string>)

  /** A walk stands before these items, in the node of this name, having entered these nodes. */
  datatype Place = Place(items: Items, owner: Option<string>, frames: seq<Frame>)

  /** After the end of the innermost node. */
  function Left(w: Place): Place
    requires w.frames != []
  {
    var f := w.frames[|w.frames| - 1];
    Place(f.rest, f.outer, w.frames[..|w.frames| - 1])
  }

  /** Everything that is still ahead is laid out from p on. */
  predicate Ahead(m: string, p: nat, w: Place)
    decreases |w.frames|
  {
    && Laid(m, p, w.items)
    && (w.frames != [] ==>
          Token(m, End(w.items, p), FDT_END_NODE) && Ahead(m, AfterEnd(End(w.items, p)), Left(w)))
  }

  function EventsAhead(w: Place, p: nat): seq<Event>
    decreases |w.frames|
  {
    Events(w.items, w.owner, |w.frames|, p)
      + if w.frames == [] then [] else EventsAhead(Left(w), AfterEnd(End(w.items, p)))
  }

  function EndAhead(w: Place, p: nat): (q: nat)
    ensures p <= q
    decreases |w.frames|
  {
    if w.frames == [] then End(w.items, p) else EndAhead(Left(w), AfterEnd(End(w.items, p)))
  }

  /** The piece at p is a property. */
  lemma AtProp(m: string, p: nat, w: Place) returns (v: Place)
    requires Ahead(m, p, w) && w.items.Prop?
    ensures Token(m, p, FDT_PROP) && p + 12 <= |m| && ReadBe(m, p + 8) == w.items.nameoff
    ensures ReadBe(m, p + 4) == |w.items.data|
    ensures v == w.(items := w.items.rest)
    ensures var q := AfterProp(p, w.items.data);
            && Ahead(m, q, v) && EndAhead(v, q) == EndAhead(w, p)
            && EventsAhead(w, p) == [PropEvent(w.owner, |w.frames|, w.items.nameoff, p)] + EventsAhead(v, q)
  {
    v := w.(items := w.items.rest);
    assert w.frames != [] ==> Left(v) == Left(w);
  }

  /** At the beginning of the first item, a node. */
  function Entered(w: Place): Place
    requires w.items.Node?
  {
    Place(w.items.items, Some(w.items.name), w.frames + [Frame(w.items.next, w.owner)])
  }

  lemma LeftEntered(w: Place)
    requires w.items.Node?
    ensures |Entered(w).frames| == |w.frames| + 1 && Left(Entered(w)) == w.(items := w.items.next)
    ensures w.frames != [] ==> Left(Left(Entered(w))) == Left(w)
  {
    assert Entered(w).frames[..|w.frames|] == w.frames;
  }

  lemma EnteredEnd(p: nat, w: Place)
    requires w.items.Node?
    ensures EndAhead(Entered(w), AfterBegin(p, w.items.name)) == EndAhead(w, p)
  {
    LeftEntered(w);
  }

  lemma EnteredAhead(m: string, p: nat, w: Place)
    requires Ahead(m, p, w) && w.items.Node?
    ensures Ahead(m, AfterBegin(p, w.items.name), Entered(w))
  {
    LeftEntered(w);
  }

  lemma EnteredEvents(p: nat, w: Place)
    requires w.items.Node?
    ensures EventsAhead(w, p) == [NodeEvent(w.items.name, |w.frames|, p)] + EventsAhead(Entered(w), AfterBegin(p, w.items.name))
  {
    LeftEntered(w);
    var q := AfterBegin(p, w.items.name);
    var e := AfterEnd(End(w.items.items, q));
    EventsSplit(w, p);
    EventsSplit(w.(items := w.items.next), e);
    Regroup([NodeEvent(w.items.name, |w.frames|, p)], Events(w.items.items, Some(w.items.name), |w.frames| + 1, q),
            Events(w.items.next, w.owner, |w.frames|, e), EventsLater(w, p));
  }

  /** What comes after the items, in the nodes around them. */
  function EventsLater(w: Place, p: nat): seq<Event> {
    if w.frames == [] then [] else EventsAhead(Left(w), AfterEnd(End(w.items, p)))
  }

  lemma EventsSplit(w: Place, p: nat)
    ensures EventsAhead(w, p) == Events(w.items, w.owner, |w.frames|, p) + EventsLater(w, p)
  {
  }

  lemma Regroup<T>(a: seq<T>, b: seq<T>, c: seq<T>, d: seq<T>)
    ensures a + b + c + d == a + (b + (c + d))
  {
  }

  /** The piece at p is the beginning of a node. */
  lemma AtNode(m: string, p: nat, w: Place)
    requires Ahead(m, p, w) && w.items.Node?
    ensures Token(m, p, FDT_BEGIN_NODE) && CStr(m, p + 4) == w.items.name && p + 4 + |w.items.name| < |m|
    ensures var v, q := Entered(w), AfterBegin(p, w.items.name);
            && Ahead(m, q, v) && EndAhead(v, q) == EndAhead(w, p)
            && EventsAhead(w, p) == [NodeEvent(w.items.name, |w.frames|, p)] + EventsAhead(v, q)
  {
    NameRead(m, p + 4, w.items.name);
    EnteredAhead(m, p, w);
    EnteredEnd(p, w);
    EnteredEvents(p, w);
  }

  /** The piece at p is the end of a node. */
  lemma AtEnd(m: string, p: nat, w: Place)
    requires Ahead(m, p, w) && w.items.Nil? && w.frames != []
    ensures Token(m, p, FDT_END_NODE)
    ensures var v, q := Left(w), AfterEnd(p);
            && Ahead(m, q, v) && EndAhead(v, q) == EndAhead(w, p)
            && EventsAhead(w, p) == EventsAhead(v, q)
  {
  }

  // ----- Pieces

  /** fdt_structure_piece; the next piece is NULL at the end and for tokens that are not known. */
  datatype Piece = Piece(token: nat, next: Option<nat>)

  /** The piece at p can be read: its name ends, and its header is complete. */
  predicate Readable(m: string, p: nat) {
    && p + 4 <= |m|
    && (ReadBe(m, p) == FDT_BEGIN_NODE ==> p + 4 + |CStr(m, p + 4)| < |m|)
    && (ReadBe(m, p) == FDT_PROP ==> p + 12 <= |m|)
  }

  lemma {:induction false} CStrEnds(m: string, p: nat)
    ensures p + |CStr(m, p)| < |m| ==> m[p + |CStr(m, p)|] == NUL
    ensures forall k :: p <= k < p + |CStr(m, p)| && k < |m| ==> m[k] != NUL
    decreases |m| - p
  {
    if p < |m| && m[p] != NUL {
      CStrEnds(m, p + 1);
    }
  }

  function NextPiece(m: string, p: nat): Option<nat>
    requires p + 4 <= |m|
    requires ReadBe(m, p) == FDT_PROP ==> p + 8 <= |m|
  {
    var token := ReadBe(m, p);
    if token == FDT_BEGIN_NODE then Some(AfterBegin(p, CStr(m, p + 4)))
    else if token == FDT_END_NODE then Some(AfterEnd(p))
    else if token == FDT_PROP then Some(Align(p + 12 + ReadBe(m, p + 4)))
    else None
  }

  /** dtb_read_piece */
  method ReadPiece(m: string, p: nat) returns (piece: Piece)
    requires Readable(m, p)
    ensures piece == Piece(ReadBe(m, p), NextPiece(m, p))
  {
    var token := ReadBe(m, p);
    var next;
    if token == FDT_BEGIN_NODE {
      var ps := p + 4;
      CStrEnds(m, p + 4);
      while m[ps] != NUL
        invariant p + 4 <= ps <= p + 4 + |CStr(m, p + 4)| < |m|
        decreases |m| - ps
      {
        ps := ps + 1;
      }
      next := ps + 1;
    } else if token == FDT_END_NODE {
      next := p + 4;
    } else if token == FDT_PROP {
      next := p + 12 + ReadBe(m, p + 4);
    } else {
      return Piece(token, None);
    }
    return Piece(token, Some(Align(next)));
  }

  lemma FirstCons(e: Event, es: seq<Event>, wanted: Event -> bool)
    ensures First([e] + es, wanted) == if wanted(e) then Some(e.at) else First(es, wanted)
    ensures HasRoom([e] + es, wanted) <==>
      (e.NodeEvent? ==> e.depth < 100) && (wanted(e) || HasRoom(es, wanted))
  {
    assert ([e] + es)[1..] == es;
  }

  /** strcmp, which is 1 for strings that are equal */
  predicate Strcmp(s: string, t: string) {
    if s == "" then t == ""
    else t != "" && s[0] == t[0] && Strcmp(s[1..], t[1..])
  }

  lemma {:induction false} StrcmpIsEqual(s: string, t: string)
    ensures Strcmp(s, t) <==> s == t
  {
    if s != "" && t != "" {
      StrcmpIsEqual(s[1..], t[1..]);
      assert s == [s[0]] + s[1..] && t == [t[0]] + t[1..];
    }
  }

  // ----- One step of a walk

  predicate AtBottom(w: Place) {
    w.items.Nil? && w.frames == []
  }

  /** The token where the walk stands, what is there, and where the walk goes from there. */
  function TokenOf(w: Place): nat {
    match w.items
    case Nil => if w.frames == [] then FDT_END else FDT_END_NODE
    case Prop(_, _, _) => FDT_PROP
    case Node(_, _, _) => FDT_BEGIN_NODE
  }

  function EventHere(w: Place, p: nat): Option<Event> {
    match w.items
    case Nil => None
    case Prop(nameoff, _, _) => Some(PropEvent(w.owner, |w.frames|, nameoff, p))
    case Node(name, _, _) => Some(NodeEvent(name, |w.frames|, p))
  }

  function Onward(w: Place): Place
    requires !AtBottom(w)
  {
    match w.items
    case Nil => Left(w)
    case Prop(_, _, rest) => w.(items := rest)
    case Node(_, _, _) => Entered(w)
  }

  function After(w: Place, p: nat): nat {
    match w.items
    case Nil => AfterEnd(p)
    case Prop(_, data, _) => AfterProp(p, data)
    case Node(name, _, _) => AfterBegin(p, name)
  }

  /** The walk stands at p, and the first event that is wanted ahead of it is the answer. */
  ghost predicate Walking(m: string, p: nat, w: Place, end: nat, wanted: Event -> bool, answer: Option<nat>) {
    && Ahead(m, p, w) && EndAhead(w, p) == end
    && First(EventsAhead(w, p), wanted) == answer
  }

  lemma NodePiece(m: string, p: nat, w: Place)
    requires Ahead(m, p, w) && w.items.Node?
    ensures Readable(m, p) && ReadBe(m, p) == FDT_BEGIN_NODE && CStr(m, p + 4) == w.items.name
    ensures NextPiece(m, p) == Some(After(w, p))
  {
    NameRead(m, p + 4, w.items.name);
  }

  lemma PropPiece(m: string, p: nat, w: Place)
    requires Ahead(m, p, w) && w.items.Prop?
    ensures Readable(m, p) && ReadBe(m, p) == FDT_PROP && ReadBe(m, p + 8) == w.items.nameoff
    ensures NextPiece(m, p) == Some(After(w, p))
  {
  }

  lemma EndPiece(m: string, p: nat, w: Place)
    requires Ahead(m, p, w) && w.items.Nil? && w.frames != []
    ensures Readable(m, p) && ReadBe(m, p) == FDT_END_NODE && NextPiece(m, p) == Some(After(w, p))
  {
  }

  lemma PieceHere(m: string, p: nat, w: Place, end: nat)
    requires Ahead(m, p, w) && EndAhead(w, p) == end && (AtBottom(w) ==> Token(m, p, FDT_END))
    ensures Readable(m, p) && ReadBe(m, p) == TokenOf(w)
    ensures w.items.Prop? ==> ReadBe(m, p + 8) == w.items.nameoff
    ensures w.items.Node? ==> CStr(m, p + 4) == w.items.name
    ensures !AtBottom(w) ==> NextPiece(m, p) == Some(After(w, p))
    ensures p <= end
  {
    if w.items.Node? {
      NodePiece(m, p, w);
    } else if w.items.Prop? {
      PropPiece(m, p, w);
    } else if w.frames != [] {
      EndPiece(m, p, w);
    }
  }

  /** After one piece the walk goes on, unless the piece is wanted. */
  lemma Step(m: string, p: nat, w: Place, end: nat, wanted: Event -> bool, answer: Option<nat>)
    requires Walking(m, p, w, end, wanted, answer) && !AtBottom(w)
    ensures var e := EventHere(w, p);
            if e.Some? && wanted(e.value) then answer == Some(p)
            else Walking(m, After(w, p), Onward(w), end, wanted, answer)
  {
    match w.items {
      case Nil => AtEnd(m, p, w);
      case Prop(nameoff, data, rest) =>
        var v := AtProp(m, p, w);
        FirstCons(PropEvent(w.owner, |w.frames|, nameoff, p), EventsAhead(v, AfterProp(p, data)), wanted);
      case Node(name, _, _) =>
        AtNode(m, p, w);
        FirstCons(NodeEvent(name, |w.frames|, p), EventsAhead(Entered(w), AfterBegin(p, name)), wanted);
    }
  }

  lemma Bottom(m: string, p: nat, w: Place, end: nat, wanted: Event -> bool, answer: Option<nat>)
    requires Walking(m, p, w, end, wanted, answer) && AtBottom(w)
    ensures answer.None?
  {
  }

  lemma StartOfBlob(m: string, root: Items, wanted: Event -> bool) returns (w: Place)
    requires Blob(m, root)
    ensures w == Place(root, None, [])
    ensures var p := StructBlock(m);
            Walking(m, p, w, End(root, p), wanted, First(Events(root, None, 0, p), wanted))
  {
    w := Place(root, None, []);
    assert EventsAhead(w, StructBlock(m)) == Events(root, None, 0, StructBlock(m));
  }

  // ----- fdt_find_node

  predicate IsNode(e: Event, name: string) {
    e.NodeEvent? && e.name == name
  }

  /** The first node of this name. */
  method FdtFindNode(m: string, nodeName: string, ghost root: Items) returns (r: Option<nat>)
    requires Blob(m, root)
    ensures r == First(Events(root, None, 0, StructBlock(m)), e => IsNode(e, nodeName))
  {
    ghost var wanted := (e: Event) => IsNode(e, nodeName);
    ghost var end := End(root, StructBlock(m));
    ghost var w := StartOfBlob(m, root, wanted);
    ghost var answer := First(Events(root, None, 0, StructBlock(m)), wanted);
    r := None;
    var structBlock := Some(StructBlock(m));
    while structBlock.Some?
      invariant structBlock.Some? && Walking(m, structBlock.value, w, end, wanted, answer)
      decreases |m| - structBlock.value
    {
      var p := structBlock.value;
      PieceHere(m, p, w, end);
      var piece := ReadPiece(m, p);
      if piece.token == FDT_BEGIN_NODE {
        StrcmpIsEqual(CStr(m, p + 4), nodeName);
        if Strcmp(CStr(m, p + 4), nodeName) {
          Step(m, p, w, end, wanted, answer);
          return Some(p);
        }
      } else if piece.token == FDT_END {
        Bottom(m, p, w, end, wanted, answer);
        return None;
      }
      Step(m, p, w, end, wanted, answer);
      w := Onward(w);
      structBlock := piece.next;
    }
  }

  // ----- Walks that keep the names of the nodes around

  /** The walk is over one node, and every property in it belongs to a node. */
  predicate InNode(w: Place, root: Items) {
    && (w.frames == [] ==> w.owner.None? && (w.items == root || w.items == Nil))
    && (w.frames != [] ==> w.frames[0] == Frame(Nil, None) && w.owner.Some?)
    && forall i :: 0 < i < |w.frames| ==> w.frames[i].outer.Some?
  }

  predicate SingleNode(root: Items) {
    root.Node? && root.next.Nil?
  }

  lemma StaysInNode(w: Place, root: Items)
    requires SingleNode(root) && InNode(w, root) && !AtBottom(w)
    ensures InNode(Onward(w), root)
    ensures w.items.Nil? && |w.frames| == 1 ==> AtBottom(Left(w))
    ensures w.items.Prop? ==> w.owner.Some?
  {
  }

  /** A pointer to a name, or NULL. */
  predicate Names(m: string, pointer: Option<nat>, name: Option<string>) {
    if name.None? then pointer.None? else pointer.Some? && CStr(m, pointer.value) == name.value
  }

  /** A stop of a walk: where it is, the name of the node and those of the nodes around it, and, for the
    * walk from there on, the answer and whether the names of 100 nodes are enough. */
  datatype Stop = Stop(p: nat, owner: Option<string>, outers: seq<Option<string>>, answer: Option<nat>, room: bool)

  function Outers(frames: seq<Frame>): (r: seq<Option<string>>)
    ensures |r| == |frames|
  {
    seq(|frames|, i requires 0 <= i < |frames| => frames[i].outer)
  }

  function StopOf(w: Place, p: nat, wanted: Event -> bool): Stop {
    var es := EventsAhead(w, p);
    Stop(p, w.owner, Outers(w.frames), First(es, wanted), HasRoom(es, wanted))
  }

  /** The piece at one stop leads to the next. */
  ghost predicate Leads(m: string, wanted: Event -> bool, s: Stop, t: Stop) {
    && Readable(m, s.p) && NextPiece(m, s.p) == Some(t.p) && s.p < t.p
    && match ReadBe(m, s.p)
       case 1 =>
         && LeadsOn(wanted, s, t, NodeEvent(CStr(m, s.p + 4), |s.outers|, s.p))
         && t.outers == s.outers + [s.owner] && t.owner == Some(CStr(m, s.p + 4))
       case 2 =>
         && |s.outers| > 0 && t.outers == s.outers[..|s.outers| - 1] && t.owner == s.outers[|s.outers| - 1]
         && t.answer == s.answer && t.room == s.room && (|s.outers| == 1 ==> t.answer.None?)
       case 3 =>
         && LeadsOn(wanted, s, t, PropEvent(s.owner, |s.outers|, ReadBe(m, s.p + 8), s.p))
         && s.owner.Some? && t.outers == s.outers && t.owner == s.owner
       case _ => false
  }

  ghost predicate LeadsOn(wanted: Event -> bool, s: Stop, t: Stop, e: Event) {
    && (if wanted(e) then s.answer == Some(s.p) else t.answer == s.answer)
    && (s.room <==> (e.NodeEvent? ==> e.depth < 100) && (wanted(e) || t.room))
  }

  ghost predicate LeadsAt(m: string, wanted: Event -> bool, stops: seq<Stop>, k: nat)
    requires k + 1 < |stops|
  {
    Leads(m, wanted, stops[k], stops[k + 1])
  }

  /** The stops of a walk, one after the other. */
  ghost predicate Trip(m: string, wanted: Event -> bool, stops: seq<Stop>) {
    |stops| > 0 && forall k :: 0 <= k < |stops| - 1 ==> LeadsAt(m, wanted, stops, k)
  }

  lemma TripCons(m: string, wanted: Event -> bool, s: Stop, stops: seq<Stop>)
    requires Trip(m, wanted, stops) && Leads(m, wanted, s, stops[0])
    ensures Trip(m, wanted, [s] + stops)
  {
    var all := [s] + stops;
    forall k | 0 <= k < |all| - 1 ensures LeadsAt(m, wanted, all, k) {
      assert k > 0 ==> LeadsAt(m, wanted, stops, k - 1);
    }
  }

  lemma OnwardKeeps(m: string, p: nat, w: Place, root: Items)
    requires Ahead(m, p, w) && !AtBottom(w) && SingleNode(root) && InNode(w, root)
    ensures Ahead(m, After(w, p), Onward(w)) && EndAhead(Onward(w), After(w, p)) == EndAhead(w, p)
    ensures InNode(Onward(w), root) && p < After(w, p)
  {
    StaysInNode(w, root);
    match w.items {
      case Nil => AtEnd(m, p, w);
      case Prop(_, _, _) => var _ := AtProp(m, p, w);
      case Node(_, _, _) => AtNode(m, p, w);
    }
  }

  lemma NodeAnswer(p: nat, w: Place, wanted: Event -> bool)
    requires w.items.Node?
    ensures LeadsOn(wanted, StopOf(w, p, wanted), StopOf(Entered(w), After(w, p), wanted),
                    NodeEvent(w.items.name, |w.frames|, p))
  {
    EnteredEvents(p, w);
    FirstCons(NodeEvent(w.items.name, |w.frames|, p), EventsAhead(Entered(w), After(w, p)), wanted);
  }

  lemma OutersEntered(w: Place)
    requires w.items.Node?
    ensures Outers(Entered(w).frames) == Outers(w.frames) + [w.owner]
  {
  }

  lemma NodeLeads(m: string, p: nat, w: Place, wanted: Event -> bool)
    requires Ahead(m, p, w) && w.items.Node?
    ensures Leads(m, wanted, StopOf(w, p, wanted), StopOf(Entered(w), After(w, p), wanted))
  {
    NodePiece(m, p, w);
    NodeAnswer(p, w, wanted);
    OutersEntered(w);
  }

  lemma PropLeads(m: string, p: nat, w: Place, wanted: Event -> bool)
    requires Ahead(m, p, w) && w.items.Prop? && w.owner.Some?
    ensures Leads(m, wanted, StopOf(w, p, wanted), StopOf(Onward(w), After(w, p), wanted))
  {
    var v := AtProp(m, p, w);
    FirstCons(PropEvent(w.owner, |w.frames|, w.items.nameoff, p), EventsAhead(v, After(w, p)), wanted);
  }

  lemma EndLeads(m: string, p: nat, w: Place, wanted: Event -> bool)
    requires Ahead(m, p, w) && w.items.Nil? && w.frames != []
    requires |w.frames| == 1 ==> AtBottom(Left(w))
    ensures Leads(m, wanted, StopOf(w, p, wanted), StopOf(Left(w), After(w, p), wanted))
  {
    AtEnd(m, p, w);
    OutersLeft(w);
    if |w.frames| == 1 {
      NothingAhead(Left(w), After(w, p), wanted);
    }
  }

  lemma NothingAhead(w: Place, p: nat, wanted: Event -> bool)
    requires AtBottom(w)
    ensures First(EventsAhead(w, p), wanted).None? && HasRoom(EventsAhead(w, p), wanted) && EndAhead(w, p) == p
  {
  }

  /** One step of the walk, as stops. */
  lemma StepLeads(m: string, p: nat, w: Place, wanted: Event -> bool, root: Items)
    requires Ahead(m, p, w) && !AtBottom(w) && SingleNode(root) && InNode(w, root)
    ensures Leads(m, wanted, StopOf(w, p, wanted), StopOf(Onward(w), After(w, p), wanted))
  {
    StaysInNode(w, root);
    match w.items {
      case Nil => EndLeads(m, p, w, wanted);
      case Prop(_, _, _) => PropLeads(m, p, w, wanted);
      case Node(_, _, _) => NodeLeads(m, p, w, wanted);
    }
  }

  lemma OutersLeft(w: Place)
    requires w.frames != []
    ensures var os := Outers(w.frames);
            Outers(Left(w).frames) == os[..|os| - 1] && Left(w).owner == os[|os| - 1]
  {
  }

  /** The stops from p to the end of the node. */
  lemma {:induction false} MakeTrip(m: string, p: nat, w: Place, wanted: Event -> bool, root: Items) returns (stops: seq<Stop>)
    requires Ahead(m, p, w) && SingleNode(root) && InNode(w, root)
    ensures Trip(m, wanted, stops) && stops[0] == StopOf(w, p, wanted)
    ensures stops[|stops| - 1].p == EndAhead(w, p)
    ensures var last := stops[|stops| - 1]; last.answer.None? && last.outers == [] && last.room
    ensures !AtBottom(w) ==> |stops| > 1
    decreases EndAhead(w, p) - p
  {
    if AtBottom(w) {
      NothingAhead(w, p, wanted);
      stops := [StopOf(w, p, wanted)];
    } else {
      StepLeads(m, p, w, wanted, root);
      OnwardKeeps(m, p, w, root);
      var rest := MakeTrip(m, After(w, p), Onward(w), wanted, root);
      TripCons(m, wanted, StopOf(w, p, wanted), rest);
      stops := [StopOf(w, p, wanted)] + rest;
    }
  }

  /** The stack holds the names of the nodes around the current one. */
  ghost predicate StackRight(m: string, stack: seq<Option<nat>>, depth: nat, current: Option<nat>, s: Stop) {
    && depth == |s.outers| <= |stack| && Names(m, current, s.owner)
    && forall i :: 0 <= i < depth ==> StackRightAt(m, stack, s.outers, i)
  }

  ghost predicate StackRightAt(m: string, stack: seq<Option<nat>>, outers: seq<Option<string>>, i: nat)
    requires i < |stack| && i < |outers|
  {
    Names(m, stack[i], outers[i])
  }

  lemma TripOfNode(m: string, node: nat, root: Items, wanted: Event -> bool) returns (stops: seq<Stop>)
    requires SingleNode(root) && Laid(m, node, root)
    ensures Trip(m, wanted, stops)
    ensures var es := Events(root, None, 0, node);
      stops[0] == Stop(node, None, [], First(es, wanted), HasRoom(es, wanted))
    ensures stops[|stops| - 1].p == End(root, node)
    ensures |stops| > 1
    ensures var last := stops[|stops| - 1]; last.answer.None? && last.outers == [] && last.room
  {
    var w := Place(root, None, []);
    assert EventsAhead(w, node) == Events(root, None, 0, node);
    stops := MakeTrip(m, node, w, wanted, root);
  }

  /** Reads the piece at the k-th stop: what it says about the next one. */
  method ReadPieceOfTrip(m: string, p: nat, ghost wanted: Event -> bool, ghost stops: seq<Stop>, ghost k: nat)
    returns (piece: Piece, ghost s: Stop, ghost t: Stop)
    requires Trip(m, wanted, stops) && k < |stops| && p == stops[k].p
    requires k == |stops| - 1 ==> Token(m, p, FDT_END)
    ensures s == stops[k] && piece.token in {FDT_BEGIN_NODE, FDT_END_NODE, FDT_PROP, FDT_END}
    ensures piece.token == FDT_END ==> k == |stops| - 1
    ensures piece.token != FDT_END ==> k + 1 < |stops| && t == stops[k + 1] && piece.next == Some(t.p)
    ensures piece.token == FDT_BEGIN_NODE ==>
      && LeadsOn(wanted, s, t, NodeEvent(CStr(m, p + 4), |s.outers|, p))
      && t.outers == s.outers + [s.owner] && t.owner == Some(CStr(m, p + 4))
    ensures piece.token == FDT_END_NODE ==>
      && |s.outers| > 0 && t.outers == s.outers[..|s.outers| - 1] && t.owner == s.outers[|s.outers| - 1]
      && t.answer == s.answer && t.room == s.room && (|s.outers| == 1 ==> t.answer.None?)
    ensures piece.token == FDT_PROP ==>
      && p + 12 <= |m| && LeadsOn(wanted, s, t, PropEvent(s.owner, |s.outers|, ReadBe(m, p + 8), p))
      && s.owner.Some? && t.outers == s.outers && t.owner == s.owner
  {
    s, t := stops[k], stops[k];
    if k < |stops| - 1 {
      assert LeadsAt(m, wanted, stops, k);
      t := stops[k + 1];
    }
    piece := ReadPiece(m, p);
  }

  /** At the k-th stop of the trip, with this many nodes around. */
  ghost predicate AtStop(stops: seq<Stop>, k: nat, p: nat, depth: nat, answer: Option<nat>) {
    && k < |stops| - 1
    && stops[k].p == p && |stops[k].outers| == depth && stops[k].answer == answer && stops[k].room
    && (k == 0 ==> stops[k].owner.None?) && (k > 0 ==> depth > 0)
  }

  /** Nothing wanted lies before the k-th stop. */
  ghost predicate Visited(m: string, wanted: Event -> bool, stops: seq<Stop>, k: nat) {
    k < |stops| && forall j :: 0 <= j < k ==> !WantedAt(m, wanted, stops[j])
  }

  ghost predicate WantedAt(m: string, wanted: Event -> bool, s: Stop) {
    && Readable(m, s.p)
    && match ReadBe(m, s.p)
       case 1 => wanted(NodeEvent(CStr(m, s.p + 4), |s.outers|, s.p))
       case 3 => wanted(PropEvent(s.owner, |s.outers|, ReadBe(m, s.p + 8), s.p))
       case _ => false
  }

  /** At this stop the walk would store the 101st name. */
  ghost predicate Overflows(m: string, s: Stop) {
    Readable(m, s.p) && ReadBe(m, s.p) == FDT_BEGIN_NODE && 100 <= |s.outers|
  }

  /** The walk has room exactly when it does not store a 101st name before it stops, however deep the
    * rest of the tree may be. */
  lemma {:induction false} HasRoomExactly(m: string, wanted: Event -> bool, stops: seq<Stop>)
    requires Trip(m, wanted, stops) && stops[|stops| - 1].room
    ensures stops[0].room <==>
      forall k: nat :: k < |stops| - 1 && Visited(m, wanted, stops, k) ==> !Overflows(m, stops[k])
    decreases |stops|
  {
    var n := |stops| - 1;
    if n > 0 {
      assert LeadsAt(m, wanted, stops, 0);
      assert Visited(m, wanted, stops, 0);
      var rest := stops[1..];
      assert Trip(m, wanted, rest) by {
        forall k | 0 <= k < |rest| - 1 ensures LeadsAt(m, wanted, rest, k) {
          assert LeadsAt(m, wanted, stops, k + 1);
        }
      }
      HasRoomExactly(m, wanted, rest);
      if !WantedAt(m, wanted, stops[0]) {
        forall k: nat | k < n ensures Visited(m, wanted, rest, k) <==> Visited(m, wanted, stops, k + 1) {
          assert forall j :: 0 < j <= k ==> stops[j] == rest[j - 1];
          assert forall j :: 0 <= j < k ==> rest[j] == stops[j + 1];
        }
        assert forall k: nat :: k < n ==> rest[k] == stops[k + 1];
      }
    }
  }

  /** The walk over a node stays inside its stack of 100 names exactly when the tree has room: the stops
    * follow the pieces from the beginning of the node to its end. */
  lemma NamestackExactly(m: string, node: nat, root: Items, wanted: Event -> bool) returns (stops: seq<Stop>)
    requires SingleNode(root) && Laid(m, node, root)
    ensures Trip(m, wanted, stops) && |stops| > 1
    ensures stops[0].p == node && stops[0].outers == [] && stops[|stops| - 1].p == End(root, node)
    ensures HasRoom(Events(root, None, 0, node), wanted) <==>
      forall k: nat :: k < |stops| - 1 && Visited(m, wanted, stops, k) ==> !Overflows(m, stops[k])
  {
    stops := TripOfNode(m, node, root, wanted);
    HasRoomExactly(m, wanted, stops);
  }

  // ----- fdt_read_node

  /** The first node of this name that begins in the node, which includes the node itself. */
  method FdtReadNode(m: string, node: nat, nodeName: string, ghost root: Items) returns (r: Option<nat>)
    requires SingleNode(root) && Laid(m, node, root)
    requires HasRoom(Events(root, None, 0, node), e => IsNode(e, nodeName))
    ensures r == First(Events(root, None, 0, node), e => IsNode(e, nodeName))
  {
    ghost var wanted := (e: Event) => IsNode(e, nodeName);
    ghost var stops := TripOfNode(m, node, root, wanted);
    ghost var answer, k := stops[0].answer, 0;
    r := None;
    var structBlock, currentNode: Option<nat> := Some(node), None;
    var namestack, depth := new Option<nat>[100](_ => None), 0;
    while structBlock.Some?
      invariant structBlock.Some? && depth <= 100 && AtStop(stops, k, structBlock.value, depth, answer)
      decreases |stops| - k
    {
      var p := structBlock.value;
      var piece;
      ghost var s, t;
      piece, s, t := ReadPieceOfTrip(m, p, wanted, stops, k);
      if piece.token == FDT_BEGIN_NODE {
        namestack[depth] := currentNode;
        depth := depth + 1;
        currentNode := Some(p + 4);
        StrcmpIsEqual(nodeName, CStr(m, p + 4));
        if Strcmp(nodeName, CStr(m, p + 4)) {
          return Some(p);
        }
      } else if piece.token == FDT_END_NODE {
        if depth == 1 {
          return None;
        }
        depth := depth - 1;
        currentNode := namestack[depth];
      }
      k := k + 1;
      structBlock := piece.next;
    }
  }

  // ----- fdt_read_prop

  predicate IsOwnProp(m: string, e: Event, propName: string) {
    40 <= |m| && e.PropEvent? && e.depth == 1 && PropName(m, e.nameoff) == propName
  }

  /** The first property of this name among the items themselves, not those in nodes below. */
  function FirstOwn(m: string, items: Items, propName: string, p: nat): Option<nat>
    requires 40 <= |m|
  {
    match items
    case Nil => None
    case Prop(nameoff, data, rest) =>
      if PropName(m, nameoff) == propName then Some(p) else FirstOwn(m, rest, propName, AfterProp(p, data))
    case Node(name, inner, next) => FirstOwn(m, next, propName, AfterEnd(End(inner, AfterBegin(p, name))))
  }

  lemma {:induction false} NoneBelow(m: string, items: Items, owner: Option<string>, depth: nat, propName: string, p: nat)
    requires 40 <= |m| && 1 < depth
    ensures First(Events(items, owner, depth, p), e => IsOwnProp(m, e, propName)).None?
    decreases items
  {
    var wanted := (e: Event) => IsOwnProp(m, e, propName);
    match items {
      case Nil =>
      case Prop(nameoff, data, rest) =>
        NoneBelow(m, rest, owner, depth, propName, AfterProp(p, data));
        FirstCons(PropEvent(owner, depth, nameoff, p), Events(rest, owner, depth, AfterProp(p, data)), wanted);
      case Node(name, inner, next) =>
        var q := AfterBegin(p, name);
        var e := AfterEnd(End(inner, q));
        NoneBelow(m, inner, Some(name), depth + 1, propName, q);
        NoneBelow(m, next, owner, depth, propName, e);
        NodeFirst(items, owner, depth, p, wanted);
    }
  }

  /** The first event of a node and what comes after it, for events that are not nodes. */
  lemma NodeFirst(items: Items, owner: Option<string>, depth: nat, p: nat, wanted: Event -> bool)
    requires items.Node? && !wanted(NodeEvent(items.name, depth, p))
    ensures var q := AfterBegin(p, items.name);
            var r := First(Events(items.items, Some(items.name), depth + 1, q), wanted);
            First(Events(items, owner, depth, p), wanted) ==
            if r.Some? then r else First(Events(items.next, owner, depth, AfterEnd(End(items.items, q))), wanted)
  {
    var q := AfterBegin(p, items.name);
    var below, rest := Events(items.items, Some(items.name), depth + 1, q), Events(items.next, owner, depth, AfterEnd(End(items.items, q)));
    assert Events(items, owner, depth, p) == [NodeEvent(items.name, depth, p)] + (below + rest);
    FirstCons(NodeEvent(items.name, depth, p), below + rest, wanted);
    FirstConcat(below, rest, wanted);
  }

  lemma {:induction false} OwnAreAtDepthOne(m: string, items: Items, owner: Option<string>, propName: string, p: nat)
    requires 40 <= |m|
    ensures First(Events(items, owner, 1, p), e => IsOwnProp(m, e, propName)) == FirstOwn(m, items, propName, p)
    decreases items
  {
    var wanted := (e: Event) => IsOwnProp(m, e, propName);
    match items {
      case Nil =>
      case Prop(nameoff, data, rest) =>
        OwnAreAtDepthOne(m, rest, owner, propName, AfterProp(p, data));
        FirstCons(PropEvent(owner, 1, nameoff, p), Events(rest, owner, 1, AfterProp(p, data)), wanted);
      case Node(name, inner, next) =>
        var q := AfterBegin(p, name);
        NoneBelow(m, inner, Some(name), 2, propName, q);
        OwnAreAtDepthOne(m, next, owner, propName, AfterEnd(End(inner, q)));
        NodeFirst(items, owner, 1, p, wanted);
    }
  }

  /** The walk finds a property of the node itself, never one of a node below it. */
  lemma OnlyOwn(m: string, node: nat, root: Items, propName: string)
    requires 40 <= |m| && SingleNode(root)
    ensures First(Events(root, None, 0, node), e => IsOwnProp(m, e, propName))
         == FirstOwn(m, root.items, propName, AfterBegin(node, root.name))
  {
    OwnAreAtDepthOne(m, root.items, Some(root.name), propName, AfterBegin(node, root.name));
    NodeFirst(root, None, 0, node, e => IsOwnProp(m, e, propName));
    var q := AfterEnd(End(root.items, AfterBegin(node, root.name)));
    assert Events(root.next, None, 0, q) == [];
  }

  /** The first property of this name that belongs to the node itself. */
  method FdtReadProp(m: string, node: nat, propName: string, ghost root: Items) returns (r: Option<nat>)
    requires 40 <= |m| && SingleNode(root) && Laid(m, node, root)
    requires HasRoom(Events(root, None, 0, node), e => IsOwnProp(m, e, propName))
    ensures r == FirstOwn(m, root.items, propName, AfterBegin(node, root.name))
  {
    ghost var wanted := (e: Event) => IsOwnProp(m, e, propName);
    ghost var stops := TripOfNode(m, node, root, wanted);
    OnlyOwn(m, node, root, propName);
    ghost var answer, k := stops[0].answer, 0;
    r := None;
    var structBlock, currentNode: Option<nat> := Some(node), None;
    var namestack, depth := new Option<nat>[100](_ => None), 0;
    while structBlock.Some?
      invariant structBlock.Some? && depth <= 100 && AtStop(stops, k, structBlock.value, depth, answer)
      decreases |stops| - k
    {
      var p := structBlock.value;
      var piece;
      ghost var s, t;
      piece, s, t := ReadPieceOfTrip(m, p, wanted, stops, k);
      if piece.token == FDT_BEGIN_NODE {
        namestack[depth] := currentNode;
        depth := depth + 1;
        currentNode := Some(p + 4);
      } else if piece.token == FDT_END_NODE {
        if depth == 1 {
          return None;
        }
        depth := depth - 1;
        currentNode := namestack[depth];
      } else if piece.token == FDT_PROP {
        var prop := PropName(m, ReadBe(m, p + 8));
        StrcmpIsEqual(prop, propName);
        if depth == 1 && Strcmp(prop, propName) {
          return Some(p);
        }
      }
      k := k + 1;
      structBlock := piece.next;
    }
  }

  // ----- fdt_find_prop

  predicate IsProp(m: string, e: Event, nodeName: string, propName: string) {
    40 <= |m| && e.PropEvent? && e.owner == Some(nodeName) && PropName(m, e.nameoff) == propName
  }

  lemma StackEntered(m: string, stack: seq<Option<nat>>, depth: nat, current: Option<nat>, s: Stop, t: Stop)
    requires StackRight(m, stack, depth, current, s) && depth < |stack|
    requires t.outers == s.outers + [s.owner] && t.owner == Some(CStr(m, s.p + 4))
    ensures StackRight(m, stack[depth := current], depth + 1, Some(s.p + 4), t)
  {
    var pushed := stack[depth := current];
    forall i | 0 <= i < depth + 1 ensures StackRightAt(m, pushed, t.outers, i) {
      assert i < depth ==> StackRightAt(m, stack, s.outers, i);
    }
  }

  lemma StackLeft(m: string, stack: seq<Option<nat>>, depth: nat, current: Option<nat>, s: Stop, t: Stop)
    requires StackRight(m, stack, depth, current, s) && depth > 0
    requires t.outers == s.outers[..depth - 1] && t.owner == s.outers[depth - 1]
    ensures StackRight(m, stack, depth - 1, stack[depth - 1], t)
  {
    assert StackRightAt(m, stack, s.outers, depth - 1);
    forall i | 0 <= i < depth - 1 ensures StackRightAt(m, stack, t.outers, i) {
      assert StackRightAt(m, stack, s.outers, i);
    }
  }

  lemma StackSame(m: string, stack: seq<Option<nat>>, depth: nat, current: Option<nat>, s: Stop, t: Stop)
    requires StackRight(m, stack, depth, current, s) && t.outers == s.outers && t.owner == s.owner
    ensures StackRight(m, stack, depth, current, t)
  {
  }

  method PropMatches(m: string, p: nat, currentNode: nat, nodeName: string, propName: string) returns (found: bool)
    requires p + 12 <= |m| && 40 <= |m|
    ensures found == (CStr(m, currentNode) == nodeName && PropName(m, ReadBe(m, p + 8)) == propName)
  {
    var prop := PropName(m, ReadBe(m, p + 8));
    StrcmpIsEqual(CStr(m, currentNode), nodeName);
    StrcmpIsEqual(propName, prop);
    found := Strcmp(CStr(m, currentNode), nodeName) && Strcmp(propName, prop);
  }

  /** The first property of this name that belongs to a node of that name. */
  method FdtFindProp(m: string, nodeName: string, propName: string, ghost root: Items) returns (r: Option<nat>)
    requires Blob(m, root)
    requires HasRoom(Events(root, None, 0, StructBlock(m)), e => IsProp(m, e, nodeName, propName))
    ensures r == First(Events(root, None, 0, StructBlock(m)), e => IsProp(m, e, nodeName, propName))
  {
    ghost var wanted := (e: Event) => IsProp(m, e, nodeName, propName);
    ghost var stops := TripOfNode(m, StructBlock(m), root, wanted);
    ghost var answer, k := stops[0].answer, 0;
    r := None;
    var structBlock, currentNode: Option<nat> := Some(StructBlock(m)), None;
    var namestack, depth := new Option<nat>[100](_ => None), 0;
    ghost var stack := namestack[..];
    while structBlock.Some?
      invariant structBlock.Some? && k < |stops| && stops[k].p == structBlock.value && stops[k].answer == answer && stops[k].room
      invariant namestack[..] == stack && StackRight(m, stack, depth, currentNode, stops[k])
      decreases |stops| - k
    {
      var p := structBlock.value;
      var piece;
      ghost var s, t;
      piece, s, t := ReadPieceOfTrip(m, p, wanted, stops, k);
      if piece.token == FDT_BEGIN_NODE {
        StackEntered(m, stack, depth, currentNode, s, t);
        stack := stack[depth := currentNode];
        namestack[depth] := currentNode;
        depth := depth + 1;
        currentNode := Some(p + 4);
      } else if piece.token == FDT_END_NODE {
        StackLeft(m, stack, depth, currentNode, s, t);
        depth := depth - 1;
        currentNode := namestack[depth];
      } else if piece.token == FDT_PROP {
        StackSame(m, stack, depth, currentNode, s, t);
        var found := PropMatches(m, p, currentNode.value, nodeName, propName);
        if found {
          return Some(p);
        }
      } else {
        return None;
      }
      k := k + 1;
      structBlock := piece.next;
    }
  }

  // ----- Nodes that have been found can be walked

  /** The node that begins with this event is laid out at its address. */
  ghost predicate Found(m: string, e: Event, node: Items, depth: nat) {
    SingleNode(node) && e.NodeEvent? && node.name == e.name && Laid(m, e.at, node) && Depth(node) <= depth
  }

  lemma FoundDeeper(m: string, e: Event, node: Items, depth: nat, more: nat)
    requires Found(m, e, node, depth) && depth <= more
    ensures Found(m, e, node, more)
  {
  }

  lemma FoundHere(m: string, p: nat, items: Items, depth: nat)
    requires Laid(m, p, items) && items.Node?
    ensures Found(m, NodeEvent(items.name, depth, p), Node(items.name, items.items, Nil), Depth(items))
  {
  }

  /** Every node among the events is laid out where it was found, so that it can be given to
    * fdt_read_node and fdt_read_prop. */
  lemma {:induction false} FoundIsLaid(m: string, items: Items, owner: Option<string>, depth: nat, p: nat, k: nat)
    returns (node: Items)
    requires Laid(m, p, items) && k < |Events(items, owner, depth, p)| && Events(items, owner, depth, p)[k].NodeEvent?
    ensures Found(m, Events(items, owner, depth, p)[k], node, Depth(items))
    decreases items
  {
    if items.Prop? {
      node := FoundIsLaid(m, items.rest, owner, depth, AfterProp(p, items.data), k - 1);
    } else {
      node := FoundInNode(m, items, owner, depth, p, k);
    }
  }

  lemma {:induction false} FoundInNode(m: string, items: Items, owner: Option<string>, depth: nat, p: nat, k: nat)
    returns (node: Items)
    requires Laid(m, p, items) && items.Node?
    requires k < |Events(items, owner, depth, p)| && Events(items, owner, depth, p)[k].NodeEvent?
    ensures Found(m, Events(items, owner, depth, p)[k], node, Depth(items))
    decreases items, 0
  {
    var q := AfterBegin(p, items.name);
    var e := AfterEnd(End(items.items, q));
    var below, rest := Events(items.items, Some(items.name), depth + 1, q), Events(items.next, owner, depth, e);
    ThirdOf([NodeEvent(items.name, depth, p)], below, rest, k);
    if k == 0 {
      FoundHere(m, p, items, depth);
      node := Node(items.name, items.items, Nil);
    } else if k - 1 < |below| {
      node := FoundIsLaid(m, items.items, Some(items.name), depth + 1, q, k - 1);
      FoundDeeper(m, below[k - 1], node, Depth(items.items), Depth(items));
    } else {
      node := FoundIsLaid(m, items.next, owner, depth, e, k - 1 - |below|);
      FoundDeeper(m, rest[k - 1 - |below|], node, Depth(items.next), Depth(items));
    }
  }

  // ----- Flattening

  function Padding(n: nat): (z: string)
    ensures |z| == Gap(n)
  {
    seq(Gap(n), _ => NUL)
  }

  function FlatProp(nameoff: nat, data: string): string {
    Int(FDT_PROP) + (Int(|data|) + (Int(nameoff) + (data + Padding(|data|))))
  }

  function FlatBegin(name: string): string {
    Int(FDT_BEGIN_NODE) + (name + ([NUL] + Padding(|name| + 1)))
  }

  /** A tree as a sequence of tokens: section 5.4 of the Devicetree Specification v0.4. */
  function Flat(items: Items): string {
    match items
    case Nil => ""
    case Prop(nameoff, data, rest) => FlatProp(nameoff, data) + Flat(rest)
    case Node(name, inner, next) => FlatBegin(name) + (Flat(inner) + (Int(FDT_END_NODE) + Flat(next)))
  }

  /** Names are C strings, and lengths and offsets fit in 32 bits. */
  predicate Fits(items: Items) {
    match items
    case Nil => true
    case Prop(nameoff, data, rest) => nameoff < U32 && |data| < U32 && Fits(rest)
    case Node(name, inner, next) => (forall k :: 0 <= k < |name| ==> name[k] != NUL) && Fits(inner) && Fits(next)
  }

  predicate Holds(m: string, p: nat, b: string) {
    p + |b| <= |m| && forall i :: 0 <= i < |b| ==> b[i] == m[p + i]
  }

  lemma HoldsParts(m: string, p: nat, a: string, b: string)
    requires Holds(m, p, a + b)
    ensures Holds(m, p, a) && Holds(m, p + |a|, b)
  {
    assert forall i :: 0 <= i < |a| ==> (a + b)[i] == a[i];
    forall i | 0 <= i < |b| ensures b[i] == m[p + |a| + i] {
      assert (a + b)[|a| + i] == b[i];
    }
  }

  lemma IntRead(m: string, p: nat, v: nat)
    requires Holds(m, p, Int(v)) && v < U32
    ensures Token(m, p, v)
  {
    var b := Int(v);
    assert m[p] == b[0] && m[p + 1] == b[1] && m[p + 2] == b[2] && m[p + 3] == b[3];
    IntDigits(v);
  }

  lemma IntDigits(v: nat)
    requires v < U32
    ensures var b := Int(v); U8(b[0]) * 0x100_0000 + U8(b[1]) * 0x1_0000 + U8(b[2]) * 0x100 + U8(b[3]) == v
  {
    var d3, d2, d1, d0 := v % 256, v / 256 % 256, v / 256 / 256 % 256, v / 256 / 256 / 256 % 256;
    assert BigEndian(v / 256 / 256 / 256, 1) == [d0 as char];
    assert BigEndian(v / 256 / 256, 2) == [d0 as char, d1 as char];
    assert BigEndian(v / 256, 3) == [d0 as char, d1 as char, d2 as char];
    assert Int(v) == [d0 as char, d1 as char, d2 as char, d3 as char];
  }

  lemma Padded(p: nat, n: nat)
    requires Aligned(p)
    ensures Align(p + n) == p + n + |Padding(n)| && Aligned(Align(p + n))
  {
    GapAfter(p, n);
    AlignAligns(p + n);
  }

  function Size(items: Items): nat {
    match items
    case Nil => 0
    case Prop(_, _, rest) => 1 + Size(rest)
    case Node(_, inner, next) => 1 + Size(inner) + Size(next)
  }

  /** The flattening of a tree is laid out wherever it is stored. */
  lemma {:induction false} FlatIsLaid(m: string, p: nat, items: Items)
    requires Aligned(p) && Fits(items) && Holds(m, p, Flat(items))
    ensures Laid(m, p, items) && End(items, p) == p + |Flat(items)| && Aligned(End(items, p))
    decreases Size(items), 1
  {
    if items.Prop? {
      FlatPropIsLaid(m, p, items);
    } else if items.Node? {
      FlatNodeIsLaid(m, p, items);
    }
  }

  lemma {:induction false} FlatPropIsLaid(m: string, p: nat, items: Items)
    requires Aligned(p) && items.Prop? && Fits(items) && Holds(m, p, Flat(items))
    ensures Laid(m, p, items) && End(items, p) == p + |Flat(items)| && Aligned(End(items, p))
    decreases Size(items), 0
  {
    PropAndRest(m, p, items.nameoff, items.data, items.rest);
    FlatIsLaid(m, AfterProp(p, items.data), items.rest);
  }

  lemma PropAndRest(m: string, p: nat, nameoff: nat, data: string, rest: Items)
    requires Aligned(p) && nameoff < U32 && |data| < U32 && Holds(m, p, Flat(Prop(nameoff, data, rest)))
    ensures p + 12 + |data| <= |m| && Token(m, p, FDT_PROP)
    ensures ReadBe(m, p + 4) == |data| && ReadBe(m, p + 8) == nameoff && m[p + 12..p + 12 + |data|] == data
    ensures AfterProp(p, data) == p + |FlatProp(nameoff, data)| && Aligned(AfterProp(p, data))
    ensures Holds(m, AfterProp(p, data), Flat(rest))
  {
    var here := FlatProp(nameoff, data);
    HoldsParts(m, p, here, Flat(rest));
    PropIsLaid(m, p, nameoff, data);
  }

  lemma {:induction false} FlatNodeIsLaid(m: string, p: nat, items: Items)
    requires Aligned(p) && items.Node? && Fits(items) && Holds(m, p, Flat(items))
    ensures Laid(m, p, items) && End(items, p) == p + |Flat(items)| && Aligned(End(items, p))
    decreases Size(items), 0
  {
    var q, e := NodeParts(m, p, items.name, items.items, items.next);
    FlatInnerAndNext(m, q, e, items.items, items.next);
    NodeIsLaid(m, p, items.name, items.items, items.next, q, e);
  }

  lemma {:induction false} FlatInnerAndNext(m: string, q: nat, e: nat, inner: Items, next: Items)
    requires Aligned(q) && e == q + |Flat(inner)| && Fits(inner) && Fits(next)
    requires Holds(m, q, Flat(inner)) && Holds(m, e, Int(FDT_END_NODE) + Flat(next))
    ensures Laid(m, q, inner) && End(inner, q) == e && Token(m, e, FDT_END_NODE) && AfterEnd(e) == e + 4
    ensures Laid(m, AfterEnd(e), next) && End(next, AfterEnd(e)) == AfterEnd(e) + |Flat(next)|
    ensures Aligned(End(next, AfterEnd(e)))
    decreases Size(inner) + Size(next), 3
  {
    FlatIsLaid(m, q, inner);
    FlatNext(m, e, next);
  }

  lemma {:induction false} FlatNext(m: string, e: nat, next: Items)
    requires Aligned(e) && Fits(next) && Holds(m, e, Int(FDT_END_NODE) + Flat(next))
    ensures Token(m, e, FDT_END_NODE) && AfterEnd(e) == e + 4
    ensures Laid(m, AfterEnd(e), next) && End(next, AfterEnd(e)) == AfterEnd(e) + |Flat(next)|
    ensures Aligned(End(next, AfterEnd(e)))
    decreases Size(next), 2
  {
    AfterInner(m, e, next);
    FlatIsLaid(m, AfterEnd(e), next);
  }

  lemma NodeIsLaid(m: string, p: nat, name: string, inner: Items, next: Items, q: nat, e: nat)
    requires Token(m, p, FDT_BEGIN_NODE) && NameAt(m, p + 4, name)
    requires q == AfterBegin(p, name) == p + |FlatBegin(name)| && Laid(m, q, inner)
    requires e == End(inner, q) == q + |Flat(inner)| && Token(m, e, FDT_END_NODE) && AfterEnd(e) == e + 4
    requires Laid(m, AfterEnd(e), next) && End(next, AfterEnd(e)) == AfterEnd(e) + |Flat(next)|
    ensures Laid(m, p, Node(name, inner, next))
    ensures End(Node(name, inner, next), p) == End(next, AfterEnd(e)) == p + |Flat(Node(name, inner, next))|
  {
  }

  lemma NodeParts(m: string, p: nat, name: string, inner: Items, next: Items) returns (q: nat, e: nat)
    requires Aligned(p) && (forall k :: 0 <= k < |name| ==> name[k] != NUL)
    requires Holds(m, p, Flat(Node(name, inner, next)))
    ensures Token(m, p, FDT_BEGIN_NODE) && NameAt(m, p + 4, name)
    ensures q == AfterBegin(p, name) == p + |FlatBegin(name)| && Aligned(q)
    ensures e == q + |Flat(inner)|
    ensures Holds(m, q, Flat(inner)) && Holds(m, e, Int(FDT_END_NODE) + Flat(next))
  {
    var begin := FlatBegin(name);
    q, e := ThreeParts(m, p, begin, Flat(inner), Int(FDT_END_NODE) + Flat(next));
    BeginIsLaid(m, p, name);
  }

  lemma ThreeParts(m: string, p: nat, a: string, b: string, c: string) returns (q: nat, e: nat)
    requires Holds(m, p, a + (b + c))
    ensures q == p + |a| && e == q + |b|
    ensures Holds(m, p, a) && Holds(m, q, b) && Holds(m, e, c)
  {
    HoldsParts(m, p, a, b + c);
    HoldsParts(m, p + |a|, b, c);
    q, e := p + |a|, p + |a| + |b|;
  }

  lemma FourOn(e: nat)
    requires Aligned(e)
    ensures AfterEnd(e) == e + 4 && Aligned(e + 4)
  {
    GapAfter(e, 4);
    assert Gap(0) == 0;
    assert Gap(4) == 0;
  }

  lemma AfterInner(m: string, e: nat, next: Items)
    requires Aligned(e) && Holds(m, e, Int(FDT_END_NODE) + Flat(next))
    ensures Token(m, e, FDT_END_NODE)
    ensures AfterEnd(e) == e + 4 && Aligned(AfterEnd(e)) && Holds(m, AfterEnd(e), Flat(next))
  {
    HoldsParts(m, e, Int(FDT_END_NODE), Flat(next));
    IntRead(m, e, FDT_END_NODE);
    FourOn(e);
  }

  lemma PropIsLaid(m: string, p: nat, nameoff: nat, data: string)
    requires Aligned(p) && nameoff < U32 && |data| < U32 && Holds(m, p, FlatProp(nameoff, data))
    ensures p + 12 + |data| <= |m| && Token(m, p, FDT_PROP)
    ensures ReadBe(m, p + 4) == |data| && ReadBe(m, p + 8) == nameoff && m[p + 12..p + 12 + |data|] == data
    ensures AfterProp(p, data) == p + |FlatProp(nameoff, data)| && Aligned(AfterProp(p, data))
  {
    PropParts(m, p, nameoff, data);
    IntRead(m, p, FDT_PROP);
    IntRead(m, p + 4, |data|);
    IntRead(m, p + 8, nameoff);
    PropLength(p, nameoff, data);
  }

  lemma PropLength(p: nat, nameoff: nat, data: string)
    requires Aligned(p)
    ensures AfterProp(p, data) == p + |FlatProp(nameoff, data)| && Aligned(AfterProp(p, data))
  {
    Padded(p + 12, |data|);
  }

  lemma PropParts(m: string, p: nat, nameoff: nat, data: string)
    requires Holds(m, p, FlatProp(nameoff, data))
    ensures Holds(m, p, Int(FDT_PROP)) && Holds(m, p + 4, Int(|data|)) && Holds(m, p + 8, Int(nameoff)) && Holds(m, p + 12, data)
  {
    var rest := data + Padding(|data|);
    HoldsParts(m, p, Int(FDT_PROP), Int(|data|) + (Int(nameoff) + rest));
    HoldsParts(m, p + 4, Int(|data|), Int(nameoff) + rest);
    HoldsParts(m, p + 8, Int(nameoff), rest);
    HoldsParts(m, p + 12, data, Padding(|data|));
  }

  lemma BeginIsLaid(m: string, p: nat, name: string)
    requires Aligned(p) && (forall k :: 0 <= k < |name| ==> name[k] != NUL) && Holds(m, p, FlatBegin(name))
    ensures Token(m, p, FDT_BEGIN_NODE) && NameAt(m, p + 4, name)
    ensures AfterBegin(p, name) == p + |FlatBegin(name)| && Aligned(AfterBegin(p, name))
  {
    var q, e := ThreeParts(m, p, Int(FDT_BEGIN_NODE), name, [NUL] + Padding(|name| + 1));
    HoldsParts(m, e, [NUL], Padding(|name| + 1));
    FirstOf(m, e, NUL);
    IntRead(m, p, FDT_BEGIN_NODE);
    BeginLength(p, name);
  }

  lemma BeginLength(p: nat, name: string)
    requires Aligned(p)
    ensures AfterBegin(p, name) == p + |FlatBegin(name)| && Aligned(AfterBegin(p, name))
  {
    Padded(p + 4, |name| + 1);
  }

  lemma FirstOf(m: string, e: nat, c: char)
    requires Holds(m, e, [c])
    ensures m[e] == c
  {
    assert [c][0] == c;
  }

  /** A blob whose structure block is the flattening of a tree, and then the end token. */
  lemma FlatIsBlob(m: string, root: Items)
    requires 40 <= |m| && SingleNode(root) && Fits(root) && Aligned(StructBlock(m))
    requires Holds(m, StructBlock(m), Flat(root) + Int(FDT_END))
    ensures Blob(m, root)
  {
    var p := StructBlock(m);
    HoldsParts(m, p, Flat(root), Int(FDT_END));
    FlatIsLaid(m, p, root);
    IntRead(m, End(root, p), FDT_END);
  }

  /** The header of a blob holds the address of the structure block at byte 8 and that of the names at
    * byte 12; the walkers then find the tree, and its names. */
  lemma HeaderLeadsTo(m: string, root: Items, p: nat, q: nat, nameoff: nat, name: string)
    requires 40 <= |m| && p % 4 == 0 && p < U32 && q < U32 && SingleNode(root) && Fits(root)
    requires Holds(m, 8, Int(p)) && Holds(m, 12, Int(q))
    requires Holds(m, p, Flat(root) + [0 as char, 0 as char, 0 as char, 9 as char]) && NameAt(m, q + nameoff, name)
    ensures Blob(m, root) && StructBlock(m) == p && PropName(m, nameoff) == name
  {
    AlignedModulo(p);
    IntRead(m, 8, p);
    IntRead(m, 12, q);
    BigEndianFour(FDT_END, 0, 0, 0, 9);
    FlatIsBlob(m, root);
    NameRead(m, q + nameoff, name);
  }

  /** The flattening of a nameless node with one property, whose name is at 7 and whose data is "ab". */
  lemma FlatExample()
    ensures var z := 0 as char;
      Flat(Node("", Prop(7, "ab", Nil), Nil)) ==
        [z, z, z, 1 as char] + [z, z, z, z]
        + [z, z, z, 3 as char] + [z, z, z, 2 as char] + [z, z, z, 7 as char] + ['a', 'b', z, z]
        + [z, z, z, 2 as char]
  {
    BigEndianFour(1, 0, 0, 0, 1);
    BigEndianFour(2, 0, 0, 0, 2);
    BigEndianFour(3, 0, 0, 0, 3);
    BigEndianFour(7, 0, 0, 0, 7);
    assert Padding(1) == [NUL, NUL, NUL];
    assert Padding(2) == [NUL, NUL];
    assert Flat(Prop(7, "ab", Nil)) == FlatProp(7, "ab");
  }
}
