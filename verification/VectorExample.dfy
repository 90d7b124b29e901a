/** The vector of one test with every kind of initial state, in full: it fixes the order of the parts, the
  * order of bytes and every name in HashVector.dfy.
  */
module VectorExample {
  import opened HashVector

  // ----- Numbers and strings

  lemma NumberExamples()
    ensures Int(0x01020304) == [1 as char, 2 as char, 3 as char, 4 as char]
    ensures LittleEndian(0x01020304, 4) == [4 as char, 3 as char, 2 as char, 1 as char]
  {
    BigEndianFour(0x01020304, 1, 2, 3, 4);
    assert LittleEndian(0x01, 1) == [1 as char];
    assert LittleEndian(0x0102, 2) == [2 as char, 1 as char];
    assert LittleEndian(0x010203, 3) == [3 as char, 2 as char, 1 as char];
  }

  lemma LongExample()
    ensures Long(0x01020304_05060708) ==
            [1 as char, 2 as char, 3 as char, 4 as char, 5 as char, 6 as char, 7 as char, 8 as char]
  {
    BigEndianFour(0x01020304, 1, 2, 3, 4);
    assert BigEndian(0x01020304_05, 5) == BigEndian(0x01020304, 4) + [5 as char];
    assert BigEndian(0x01020304_0506, 6) == BigEndian(0x01020304_05, 5) + [6 as char];
    assert BigEndian(0x01020304_050607, 7) == BigEndian(0x01020304_0506, 6) + [7 as char];
    assert BigEndian(0x01020304_05060708, 8) == BigEndian(0x01020304_050607, 7) + [8 as char];
  }

  lemma StringExamples()
    ensures Str("MP") == [0 as char, 0 as char, 0 as char, 2 as char, 'M', 'P']
    ensures Str(OrNull(None)) == Int(6) + "<NULL>"
  {
    BigEndianFour(2, 0, 0, 0, 2);
  }

  // ----- Names

  lemma TypeNames(value: nat, name: Option<string>, prot: Prot, level: Level)
    ensures TypeStr(Value(Heap, value)) == "TYPE_HEAP" && TypeStr(Value(Pte, value)) == "TYPE_PTE"
    ensures TypeStr(Value(Mair, value)) == "TYPE_MAIR" && TypeStr(Value(Fix, value)) == "TYPE_FIX"
    ensures TypeStr(Unmapped) == "TYPE_UNMAPPED" && TypeStr(IdentityMap) == "TYPE_IDENTITY_MAP"
    ensures TypeStr(Alias(name)) == "TYPE_ALIAS" && TypeStr(Attrs(prot, value)) == "TYPE_ATTRS"
    ensures TypeStr(RegionPin(name, level)) == "TYPE_REGION_PIN"
    ensures TypeStr(RegionOffset(name, level)) == "TYPE_REGION_OFFSET"
    ensures TypeStr(RegionOwn(level)) == "TYPE_REGION_OWN"
  {
  }

  // ----- A test

  const START: nat := 0xd5032fff
  const RETURN: nat := 0xd65f03c0

  const X: VarState := VarState(Some("x"), Value(Heap, 1))
  const Y: VarState := VarState(Some("y"), Alias(Some("x")))
  const Z: VarState := VarState(None, Attrs(AP, 3))
  const U: VarState := VarState(Some("u"), RegionPin(Some("x"), Pmd))
  const V: VarState := VarState(Some("v"), RegionOffset(Some("y"), CacheLine))
  const W: VarState := VarState(Some("w"), RegionOwn(Page))

  /** One thread returns at once and has a handler between two hints; the other has no code. */
  function Example(): Test {
    Test(Some("MP"), [X, Y, Z, U, V, W], [Some([RETURN]), None],
         Some([Handlers(Some([START, 0x01020304, START]), None), Handlers(None, None)]), "0:X0=1")
  }

  lemma PayloadExamples()
    ensures CodeFits(Some([RETURN])) && WellFormed([RETURN]) && Payload(Some([RETURN])) == [RETURN]
    ensures CodeFits(Some([START, 0x01020304, START])) && WellFormed([START, 0x01020304, START])
    ensures Payload(Some([START, 0x01020304, START])) == [0x01020304]
  {
    assert FirstOf([RETURN], 0, {OPCODE_LITMUS_HINT, OPCODE_RET}) == 0;
    var c: seq<nat> := [START, 0x01020304, START];
    assert FirstOf(c, 0, {OPCODE_LITMUS_HINT, OPCODE_RET}) == 0;
    assert FirstOf(c, 2, {OPCODE_LITMUS_HINT}) == 2;
    assert FirstOf(c, 1, {OPCODE_LITMUS_HINT}) == 2;
  }

  lemma ExampleFits()
    ensures Example().Fits()
  {
    PayloadExamples();
    assert |Example().inits| == 6 && |Example().threads| == 2;
    forall v | v in Example().inits ensures VarFits(v) {
      assert v == X || v == Y || v == Z || v == U || v == V || v == W;
    }
  }

  lemma ExampleValid()
    ensures Example().Valid()
  {
    ExampleFits();
    PayloadExamples();
    forall t | 0 <= t < 2 ensures Example().ThreadOk(t) {}
  }

  lemma PayloadBytesExamples()
    ensures PayloadBytes([]) == Int(0)
    ensures PayloadBytes([RETURN]) == Int(1) + [0xc0 as char, 0x03 as char, 0x5f as char, 0xd6 as char]
    ensures PayloadBytes([0x01020304]) == Int(1) + [4 as char, 3 as char, 2 as char, 1 as char]
  {
    NumberExamples();
    ReturnBytes();
    MemoryOne(RETURN);
    MemoryOne(0x01020304);
  }

  lemma MemoryOne(w: nat)
    ensures Memory([w]) == LittleEndian(w, 4)
  {
    assert [w][..0] == [];
  }

  lemma ReturnBytes()
    ensures LittleEndian(RETURN, 4) == [0xc0 as char, 0x03 as char, 0x5f as char, 0xd6 as char]
  {
    assert LittleEndian(0xd6, 1) == [0xd6 as char];
    assert LittleEndian(0xd65f, 2) == [0x5f as char, 0xd6 as char];
    assert LittleEndian(0xd65f03, 3) == [0x03 as char, 0x5f as char, 0xd6 as char];
  }

  lemma ValueExample()
    ensures VarBytes(X) == Str("x") + Str("TYPE_HEAP") + Long(1)
  {
  }

  lemma AliasExample()
    ensures VarBytes(Y) == Str("y") + Str("TYPE_ALIAS") + Str("x")
  {
  }

  lemma AttrsExample()
    ensures VarBytes(Z) == Str("<NULL>") + Str("TYPE_ATTRS") + (Str("AP") + Long(3))
    ensures ProtStr(AttrIdx) == "AttrIdx"
  {
  }

  lemma PinExample()
    ensures VarBytes(U) == Str("u") + Str("TYPE_REGION_PIN") + (Str("x") + Str("REGION_SAME_PMD"))
  {
    SameNames();
  }

  lemma OffsetExample()
    ensures VarBytes(V) == Str("v") + Str("TYPE_REGION_OFFSET") + (Str("y") + Str("REGION_SAME_CACHE_LINE_OFFSET"))
  {
    assert RelOffsetStr(CacheLine) == "REGION_SAME_CACHE_LINE_OFFSET";
  }

  lemma OwnExample()
    ensures VarBytes(W) == Str("w") + Str("TYPE_REGION_OWN") + Str("REGION_OWN_PAGE")
  {
    assert OwnLevelStr(Page) == "REGION_OWN_PAGE";
  }

  lemma SameNames()
    ensures PinLevelStr(Var) == "REGION_SAME_VAR" && PinLevelStr(CacheLine) == "REGION_SAME_CACHE_LINE"
    ensures PinLevelStr(Page) == "REGION_SAME_PAGE" && PinLevelStr(Pmd) == "REGION_SAME_PMD"
    ensures PinLevelStr(Pud) == "REGION_SAME_PUD" && PinLevelStr(Pgd) == "REGION_SAME_PGD"
  {
  }

  /** The parts of the initial states, one after the other. */
  lemma InitsExample()
    ensures VarsBytes([X, Y, Z, U, V, W]) ==
            VarBytes(X) + VarBytes(Y) + VarBytes(Z) + VarBytes(U) + VarBytes(V) + VarBytes(W)
  {
    VarsAppend([], X);
    VarsAppend([X], Y);
    VarsAppend([X, Y], Z);
    VarsAppend([X, Y, Z], U);
    VarsAppend([X, Y, Z, U], V);
    VarsAppend([X, Y, Z, U, V], W);
    assert [] + [X] == [X];
    assert [X] + [Y] == [X, Y];
    assert [X, Y] + [Z] == [X, Y, Z];
    assert [X, Y, Z] + [U] == [X, Y, Z, U];
    assert [X, Y, Z, U] + [V] == [X, Y, Z, U, V];
    assert [X, Y, Z, U, V] + [W] == [X, Y, Z, U, V, W];
    assert "" + VarBytes(X) == VarBytes(X);
  }

  lemma VarsAppend(vs: seq<VarState>, v: VarState)
    ensures VarsBytes(vs + [v]) == VarsBytes(vs) + VarBytes(v)
  {
    assert (vs + [v])[..|vs|] == vs;
  }

  /** What is hashed of the threads: the return, the handler between its hints, and nothing. */
  function CodeBytes(): string {
    "" + (Int(1) + [0xc0 as char, 0x03 as char, 0x5f as char, 0xd6 as char]
          + (Int(2) + (Int(1) + [4 as char, 3 as char, 2 as char, 1 as char]) + Int(0)))
      + (Int(0) + (Int(2) + Int(0) + Int(0)))
  }

  lemma ViewsExample()
    ensures Example().Valid()
    ensures Example().Views() == [ThreadView([RETURN], Some(([0x01020304], []))), ThreadView([], Some(([], [])))]
  {
    ExampleValid();
    PayloadExamples();
  }

  lemma ThreadsExample(first: ThreadView, second: ThreadView)
    requires first == ThreadView([RETURN], Some(([0x01020304], []))) && second == ThreadView([], Some(([], [])))
    ensures ThreadsBytes([first, second]) == CodeBytes()
  {
    PayloadBytesExamples();
    assert [first, second][..1] == [first] && [first][..0] == [];
    assert ThreadsBytes([first]) == "" + ThreadBytes(first);
  }

  /** The vector of the test. */
  lemma VectorOfExample()
    ensures Example().Valid()
    ensures Vector(Example()) ==
      Str("MP")
      + (Int(6) + (VarBytes(X) + VarBytes(Y) + VarBytes(Z) + VarBytes(U) + VarBytes(V) + VarBytes(W)))
      + (Int(2) + CodeBytes())
      + Str("0:X0=1")
  {
    InitsExample();
    ViewsExample();
    ThreadsExample(ThreadView([RETURN], Some(([0x01020304], []))), ThreadView([], Some(([], []))));
  }
}
