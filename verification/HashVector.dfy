/** The vector that lib/litmus_test/litmus_test_hash.c makes of a litmus test before hashing it:
  * what bytes it holds, how it is written, and that a test can be read back from it.
  */
module HashVector {

  datatype Option<T> = None | Some(value: T)

  const U32 := 0x1_0000_0000
  const U64 := 0x1_0000_0000_0000_0000

  // ----- Bytes

  /** The n low bytes of v, the highest first. */
  function BigEndian(v: nat, n: nat): (b: string)
    ensures |b| == n
  {
    if n == 0 then "" else BigEndian(v / 256, n - 1) + [(v % 256) as char]
  }

  lemma BigEndianFour(v: nat, a: nat, b: nat, c: nat, d: nat)
    requires a < 256 && b < 256 && c < 256 && d < 256 && v == ((a * 256 + b) * 256 + c) * 256 + d
    ensures BigEndian(v, 4) == [a as char, b as char, c as char, d as char]
  {
    var x, y := (a * 256 + b) * 256 + c, a * 256 + b;
    assert v / 256 == x && x / 256 == y && y / 256 == a && a / 256 == 0;
    assert BigEndian(a, 1) == [a as char];
    assert BigEndian(y, 2) == [a as char, b as char];
    assert BigEndian(x, 3) == [a as char, b as char, c as char];
  }

  /** A word as it lies in memory, the lowest byte first. */
  function LittleEndian(v: nat, n: nat): (b: string)
    ensures |b| == n
  {
    if n == 0 then "" else [(v % 256) as char] + LittleEndian(v / 256, n - 1)
  }

  function Pow256(n: nat): nat {
    if n == 0 then 1 else 256 * Pow256(n - 1)
  }

  lemma {:induction false} BigEndianInjective(v: nat, w: nat, n: nat)
    requires v < Pow256(n) && w < Pow256(n) && BigEndian(v, n) == BigEndian(w, n)
    ensures v == w
  {
    if n > 0 {
      var a, b := BigEndian(v, n), BigEndian(w, n);
      assert a[..n - 1] == BigEndian(v / 256, n - 1) && b[..n - 1] == BigEndian(w / 256, n - 1);
      assert a[n - 1] == (v % 256) as char && b[n - 1] == (w % 256) as char;
      BigEndianInjective(v / 256, w / 256, n - 1);
    }
  }

  lemma {:induction false} LittleEndianInjective(v: nat, w: nat, n: nat)
    requires v < Pow256(n) && w < Pow256(n) && LittleEndian(v, n) == LittleEndian(w, n)
    ensures v == w
  {
    if n > 0 {
      var a, b := LittleEndian(v, n), LittleEndian(w, n);
      assert a[1..] == LittleEndian(v / 256, n - 1) && b[1..] == LittleEndian(w / 256, n - 1);
      assert a[0] == (v % 256) as char && b[0] == (w % 256) as char;
      LittleEndianInjective(v / 256, w / 256, n - 1);
    }
  }

  function Int(v: nat): (b: string)
    ensures |b| == 4
  {
    BigEndian(v, 4)
  }

  function Long(v: nat): (b: string)
    ensures |b| == 8
  {
    BigEndian(v, 8)
  }

  lemma SplitEqual(a: string, b: string, x: string, y: string)
    requires |a| == |b| && a + x == b + y
    ensures a == b && x == y
  {
    assert (a + x)[..|a|] == a && (b + y)[..|b|] == b;
    assert (a + x)[|a|..] == x && (b + y)[|b|..] == y;
  }

  lemma Assoc(a: string, b: string, x: string)
    ensures a + b + x == a + (b + x)
  {
  }

  lemma IntCancel(v: nat, w: nat, x: string, y: string)
    requires v < U32 && w < U32 && Int(v) + x == Int(w) + y
    ensures v == w && x == y
  {
    SplitEqual(Int(v), Int(w), x, y);
    assert Pow256(2) == 0x1_0000 && Pow256(4) == U32;
    BigEndianInjective(v, w, 4);
  }

  lemma LongCancel(v: nat, w: nat, x: string, y: string)
    requires v < U64 && w < U64 && Long(v) + x == Long(w) + y
    ensures v == w && x == y
  {
    SplitEqual(Long(v), Long(w), x, y);
    assert Pow256(2) == 0x1_0000;
    assert Pow256(4) == U32;
    assert Pow256(6) == 0x1_0000_0000_0000;
    assert Pow256(8) == U64;
    BigEndianInjective(v, w, 8);
  }

  /** A string with its length in front; a null string is written like "<NULL>". */
  function Str(s: string): string {
    Int(|s|) + s
  }

  function OrNull(s: Option<string>): string {
    if s.None? then "<NULL>" else s.value
  }

  lemma StrCancel(s: string, t: string, x: string, y: string)
    requires |s| < U32 && |t| < U32 && Str(s) + x == Str(t) + y
    ensures s == t && x == y
  {
    assert Str(s) + x == Int(|s|) + (s + x) && Str(t) + y == Int(|t|) + (t + y);
    IntCancel(|s|, |t|, s + x, t + y);
    SplitEqual(s, t, x, y);
  }

  // ----- Initial states

  datatype Level = Var | CacheLine | Page | Pmd | Pud | Pgd

  function LevelName(level: Level): string {
    match level
    case Var => "VAR"
    case CacheLine => "CACHE_LINE"
    case Page => "PAGE"
    case Pmd => "PMD"
    case Pud => "PUD"
    case Pgd => "PGD"
  }

  lemma LevelNameInjective(a: Level, b: Level)
    requires LevelName(a) == LevelName(b)
    ensures a == b
  {
    assert LevelName(a)[0] == LevelName(b)[0] && LevelName(a)[1] == LevelName(b)[1];
  }

  /** pin_level_to_str */
  function PinLevelStr(level: Level): string {
    "REGION_SAME_" + LevelName(level)
  }

  /** rel_offset_to_str */
  function RelOffsetStr(level: Level): string {
    "REGION_SAME_" + LevelName(level) + "_OFFSET"
  }

  /** own_level_to_str */
  function OwnLevelStr(level: Level): string {
    "REGION_OWN_" + LevelName(level)
  }

  datatype Prot = AP | AttrIdx

  /** prot_type_to_str */
  function ProtStr(p: Prot): string {
    match p
    case AP => "AP"
    case AttrIdx => "AttrIdx"
  }

  datatype Valued = Heap | Pte | Mair | Fix

  /** What init_varstate_t holds for each type. */
  datatype State =
    | Value(ty: Valued, value: nat)
    | Unmapped
    | IdentityMap
    | Alias(aliasname: Option<string>)
    | Attrs(prot: Prot, attrValue: nat)
    | RegionPin(pinnedVar: Option<string>, pinnedLevel: Level)
    | RegionOffset(offsetVar: Option<string>, offsetLevel: Level)
    | RegionOwn(ownership: Level)

  datatype VarState = VarState(varname: Option<string>, state: State)

  /** init_type_to_str */
  function TypeStr(st: State): string {
    match st
    case Value(Heap, _) => "TYPE_HEAP"
    case Value(Pte, _) => "TYPE_PTE"
    case Value(Mair, _) => "TYPE_MAIR"
    case Value(Fix, _) => "TYPE_FIX"
    case Unmapped => "TYPE_UNMAPPED"
    case IdentityMap => "TYPE_IDENTITY_MAP"
    case Alias(_) => "TYPE_ALIAS"
    case Attrs(_, _) => "TYPE_ATTRS"
    case RegionPin(_, _) => "TYPE_REGION_PIN"
    case RegionOffset(_, _) => "TYPE_REGION_OFFSET"
    case RegionOwn(_) => "TYPE_REGION_OWN"
  }

  /** The type as a number. */
  function TypeOf(st: State): nat {
    match st
    case Value(Heap, _) => 0
    case Value(Pte, _) => 1
    case Value(Mair, _) => 2
    case Value(Fix, _) => 3
    case Unmapped => 4
    case IdentityMap => 5
    case Alias(_) => 6
    case Attrs(_, _) => 7
    case RegionPin(_, _) => 8
    case RegionOffset(_, _) => 9
    case RegionOwn(_) => 10
  }

  lemma TypeStrInjective(a: State, b: State)
    requires TypeStr(a) == TypeStr(b)
    ensures TypeOf(a) == TypeOf(b)
  {
    assert TypeStr(a)[5] == TypeStr(b)[5] && TypeStr(a)[6] == TypeStr(b)[6];
    assert |TypeStr(a)| > 12 ==> TypeStr(a)[12] == TypeStr(b)[12];
  }

  function StateBytes(st: State): string {
    match st
    case Value(_, value) => Long(value)
    case Unmapped => ""
    case IdentityMap => ""
    case Alias(name) => Str(OrNull(name))
    case Attrs(prot, value) => Str(ProtStr(prot)) + Long(value)
    case RegionPin(name, level) => Str(OrNull(name)) + Str(PinLevelStr(level))
    case RegionOffset(name, level) => Str(OrNull(name)) + Str(RelOffsetStr(level))
    case RegionOwn(level) => Str(OwnLevelStr(level))
  }

  /** blit_varstate */
  function VarBytes(v: VarState): string {
    Str(OrNull(v.varname)) + Str(TypeStr(v.state)) + StateBytes(v.state)
  }

  predicate ShortName(s: Option<string>) {
    |OrNull(s)| < U32
  }

  /** The values fit in their C types. */
  predicate StateFits(st: State) {
    match st
    case Value(_, value) => value < U64
    case Alias(name) => ShortName(name)
    case Attrs(_, value) => value < U64
    case RegionPin(name, _) => ShortName(name)
    case RegionOffset(name, _) => ShortName(name)
    case _ => true
  }

  predicate VarFits(v: VarState) {
    ShortName(v.varname) && StateFits(v.state)
  }

  /** The same state, but for null names, which are as good as "<NULL>". */
  predicate SameState(a: State, b: State) {
    match a
    case Alias(name) => b.Alias? && OrNull(name) == OrNull(b.aliasname)
    case RegionPin(name, level) => b.RegionPin? && OrNull(name) == OrNull(b.pinnedVar) && level == b.pinnedLevel
    case RegionOffset(name, level) => b.RegionOffset? && OrNull(name) == OrNull(b.offsetVar) && level == b.offsetLevel
    case _ => a == b
  }

  predicate SameVar(a: VarState, b: VarState) {
    OrNull(a.varname) == OrNull(b.varname) && SameState(a.state, b.state)
  }

  lemma NamedLevelCancel(prefix: string, a: Level, b: Level, suffix: string, x: string, y: string)
    requires |prefix| < 100 && |suffix| < 100
    requires Str(prefix + LevelName(a) + suffix) + x == Str(prefix + LevelName(b) + suffix) + y
    ensures a == b && x == y
  {
    StrCancel(prefix + LevelName(a) + suffix, prefix + LevelName(b) + suffix, x, y);
    assert prefix + LevelName(a) + suffix == prefix + (LevelName(a) + suffix);
    assert prefix + LevelName(b) + suffix == prefix + (LevelName(b) + suffix);
    SplitEqual(prefix, prefix, LevelName(a) + suffix, LevelName(b) + suffix);
    SplitEqual(LevelName(a), LevelName(b), suffix, suffix);
    LevelNameInjective(a, b);
  }

  lemma ProtCancel(a: Prot, b: Prot, x: string, y: string)
    requires Str(ProtStr(a)) + x == Str(ProtStr(b)) + y
    ensures a == b && x == y
  {
    StrCancel(ProtStr(a), ProtStr(b), x, y);
    assert |ProtStr(a)| == |ProtStr(b)|;
  }

  /** A string and what follows it can be told apart. */
  lemma PairCancel(s: string, t: string, a: string, b: string, x: string, y: string)
    requires |s| < U32 && |t| < U32 && Str(s) + a + x == Str(t) + b + y
    ensures s == t && a + x == b + y
  {
    Assoc(Str(s), a, x);
    Assoc(Str(t), b, y);
    StrCancel(s, t, a + x, b + y);
  }

  lemma AttrsCancel(p: Prot, v: nat, q: Prot, w: nat, x: string, y: string)
    requires v < U64 && w < U64
    requires Str(ProtStr(p)) + Long(v) + x == Str(ProtStr(q)) + Long(w) + y
    ensures p == q && v == w && x == y
  {
    Assoc(Str(ProtStr(p)), Long(v), x);
    Assoc(Str(ProtStr(q)), Long(w), y);
    ProtCancel(p, q, Long(v) + x, Long(w) + y);
    LongCancel(v, w, x, y);
  }

  lemma PinCancel(s: string, a: Level, t: string, b: Level, x: string, y: string)
    requires |s| < U32 && |t| < U32
    requires Str(s) + Str(PinLevelStr(a)) + x == Str(t) + Str(PinLevelStr(b)) + y
    ensures s == t && a == b && x == y
  {
    PairCancel(s, t, Str(PinLevelStr(a)), Str(PinLevelStr(b)), x, y);
    assert PinLevelStr(a) + "" == PinLevelStr(a) && PinLevelStr(b) + "" == PinLevelStr(b);
    NamedLevelCancel("REGION_SAME_", a, b, "", x, y);
  }

  lemma OffsetCancel(s: string, a: Level, t: string, b: Level, x: string, y: string)
    requires |s| < U32 && |t| < U32
    requires Str(s) + Str(RelOffsetStr(a)) + x == Str(t) + Str(RelOffsetStr(b)) + y
    ensures s == t && a == b && x == y
  {
    PairCancel(s, t, Str(RelOffsetStr(a)), Str(RelOffsetStr(b)), x, y);
    NamedLevelCancel("REGION_SAME_", a, b, "_OFFSET", x, y);
  }

  lemma OwnCancel(a: Level, b: Level, x: string, y: string)
    requires Str(OwnLevelStr(a)) + x == Str(OwnLevelStr(b)) + y
    ensures a == b && x == y
  {
    assert OwnLevelStr(a) + "" == OwnLevelStr(a) && OwnLevelStr(b) + "" == OwnLevelStr(b);
    NamedLevelCancel("REGION_OWN_", a, b, "", x, y);
  }

  /** After the type, the state and what follows it can be read back. */
  lemma StateCancel(a: State, b: State, x: string, y: string)
    requires StateFits(a) && StateFits(b) && TypeOf(a) == TypeOf(b) && StateBytes(a) + x == StateBytes(b) + y
    ensures SameState(a, b) && x == y
  {
    match a {
      case Value(_, v) => LongCancel(v, b.value, x, y);
      case Unmapped => assert "" + x == x && "" + y == y;
      case IdentityMap => assert "" + x == x && "" + y == y;
      case Alias(name) => StrCancel(OrNull(name), OrNull(b.aliasname), x, y);
      case Attrs(p, v) => AttrsCancel(p, v, b.prot, b.attrValue, x, y);
      case RegionPin(name, level) => PinCancel(OrNull(name), level, OrNull(b.pinnedVar), b.pinnedLevel, x, y);
      case RegionOffset(name, level) => OffsetCancel(OrNull(name), level, OrNull(b.offsetVar), b.offsetLevel, x, y);
      case RegionOwn(level) => OwnCancel(level, b.ownership, x, y);
    }
  }

  lemma VarCancel(a: VarState, b: VarState, x: string, y: string)
    requires VarFits(a) && VarFits(b) && VarBytes(a) + x == VarBytes(b) + y
    ensures SameVar(a, b) && x == y
  {
    var s, t := TypeStr(a.state), TypeStr(b.state);
    var m, n := StateBytes(a.state) + x, StateBytes(b.state) + y;
    Assoc(Str(OrNull(a.varname)) + Str(s), StateBytes(a.state), x);
    Assoc(Str(OrNull(b.varname)) + Str(t), StateBytes(b.state), y);
    PairCancel(OrNull(a.varname), OrNull(b.varname), Str(s), Str(t), m, n);
    ShortTypes(a.state);
    ShortTypes(b.state);
    StrCancel(s, t, m, n);
    TypeStrInjective(a.state, b.state);
    StateCancel(a.state, b.state, x, y);
  }

  lemma ShortTypes(st: State)
    ensures |TypeStr(st)| < U32
  {
  }

  // ----- Thread code

  /** The instructions behind a pointer to code. */
  type Code = seq<nat>

  predicate Words(p: seq<nat>) {
    forall k :: 0 <= k < |p| ==> p[k] < U32
  }

  predicate Short(p: seq<nat>) {
    |p| < U32 / 4 && Words(p)
  }

  const OPCODE_LITMUS_HINT := 0xd5032fff
  const OPCODE_RET := 0xd65f03c0

  /** The first instruction from i on that is one of these, or the end of the code. */
  function FirstOf(code: Code, i: nat, ops: set<nat>): (k: nat)
    requires i <= |code|
    ensures i <= k <= |code|
    ensures k < |code| ==> code[k] in ops
    ensures forall j :: i <= j < k ==> code[j] !in ops
    decreases |code| - i
  {
    if i == |code| || code[i] in ops then i else FirstOf(code, i + 1, ops)
  }

  /** Where the code is known to have a hint or not. */
  function Stop(code: Code): nat {
    FirstOf(code, 0, {OPCODE_LITMUS_HINT, OPCODE_RET})
  }

  /** Code that is not malformed: a hint or a return in the first page. */
  predicate WellFormed(code: Code) {
    Stop(code) < |code| && Stop(code) < 1024
  }

  /** The search for the end of the code stays inside it. */
  predicate Terminated(code: Code) {
    && (WellFormed(code) || 1024 <= |code|)
    && (WellFormed(code) && code[Stop(code)] == OPCODE_LITMUS_HINT ==>
          FirstOf(code, Stop(code) + 1, {OPCODE_LITMUS_HINT}) < |code|)
  }

  predicate CodeFits(code: Option<Code>) {
    code.Some? ==> Terminated(code.value) && Short(code.value)
  }

  predicate CodeWellFormed(code: Option<Code>) {
    code.Some? ==> WellFormed(code.value)
  }

  /** What is hashed of the code: what is between two hints, or else everything up to the first
    * return; nothing of no code. */
  function Payload(code: Option<Code>): (p: seq<nat>)
    requires CodeFits(code) && CodeWellFormed(code)
    ensures Short(p)
  {
    if code.None? then []
    else
      var c := code.value;
      var s := Stop(c);
      if c[s] == OPCODE_LITMUS_HINT then c[s + 1..FirstOf(c, s + 1, {OPCODE_LITMUS_HINT})] else c[..s + 1]
  }

  /** Instructions as they lie in memory. */
  function Memory(ws: seq<nat>): (b: string)
    ensures |b| == 4 * |ws|
  {
    if ws == [] then "" else Memory(ws[..|ws| - 1]) + LittleEndian(ws[|ws| - 1], 4)
  }

  function PayloadBytes(p: seq<nat>): string {
    Int(|p|) + Memory(p)
  }

  lemma {:induction false} MemoryInjective(p: seq<nat>, q: seq<nat>)
    requires |p| == |q| && Words(p) && Words(q) && Memory(p) == Memory(q)
    ensures p == q
  {
    if p != [] {
      var n := |p| - 1;
      SplitEqual(Memory(p[..n]), Memory(q[..n]), LittleEndian(p[n], 4), LittleEndian(q[n], 4));
      MemoryInjective(p[..n], q[..n]);
      assert Pow256(2) == 0x1_0000 && Pow256(4) == U32;
      LittleEndianInjective(p[n], q[n], 4);
      assert p == p[..n] + [p[n]] && q == q[..n] + [q[n]];
    }
  }

  lemma PayloadCancel(p: seq<nat>, q: seq<nat>, x: string, y: string)
    requires Short(p) && Short(q)
    requires PayloadBytes(p) + x == PayloadBytes(q) + y
    ensures p == q && x == y
  {
    Assoc(Int(|p|), Memory(p), x);
    Assoc(Int(|q|), Memory(q), y);
    IntCancel(|p|, |q|, Memory(p) + x, Memory(q) + y);
    SplitEqual(Memory(p), Memory(q), x, y);
    MemoryInjective(p, q);
  }

  // ----- Tests

  /** The handlers of a thread for exceptions from EL0 and from EL1. */
  datatype Handlers = Handlers(el0: Option<Code>, el1: Option<Code>)

  /** The parts of a litmus_test_t that are hashed; finalCond is the text that sprintf makes of the
    * registers and the interesting results. */
  datatype Test = Test(name: Option<string>, inits: seq<VarState>, threads: seq<Option<Code>>,
                       handlers: Option<seq<Handlers>>, finalCond: string)
  {
    /** What the C types can hold. */
    predicate Fits() {
      && ShortName(name) && |finalCond| < U32
      && |inits| < U32 / 2 && (forall v :: v in inits ==> VarFits(v))
      && |threads| < U32 / 2 && (forall c :: c in threads ==> CodeFits(c))
      && (handlers.Some? ==> |handlers.value| == |threads|)
      && (handlers.Some? ==> forall h :: h in handlers.value ==> CodeFits(h.el0) && CodeFits(h.el1))
    }

    /** All of the code has a hint or a return in its first page. */
    predicate CodeOk() {
      forall t :: 0 <= t < |threads| ==> ThreadOk(t)
    }

    predicate ThreadOk(t: nat)
      requires t < |threads|
    {
      && CodeWellFormed(threads[t])
      && (handlers.Some? && t < |handlers.value| ==>
            CodeWellFormed(handlers.value[t].el0) && CodeWellFormed(handlers.value[t].el1))
    }

    predicate Valid() {
      Fits() && CodeOk()
    }

    /** What is hashed of thread t. */
    function View(t: nat): (v: ThreadView)
      requires Valid() && t < |threads|
      ensures v.Fits()
    {
      assert ThreadOk(t) && threads[t] in threads;
      if handlers.None? then ThreadView(Payload(threads[t]), None)
      else
        var h := handlers.value[t];
        assert h in handlers.value;
        ThreadView(Payload(threads[t]), Some((Payload(h.el0), Payload(h.el1))))
    }

    function Views(): (vs: seq<ThreadView>)
      requires Valid()
      ensures |vs| == |threads| && AllFit(vs)
    {
      seq(|threads|, t requires 0 <= t < |threads| => View(t))
    }
  }

  /** What is hashed of the code of a thread and of its two handlers. */
  datatype ThreadView = ThreadView(code: seq<nat>, handlers: Option<(seq<nat>, seq<nat>)>) {
    predicate Fits() {
      Short(code) && (handlers.Some? ==> Short(handlers.value.0) && Short(handlers.value.1))
    }
  }

  predicate AllFit(vs: seq<ThreadView>) {
    forall t :: 0 <= t < |vs| ==> vs[t].Fits()
  }

  function HandlersBytes(h: Option<(seq<nat>, seq<nat>)>): string {
    if h.None? then Int(0)
    else Int(2) + PayloadBytes(h.value.0) + PayloadBytes(h.value.1)
  }

  function ThreadBytes(v: ThreadView): string {
    PayloadBytes(v.code) + HandlersBytes(v.handlers)
  }

  function ThreadsBytes(vs: seq<ThreadView>): string {
    if vs == [] then "" else ThreadsBytes(vs[..|vs| - 1]) + ThreadBytes(vs[|vs| - 1])
  }

  function VarsBytes(vs: seq<VarState>): string {
    if vs == [] then "" else VarsBytes(vs[..|vs| - 1]) + VarBytes(vs[|vs| - 1])
  }

  /** The vector of a test. */
  function Vector(test: Test): string
    requires test.Valid()
  {
    Str(OrNull(test.name)) + (Int(|test.inits|) + VarsBytes(test.inits))
      + (Int(|test.threads|) + ThreadsBytes(test.Views())) + Str(test.finalCond)
  }

  // ----- A test can be read back from its vector

  ghost predicate SameVars(a: seq<VarState>, b: seq<VarState>) {
    |a| == |b| && forall k :: 0 <= k < |a| ==> SameVar(a[k], b[k])
  }

  /** The same test, as far as it is hashed. */
  ghost predicate SameTest(a: Test, b: Test)
    requires a.Valid() && b.Valid()
  {
    && OrNull(a.name) == OrNull(b.name)
    && SameVars(a.inits, b.inits)
    && a.Views() == b.Views()
    && a.finalCond == b.finalCond
  }

  lemma {:induction false} VarsCancel(a: seq<VarState>, b: seq<VarState>, x: string, y: string)
    requires |a| == |b| && forall v :: v in a || v in b ==> VarFits(v)
    requires VarsBytes(a) + x == VarsBytes(b) + y
    ensures SameVars(a, b) && x == y
  {
    if a == [] {
      assert "" + x == x && "" + y == y;
    } else {
      var n := |a| - 1;
      VarsLast(a, x);
      VarsLast(b, y);
      VarsCancel(a[..n], b[..n], VarBytes(a[n]) + x, VarBytes(b[n]) + y);
      VarCancel(a[n], b[n], x, y);
      SameVarsMore(a, b);
    }
  }

  lemma SameVarsMore(a: seq<VarState>, b: seq<VarState>)
    requires |a| == |b| > 0 && SameVars(a[..|a| - 1], b[..|b| - 1]) && SameVar(a[|a| - 1], b[|b| - 1])
    ensures SameVars(a, b)
  {
    var n := |a| - 1;
    forall k | 0 <= k < |a| ensures SameVar(a[k], b[k]) {
      if k < n {
        assert a[..n][k] == a[k] && b[..n][k] == b[k];
        assert SameVar(a[..n][k], b[..n][k]);
      }
    }
  }

  lemma VarsLast(a: seq<VarState>, x: string)
    requires a != []
    ensures VarsBytes(a) + x == VarsBytes(a[..|a| - 1]) + (VarBytes(a[|a| - 1]) + x)
  {
    Assoc(VarsBytes(a[..|a| - 1]), VarBytes(a[|a| - 1]), x);
  }

  lemma HandlersCancel(h: Option<(seq<nat>, seq<nat>)>, k: Option<(seq<nat>, seq<nat>)>, x: string, y: string)
    requires h.Some? ==> Short(h.value.0) && Short(h.value.1)
    requires k.Some? ==> Short(k.value.0) && Short(k.value.1)
    requires HandlersBytes(h) + x == HandlersBytes(k) + y
    ensures h == k && x == y
  {
    var r := HandlersTail(h, x);
    var s := HandlersTail(k, y);
    IntCancel(if h.Some? then 2 else 0, if k.Some? then 2 else 0, r, s);
    if h.Some? {
      PayloadCancel(h.value.0, k.value.0, PayloadBytes(h.value.1) + x, PayloadBytes(k.value.1) + y);
      PayloadCancel(h.value.1, k.value.1, x, y);
    }
  }

  /** What follows the number of handlers. */
  lemma HandlersTail(h: Option<(seq<nat>, seq<nat>)>, x: string) returns (r: string)
    ensures HandlersBytes(h) + x == Int(if h.Some? then 2 else 0) + r
    ensures r == if h.None? then x else PayloadBytes(h.value.0) + (PayloadBytes(h.value.1) + x)
  {
    if h.None? {
      r := x;
    } else {
      var p, q := PayloadBytes(h.value.0), PayloadBytes(h.value.1);
      r := p + (q + x);
      Assoc(Int(2) + p, q, x);
      Assoc(Int(2), p, q + x);
    }
  }

  lemma ThreadCancel(v: ThreadView, w: ThreadView, x: string, y: string)
    requires v.Fits() && w.Fits() && ThreadBytes(v) + x == ThreadBytes(w) + y
    ensures v == w && x == y
  {
    Assoc(PayloadBytes(v.code), HandlersBytes(v.handlers), x);
    Assoc(PayloadBytes(w.code), HandlersBytes(w.handlers), y);
    PayloadCancel(v.code, w.code, HandlersBytes(v.handlers) + x, HandlersBytes(w.handlers) + y);
    HandlersCancel(v.handlers, w.handlers, x, y);
  }

  lemma {:induction false} ThreadsCancel(vs: seq<ThreadView>, ws: seq<ThreadView>, x: string, y: string)
    requires |vs| == |ws| && AllFit(vs) && AllFit(ws) && ThreadsBytes(vs) + x == ThreadsBytes(ws) + y
    ensures vs == ws && x == y
  {
    if vs == [] {
      assert "" + x == x && "" + y == y;
    } else {
      var n := |vs| - 1;
      ThreadsLast(vs, x);
      ThreadsLast(ws, y);
      ThreadsCancel(vs[..n], ws[..n], ThreadBytes(vs[n]) + x, ThreadBytes(ws[n]) + y);
      ThreadCancel(vs[n], ws[n], x, y);
      SameLists(vs, ws);
    }
  }

  lemma ThreadsLast(vs: seq<ThreadView>, x: string)
    requires vs != []
    ensures ThreadsBytes(vs) + x == ThreadsBytes(vs[..|vs| - 1]) + (ThreadBytes(vs[|vs| - 1]) + x)
  {
    Assoc(ThreadsBytes(vs[..|vs| - 1]), ThreadBytes(vs[|vs| - 1]), x);
  }

  lemma SameLists<T>(a: seq<T>, b: seq<T>)
    requires |a| == |b| > 0 && a[..|a| - 1] == b[..|b| - 1] && a[|a| - 1] == b[|b| - 1]
    ensures a == b
  {
    assert a == a[..|a| - 1] + [a[|a| - 1]];
  }

  /** A list with its length in front. */
  lemma CountedCancel(m: nat, n: nat, a: string, b: string, x: string, y: string)
    requires m < U32 && n < U32 && Int(m) + a + x == Int(n) + b + y
    ensures m == n && a + x == b + y
  {
    Assoc(Int(m), a, x);
    Assoc(Int(n), b, y);
    IntCancel(m, n, a + x, b + y);
  }

  /** Two tests with the same vector are the same test, as far as it is hashed; and no vector is the
    * beginning of another. */
  lemma UniquelyDecodable(a: Test, b: Test, x: string, y: string)
    requires a.Valid() && b.Valid() && Vector(a) + x == Vector(b) + y
    ensures SameTest(a, b) && x == y
  {
    var ia, ib := Int(|a.inits|) + VarsBytes(a.inits), Int(|b.inits|) + VarsBytes(b.inits);
    var ta, tb := Int(|a.threads|) + ThreadsBytes(a.Views()), Int(|b.threads|) + ThreadsBytes(b.Views());
    var fa, fb := Str(a.finalCond) + x, Str(b.finalCond) + y;
    VectorTail(Str(OrNull(a.name)), ia, ta, Str(a.finalCond), x);
    VectorTail(Str(OrNull(b.name)), ib, tb, Str(b.finalCond), y);
    StrCancel(OrNull(a.name), OrNull(b.name), ia + (ta + fa), ib + (tb + fb));
    CountedCancel(|a.inits|, |b.inits|, VarsBytes(a.inits), VarsBytes(b.inits), ta + fa, tb + fb);
    VarsCancel(a.inits, b.inits, ta + fa, tb + fb);
    CountedCancel(|a.threads|, |b.threads|, ThreadsBytes(a.Views()), ThreadsBytes(b.Views()), fa, fb);
    ThreadsCancel(a.Views(), b.Views(), fa, fb);
    StrCancel(a.finalCond, b.finalCond, x, y);
  }

  lemma VectorTail(n: string, i: string, t: string, f: string, x: string)
    ensures n + i + t + f + x == n + (i + (t + (f + x)))
  {
    Assoc(n + i + t, f, x);
    Assoc(n + i, t, f + x);
    Assoc(n, i, t + (f + x));
  }

  lemma {:induction false} SameVarsBytes(a: seq<VarState>, b: seq<VarState>)
    requires SameVars(a, b)
    ensures VarsBytes(a) == VarsBytes(b)
  {
    if a != [] {
      SameVarsBytes(a[..|a| - 1], b[..|b| - 1]);
      assert SameVar(a[|a| - 1], b[|b| - 1]);
    }
  }

  /** Vectors are equal exactly for tests that are the same as far as they are hashed. */
  lemma VectorsEqualExactly(a: Test, b: Test)
    requires a.Valid() && b.Valid()
    ensures Vector(a) == Vector(b) <==> SameTest(a, b)
  {
    if Vector(a) == Vector(b) {
      UniquelyDecodable(a, b, "", "");
    }
    if SameTest(a, b) {
      SameVarsBytes(a.inits, b.inits);
    }
  }
}
