/** The random concretizer of lib/litmus_test/concretization, for tests without pinned variables and
  * with page tables on: it places the variables of a test in memory at random until the places can
  * be told apart, and the checks of litmus_test_concretization_checker.c must then pass.
  */
module Concretize {
  import opened Bits
  import opened BitFields

  // own_level_t and rel_offset_t: how much a variable owns, how much of an offset is shared
  datatype Level = CacheLine | Page | Pmd | Pud | Pgd

  datatype Kind = Heap(owned: Level, identity: bool) | Alias | Fixed | Unmapped

  datatype Offset = Free | Like(other: nat, level: Level)

  datatype VarInfo = VarInfo(kind: Kind, offset: Offset)

  /** region_idx_t */
  datatype RegionIdx = RegionIdx(ix: nat, offs: nat)

  datatype VarSt = VarSt(pickedRegion: bool, pickedOffset: bool, partialVa: RegionIdx, va: nat)

  const NR_REGIONS := 16
  const REGION_SIZE := 0x80_0000
  const TESTDATA_MMAP_BASE := 0x20_0000_0000
  const TESTDATA_MMAP_GAP := 0x1_0000_0000

  /** Where the machine keeps its test data and how long its cache lines are. */
  datatype Platform = Platform(botOfTestdata: nat, cacheLineShift: nat) {
    predicate Valid() {
      Low(botOfTestdata, 21) == 0 && cacheLineShift <= 12
    }

    /** LEVEL_SHIFTS */
    function Shift(level: Level): nat {
      match level
      case CacheLine => cacheLineShift
      case Page => 12
      case Pmd => 21
      case Pud => 30
      case Pgd => 39
    }

    /** va_from_region_idx */
    function VaOf(v: VarInfo, idx: RegionIdx): nat {
      if v.kind.Heap? && v.kind.identity then botOfTestdata + idx.ix * REGION_SIZE + idx.offs
      else TESTDATA_MMAP_BASE + idx.ix * TESTDATA_MMAP_GAP + idx.offs
    }
  }

  /** TESTDATA_MMAP_VIRT_TO_PHYS, as the macros compute it */
  function VirtToPhys(bot: nat, va: nat): nat
    requires TESTDATA_MMAP_BASE <= va
  {
    bot + (va - TESTDATA_MMAP_BASE) / TESTDATA_MMAP_GAP * REGION_SIZE + (va - TESTDATA_MMAP_BASE) % REGION_SIZE
  }

  /** An identity-mapped variable gets the physical address of the place picked for it. */
  lemma IdentityIsPhysical(bot: nat, ix: nat, offs: nat)
    requires offs < REGION_SIZE
    ensures VirtToPhys(bot, TESTDATA_MMAP_BASE + ix * TESTDATA_MMAP_GAP + offs) == bot + ix * REGION_SIZE + offs
  {
    assert ix * TESTDATA_MMAP_GAP == (512 * ix) * REGION_SIZE;
    DivModUnique(ix * TESTDATA_MMAP_GAP + offs, REGION_SIZE, 512 * ix, offs);
    DivModUnique(ix * TESTDATA_MMAP_GAP + offs, TESTDATA_MMAP_GAP, ix, offs);
  }

  /** LEVEL_SIZES */
  function LevelSize(p: Platform, level: Level): nat {
    match level
    case CacheLine => Pow2(p.cacheLineShift)
    case Page => 0x1000
    case Pmd => 0x20_0000
    case Pud => 0x4000_0000
    case Pgd => 0x80_0000_0000
  }

  /** The shifts and the sizes of the levels agree. */
  lemma ShiftIsSize(p: Platform, level: Level)
    ensures Pow2(p.Shift(level)) == LevelSize(p, level)
  {
    assert Pow2(9) == 0x200;
    assert Pow2(12) == 0x1000;
    Pow2Add(9, 12);
    Pow2Add(9, 21);
    Pow2Add(9, 30);
  }

  /** var_owned_region_size */
  function OwnedLevel(v: VarInfo): Level {
    if v.kind.Heap? then v.kind.owned else Page
  }

  /** The variables of a test: offsets refer to other variables, and reach no further than 2M. */
  predicate WellFormed(vars: seq<VarInfo>) {
    forall i :: 0 <= i < |vars| ==> OffsetOk(vars, vars[i])
  }

  predicate OffsetOk(vars: seq<VarInfo>, v: VarInfo) {
    v.offset.Like? ==> v.offset.other < |vars| && !v.offset.level.Pud? && !v.offset.level.Pgd?
  }

  // ----- Regions

  /** x & ~BITMASK(s) */
  function Masked(x: nat, s: nat): nat {
    Shl(Shr(x, s), s)
  }

  /** The address x lies in the region of 2^s bytes around va. */
  predicate InRegion(x: nat, va: nat, s: nat) {
    Masked(va, s) <= x < Masked(va, s) + Pow2(s)
  }

  lemma {:induction false} ShlIsTimes(x: nat, k: nat)
    ensures Shl(x, k) == x * Pow2(k)
  {
    if k > 0 {
      ShlIsTimes(x, k - 1);
      assert x * Pow2(k) == 2 * (x * Pow2(k - 1));
    }
  }

  lemma {:induction false} MaskedLow(x: nat, s: nat)
    ensures x == Masked(x, s) + Low(x, s)
  {
    if s > 0 {
      MaskedLow(x / 2, s - 1);
    }
  }

  /** in_same_region says whether one address lies in the region around the other. */
  lemma SameRegion(x: nat, va: nat, s: nat)
    ensures InRegion(x, va, s) <==> Masked(x, s) == Masked(va, s)
    ensures InRegion(x, va, s) <==> Shr(x, s) == Shr(va, s)
  {
    MaskedLow(x, s);
    LowBound(x, s);
    ShlInjective(Shr(x, s), Shr(va, s), s);
    if InRegion(x, va, s) {
      ShlIsTimes(Shr(va, s), s);
      ShrLowDivMod(x, s);
      DivModUnique(x, Pow2(s), Shr(va, s), x - Masked(va, s));
    }
  }

  /** Two regions that do not contain each other's address have nothing in common: testing the two
    * addresses is enough. */
  lemma PointsDecide(va: nat, s: nat, vb: nat, t: nat, x: nat)
    requires !InRegion(va, vb, t) && !InRegion(vb, va, s)
    ensures !(InRegion(x, va, s) && InRegion(x, vb, t))
  {
    SameRegion(x, va, s);
    SameRegion(x, vb, t);
    SameRegion(va, vb, t);
    SameRegion(vb, va, s);
    if s <= t {
      ShrShr(x, s, t - s);
      ShrShr(va, s, t - s);
    } else {
      ShrShr(x, t, s - t);
      ShrShr(vb, t, s - t);
    }
  }

  // ----- Offsets

  /** The place with the low bits of another address. */
  function Adjusted(idx: RegionIdx, otherVa: nat, shift: nat): RegionIdx {
    idx.(offs := Or(Masked(idx.offs, shift), Low(otherVa, shift)))
  }

  lemma {:induction false} LowOfSum(q: nat, k: nat, b: nat, s: nat)
    requires s <= k
    ensures Low(Shl(q, k) + b, s) == Low(b, s)
  {
    if s > 0 {
      assert (Shl(q, k) + b) / 2 == Shl(q, k - 1) + b / 2;
      LowOfSum(q, k - 1, b / 2, s - 1);
    }
  }

  lemma {:induction false} LowIdem(x: nat, s: nat, t: nat)
    ensures t <= s ==> Low(Low(x, s), t) == Low(x, t)
    ensures s <= t ==> Low(Low(x, s), t) == Low(x, s)
  {
    if s == 0 {
      LowZero(t);
    } else if t > 0 {
      LowIdem(x / 2, s - 1, t - 1);
    }
  }

  /** A place that is good: inside its region, and 16-byte aligned. */
  predicate GoodPlace(idx: RegionIdx) {
    idx.offs < REGION_SIZE && Low(idx.offs, 4) == 0
  }

  lemma AdjustedSum(idx: RegionIdx, otherVa: nat, shift: nat)
    ensures Adjusted(idx, otherVa, shift).offs == Masked(idx.offs, shift) + Low(otherVa, shift)
    ensures Low(Adjusted(idx, otherVa, shift).offs, shift) == Low(otherVa, shift)
  {
    var n, l := Shr(idx.offs, shift), Low(otherVa, shift);
    LowBound(otherVa, shift);
    ShlZero(shift);
    OrOnTop(n, 0, l, shift);
    OrZero(n);
    LowOfSum(n, shift, l, shift);
    LowIdem(otherVa, shift, shift);
  }

  lemma {:induction false} ShlZero(k: nat)
    ensures Shl(0, k) == 0
  {
    if k > 0 {
      ShlZero(k - 1);
    }
  }

  /** Taking over the low bits of an aligned address keeps a place good. */
  lemma AdjustedGood(idx: RegionIdx, otherVa: nat, shift: nat)
    requires GoodPlace(idx) && Low(otherVa, 4) == 0 && shift <= 21
    ensures GoodPlace(Adjusted(idx, otherVa, shift))
  {
    AdjustedSum(idx, otherVa, shift);
    var l := Low(otherVa, shift);
    if shift <= 4 {
      LowFiner(otherVa, shift, 4);
      MaskedLow(idx.offs, shift);
      LowFiner(idx.offs, shift, 4);
    } else {
      LowOfSum(Shr(idx.offs, shift), shift, l, 4);
      LowIdem(otherVa, shift, 4);
    }
    AdjustedFits(idx, otherVa, shift);
  }

  lemma Powers()
    ensures Pow2(21) == 0x20_0000 && Pow2(23) == REGION_SIZE
  {
    assert Pow2(2) == 4 && Pow2(9) == 512;
    assert Pow2(12) == 0x1000;
    Pow2Add(9, 12);
    Pow2Add(2, 21);
  }

  lemma AdjustedFits(idx: RegionIdx, otherVa: nat, shift: nat)
    requires idx.offs < REGION_SIZE && shift <= 21
    ensures Masked(idx.offs, shift) + Low(otherVa, shift) < REGION_SIZE
  {
    Powers();
    ShrBound(idx.offs, shift, 23 - shift);
    LowBound(otherVa, shift);
    ShlRoom(Shr(idx.offs, shift), 23 - shift, Low(otherVa, shift), shift);
  }

  lemma {:induction false} ShlRoom(n: nat, w: nat, l: nat, k: nat)
    requires n < Pow2(w) && l < Pow2(k)
    ensures Shl(n, k) + l < Pow2(w + k)
  {
    if k > 0 {
      ShlRoom(n, w, l / 2, k - 1);
    }
  }

  /** The low 21 bits of an address are those of its place in the region. */
  lemma VaLow(p: Platform, v: VarInfo, idx: RegionIdx, s: nat)
    requires p.Valid() && s <= 21
    ensures Low(p.VaOf(v, idx), s) == Low(idx.offs, s)
  {
    var q := if v.kind.Heap? && v.kind.identity then Shr(p.botOfTestdata, 21) + 4 * idx.ix else 0x1_0000 + 0x800 * idx.ix;
    Powers();
    MaskedLow(p.botOfTestdata, 21);
    ShlIsTimes(q, 21);
    ShlIsTimes(Shr(p.botOfTestdata, 21), 21);
    LowOfSum(q, 21, idx.offs, s);
  }

  // ----- Which variables get an offset

  /** Following the offsets from variable i ends within n steps. */
  predicate Rooted(vars: seq<VarInfo>, i: nat, n: nat)
    requires WellFormed(vars) && i < |vars|
    decreases n
  {
    assert OffsetOk(vars, vars[i]);
    vars[i].offset.Free? || (n > 0 && Rooted(vars, vars[i].offset.other, n - 1))
  }

  ghost predicate HasRoot(vars: seq<VarInfo>, i: nat)
    requires WellFormed(vars) && i < |vars|
  {
    exists n: nat :: Rooted(vars, i, n)
  }

  /** The offsets do not go round in circles. */
  ghost predicate Acyclic(vars: seq<VarInfo>)
    requires WellFormed(vars)
  {
    forall i :: 0 <= i < |vars| ==> HasRoot(vars, i)
  }

  /** Variable i could be given its offset now. */
  predicate Ready(vars: seq<VarInfo>, st: seq<VarSt>, i: nat)
    requires WellFormed(vars) && |st| == |vars| && i < |vars|
  {
    assert OffsetOk(vars, vars[i]);
    vars[i].offset.Free? || st[vars[i].offset.other].pickedOffset
  }

  /** Where nothing more can be picked, whatever is left over leads round in circles. */
  lemma {:induction false} LeftOverCyclic(vars: seq<VarInfo>, st: seq<VarSt>, i: nat, n: nat)
    requires WellFormed(vars) && |st| == |vars| && i < |vars|
    requires forall j :: 0 <= j < |vars| && !st[j].pickedOffset ==> !Ready(vars, st, j)
    requires !st[i].pickedOffset
    ensures !Rooted(vars, i, n)
    decreases n
  {
    assert OffsetOk(vars, vars[i]) && !Ready(vars, st, i);
    if n > 0 {
      LeftOverCyclic(vars, st, vars[i].offset.other, n - 1);
    }
  }

  /** The address of variable i is that of its place, and has the low bits that it should share. */
  ghost predicate Placed(p: Platform, vars: seq<VarInfo>, st: seq<VarSt>, i: nat)
    requires WellFormed(vars) && |st| == |vars| && i < |vars|
  {
    assert OffsetOk(vars, vars[i]);
    && GoodPlace(st[i].partialVa) && st[i].va == p.VaOf(vars[i], st[i].partialVa)
    && Ready(vars, st, i)
    && (vars[i].offset.Like? ==> SharesBits(p, vars[i].offset.level, st[i].va, st[vars[i].offset.other].va))
  }

  /** Two addresses have the same offset at the level. */
  predicate SharesBits(p: Platform, level: Level, va: nat, vb: nat) {
    Low(va, p.Shift(level)) == Low(vb, p.Shift(level))
  }

  /** What holds while offsets are being picked. */
  ghost predicate Picking(p: Platform, vars: seq<VarInfo>, st: seq<VarSt>) {
    && p.Valid() && WellFormed(vars) && |st| == |vars|
    && (forall i :: 0 <= i < |vars| ==> GoodPlace(st[i].partialVa))
    && (forall i :: 0 <= i < |vars| && st[i].pickedOffset ==> Placed(p, vars, st, i) && HasRoot(vars, i))
  }

  /** The state after try_pick_one_offset has picked variable i. */
  function Picked(p: Platform, vars: seq<VarInfo>, st: seq<VarSt>, i: nat): VarSt
    requires WellFormed(vars) && |st| == |vars| && i < |vars|
  {
    assert OffsetOk(vars, vars[i]);
    var idx := if vars[i].offset.Free? then st[i].partialVa
               else Adjusted(st[i].partialVa, st[vars[i].offset.other].va, p.Shift(vars[i].offset.level));
    st[i].(partialVa := idx, va := p.VaOf(vars[i], idx), pickedOffset := true)
  }

  lemma PickKeeps(p: Platform, vars: seq<VarInfo>, st: seq<VarSt>, i: nat)
    requires Picking(p, vars, st) && i < |vars| && !st[i].pickedOffset && Ready(vars, st, i)
    ensures Picking(p, vars, st[i := Picked(p, vars, st, i)])
  {
    var st' := st[i := Picked(p, vars, st, i)];
    assert OffsetOk(vars, vars[i]);
    PickedPlaced(p, vars, st, i);
    forall j | 0 <= j < |vars| && st'[j].pickedOffset ensures Placed(p, vars, st', j) && HasRoot(vars, j) {
      if j != i {
        assert Placed(p, vars, st, j) && OffsetOk(vars, vars[j]);
      }
    }
  }

  lemma PickedPlaced(p: Platform, vars: seq<VarInfo>, st: seq<VarSt>, i: nat)
    requires Picking(p, vars, st) && i < |vars| && !st[i].pickedOffset && Ready(vars, st, i)
    ensures Placed(p, vars, st[i := Picked(p, vars, st, i)], i) && HasRoot(vars, i)
  {
    assert OffsetOk(vars, vars[i]);
    var v, place := vars[i], st[i].partialVa;
    if v.offset.Free? {
      assert Rooted(vars, i, 0);
    } else {
      var o, s := v.offset.other, p.Shift(v.offset.level);
      assert Placed(p, vars, st, o) && HasRoot(vars, o);
      var n: nat :| Rooted(vars, o, n);
      assert Rooted(vars, i, n + 1);
      VaLow(p, vars[o], st[o].partialVa, 4);
      AdjustedGood(place, st[o].va, s);
      AdjustedSum(place, st[o].va, s);
      VaLow(p, v, Adjusted(place, st[o].va, s), s);
    }
  }

  // ----- Validation

  /** var x is in the region that var i owns */
  predicate Overlaps(p: Platform, vars: seq<VarInfo>, st: seq<VarSt>, x: nat, i: nat)
    requires |st| == |vars| && x < |vars| && i < |vars|
  {
    InRegion(st[x].va, st[i].va, p.Shift(OwnedLevel(vars[i])))
  }

  /** The variables can be told apart: no other one is in the region that one of them owns. */
  ghost predicate Apart(p: Platform, vars: seq<VarInfo>, st: seq<VarSt>)
    requires |st| == |vars|
  {
    forall x, i :: 0 <= x < |vars| && 0 <= i < |vars| && x != i ==> !Overlaps(p, vars, st, x, i)
  }

  /** The whole regions are disjoint. */
  lemma RegionsDisjoint(p: Platform, vars: seq<VarInfo>, st: seq<VarSt>, i: nat, j: nat, x: nat)
    requires |st| == |vars| && Apart(p, vars, st) && i < |vars| && j < |vars| && i != j
    ensures !(InRegion(x, st[i].va, p.Shift(OwnedLevel(vars[i]))) && InRegion(x, st[j].va, p.Shift(OwnedLevel(vars[j]))))
  {
    assert !Overlaps(p, vars, st, i, j) && !Overlaps(p, vars, st, j, i);
    PointsDecide(st[i].va, p.Shift(OwnedLevel(vars[i])), st[j].va, p.Shift(OwnedLevel(vars[j])), x);
  }

  // ----- The three checks

  /** concretize_postcheck_no_overlap_owned */
  ghost predicate NoOverlapOwned(p: Platform, vars: seq<VarInfo>, values: seq<nat>)
    requires |values| == |vars|
  {
    forall i, j :: 0 <= i < |vars| && 0 <= j < |vars| && i != j && vars[i].kind.Heap? ==>
      Masked(values[i], p.Shift(vars[i].kind.owned)) != Masked(values[j], p.Shift(vars[i].kind.owned))
  }

  /** concretize_postcheck_related_same_bits */
  ghost predicate RelatedSameBits(p: Platform, vars: seq<VarInfo>, values: seq<nat>)
    requires WellFormed(vars) && |values| == |vars|
  {
    forall i :: 0 <= i < |vars| && OffsetOk(vars, vars[i]) && vars[i].offset.Like? ==>
      SharesBits(p, vars[i].offset.level, values[i], values[vars[i].offset.other])
  }

  /** concretize_postcheck_aligned */
  ghost predicate AlignedTo8(values: seq<nat>) {
    forall i :: 0 <= i < |values| ==> Low(values[i], 3) == 0
  }

  /** concretization_postcheck */
  ghost predicate Postcheck(p: Platform, vars: seq<VarInfo>, values: seq<nat>)
    requires WellFormed(vars) && |values| == |vars|
  {
    NoOverlapOwned(p, vars, values) && RelatedSameBits(p, vars, values) && AlignedTo8(values)
  }

  function Values(st: seq<VarSt>): (v: seq<nat>)
    ensures |v| == |st|
  {
    seq(|st|, i requires 0 <= i < |st| => st[i].va)
  }

  /** Whatever the generator accepts passes the independent checks. */
  lemma AcceptedPasses(p: Platform, vars: seq<VarInfo>, st: seq<VarSt>)
    requires Picking(p, vars, st) && Apart(p, vars, st)
    requires forall i :: 0 <= i < |vars| ==> st[i].pickedOffset
    ensures Postcheck(p, vars, Values(st))
  {
    var values := Values(st);
    forall i, j | 0 <= i < |vars| && 0 <= j < |vars| && i != j && vars[i].kind.Heap?
      ensures Masked(values[i], p.Shift(vars[i].kind.owned)) != Masked(values[j], p.Shift(vars[i].kind.owned))
    {
      assert !Overlaps(p, vars, st, j, i);
      SameRegion(values[j], values[i], p.Shift(vars[i].kind.owned));
    }
    forall i | 0 <= i < |vars|
      ensures Low(values[i], 3) == 0
      ensures OffsetOk(vars, vars[i]) && vars[i].offset.Like? ==>
        SharesBits(p, vars[i].offset.level, values[i], values[vars[i].offset.other])
    {
      assert Placed(p, vars, st, i);
      VaLow(p, vars[i], st[i].partialVa, 3);
      LowFiner(st[i].partialVa.offs, 3, 4);
    }
  }

  method CheckNoOverlapOwned(p: Platform, vars: seq<VarInfo>, values: seq<nat>) returns (ok: bool)
    requires |values| == |vars|
    ensures ok == NoOverlapOwned(p, vars, values)
  {
    for i := 0 to |vars|
      invariant forall x, j :: 0 <= x < i && 0 <= j < |vars| && x != j && vars[x].kind.Heap? ==>
        Masked(values[x], p.Shift(vars[x].kind.owned)) != Masked(values[j], p.Shift(vars[x].kind.owned))
    {
      if vars[i].kind.Heap? {
        var s := p.Shift(vars[i].kind.owned);
        for j := 0 to |vars|
          invariant forall y :: 0 <= y < j && y != i ==> Masked(values[i], s) != Masked(values[y], s)
        {
          if j != i && Masked(values[i], s) == Masked(values[j], s) {
            return false;
          }
        }
      }
    }
    return true;
  }

  method CheckRelatedSameBits(p: Platform, vars: seq<VarInfo>, values: seq<nat>) returns (ok: bool)
    requires WellFormed(vars) && |values| == |vars|
    ensures ok == RelatedSameBits(p, vars, values)
  {
    for i := 0 to |vars|
      invariant forall x :: 0 <= x < i && OffsetOk(vars, vars[x]) && vars[x].offset.Like? ==>
        SharesBits(p, vars[x].offset.level, values[x], values[vars[x].offset.other])
    {
      assert OffsetOk(vars, vars[i]);
      if vars[i].offset.Like? {
        var lvl := p.Shift(vars[i].offset.level);
        if Low(values[i], lvl) != Low(values[vars[i].offset.other], lvl) {
          return false;
        }
      }
    }
    return true;
  }

  method CheckAligned(values: seq<nat>) returns (ok: bool)
    ensures ok == AlignedTo8(values)
  {
    for i := 0 to |values|
      invariant forall x :: 0 <= x < i ==> Low(values[x], 3) == 0
    {
      if Low(values[i], 3) != 0 {
        return false;
      }
    }
    return true;
  }

  // ----- The generator

  /** What randrange can return for a place in the test data. */
  predicate InRange(choice: RegionIdx) {
    choice.ix < NR_REGIONS - 1 && choice.offs < REGION_SIZE - 1
  }

  /** rand_idx, with what randrange returned. */
  function RandIdx(choice: RegionIdx): RegionIdx {
    choice.(offs := Masked(choice.offs, 4))
  }

  /** The places are those chosen, but for the low bits that offsets prescribe for what is picked. */
  ghost predicate Built(p: Platform, vars: seq<VarInfo>, choices: seq<RegionIdx>, st: seq<VarSt>) {
    && WellFormed(vars) && |st| == |vars| == |choices|
    && forall i :: 0 <= i < |vars| ==> BuiltAt(p, vars, choices, st, i)
  }

  ghost predicate BuiltAt(p: Platform, vars: seq<VarInfo>, choices: seq<RegionIdx>, st: seq<VarSt>, i: nat)
    requires WellFormed(vars) && |st| == |vars| == |choices| && i < |vars|
  {
    assert OffsetOk(vars, vars[i]);
    st[i].partialVa ==
    if st[i].pickedOffset && vars[i].offset.Like?
    then Adjusted(RandIdx(choices[i]), st[vars[i].offset.other].va, p.Shift(vars[i].offset.level))
    else RandIdx(choices[i])
  }

  lemma PickBuilds(p: Platform, vars: seq<VarInfo>, choices: seq<RegionIdx>, st: seq<VarSt>, i: nat)
    requires Picking(p, vars, st) && Built(p, vars, choices, st)
    requires i < |vars| && !st[i].pickedOffset && Ready(vars, st, i)
    ensures Built(p, vars, choices, st[i := Picked(p, vars, st, i)])
  {
    var st' := st[i := Picked(p, vars, st, i)];
    forall j | 0 <= j < |vars| ensures BuiltAt(p, vars, choices, st', j) {
      assert BuiltAt(p, vars, choices, st, j) && OffsetOk(vars, vars[j]);
      if st[j].pickedOffset {
        assert Placed(p, vars, st, j);
      }
    }
  }

  /** Everything has been placed as chosen. */
  ghost predicate PlacementOf(p: Platform, vars: seq<VarInfo>, choices: seq<RegionIdx>, st: seq<VarSt>) {
    && Picking(p, vars, st) && Built(p, vars, choices, st)
    && forall i :: 0 <= i < |vars| ==> st[i].pickedOffset
  }

  /** The value is the virtual address of the place in the test data, or its physical address for a
    * variable that is mapped to itself. */
  predicate IsAddressOf(p: Platform, v: VarInfo, ix: nat, offs: nat, value: nat) {
    var va := 0x20_0000_0000 + ix * 0x1_0000_0000 + offs;
    if v.kind.Heap? && v.kind.identity
    then value == VirtToPhys(p.botOfTestdata, va) == p.botOfTestdata + ix * 0x80_0000 + offs
    else value == va
  }

  /** Variable i is in the region chosen for it: where it was chosen to be, rounded down to 16 bytes, but
    * with an offset at that of the other variable. */
  predicate IsChosen(p: Platform, vars: seq<VarInfo>, choice: RegionIdx, values: seq<nat>, i: nat, offs: nat)
    requires WellFormed(vars) && |values| == |vars| && i < |vars|
  {
    assert OffsetOk(vars, vars[i]);
    var given := choice.offs - choice.offs % 16;
    && choice.ix < 15 && offs < 0x80_0000 && IsAddressOf(p, vars[i], choice.ix, offs, values[i])
    && match vars[i].offset
       case Free => offs == given
       case Like(other, level) =>
         var n := LevelSize(p, level);
         0 < n && offs / n == given / n && offs % n == values[other] % n == values[i] % n
  }

  ghost predicate ChosenAt(p: Platform, vars: seq<VarInfo>, choices: seq<RegionIdx>, values: seq<nat>, i: nat)
    requires WellFormed(vars) && |values| == |vars| == |choices| && i < |vars|
  {
    exists offs: nat :: IsChosen(p, vars, choices[i], values, i, offs)
  }

  /** The addresses are those of one attempt's choices. */
  ghost predicate AllChosen(p: Platform, vars: seq<VarInfo>, choices: seq<RegionIdx>, values: seq<nat>) {
    && WellFormed(vars) && |values| == |vars| == |choices|
    && forall i :: 0 <= i < |vars| ==> ChosenAt(p, vars, choices, values, i)
  }

  /** No variable has an address in the region that another one owns. */
  ghost predicate AllDistinct(p: Platform, vars: seq<VarInfo>, values: seq<nat>)
    requires |values| == |vars|
  {
    forall i, j :: 0 <= i < |vars| && 0 <= j < |vars| && i != j ==> !SameOwned(p, vars, values, i, j)
  }

  predicate SameOwned(p: Platform, vars: seq<VarInfo>, values: seq<nat>, i: nat, j: nat)
    requires |values| == |vars| && i < |vars| && j < |vars|
  {
    var n := LevelSize(p, if vars[i].kind.Heap? then vars[i].kind.owned else Page);
    0 < n && values[i] / n == values[j] / n
  }

  lemma VaIsAddress(p: Platform, v: VarInfo, idx: RegionIdx)
    requires idx.offs < REGION_SIZE
    ensures IsAddressOf(p, v, idx.ix, idx.offs, p.VaOf(v, idx))
  {
    IdentityIsPhysical(p.botOfTestdata, idx.ix, idx.offs);
  }

  lemma GivenPlace(choice: RegionIdx)
    ensures RandIdx(choice) == choice.(offs := choice.offs - choice.offs % 16)
  {
    MaskedLow(choice.offs, 4);
    ShrLowDivMod(choice.offs, 4);
    assert Pow2(4) == 16;
  }

  lemma AdjustedPlace(idx: RegionIdx, otherVa: nat, s: nat)
    ensures Adjusted(idx, otherVa, s).offs / Pow2(s) == idx.offs / Pow2(s)
    ensures Adjusted(idx, otherVa, s).offs % Pow2(s) == otherVa % Pow2(s)
  {
    AdjustedSum(idx, otherVa, s);
    ShrLowDivMod(otherVa, s);
    ShrLowDivMod(idx.offs, s);
    ShlIsTimes(Shr(idx.offs, s), s);
    LowBound(otherVa, s);
    DivModUnique(Adjusted(idx, otherVa, s).offs, Pow2(s), Shr(idx.offs, s), Low(otherVa, s));
  }

  lemma PlacementChosen(p: Platform, vars: seq<VarInfo>, choices: seq<RegionIdx>, st: seq<VarSt>, i: nat)
    requires PlacementOf(p, vars, choices, st) && i < |vars| && InRange(choices[i])
    ensures IsChosen(p, vars, choices[i], Values(st), i, st[i].partialVa.offs)
  {
    assert OffsetOk(vars, vars[i]);
    assert BuiltAt(p, vars, choices, st, i) && Placed(p, vars, st, i);
    VaIsAddress(p, vars[i], st[i].partialVa);
    GivenPlace(choices[i]);
    if vars[i].offset.Like? {
      var s := p.Shift(vars[i].offset.level);
      AdjustedPlace(RandIdx(choices[i]), st[vars[i].offset.other].va, s);
      ShrLowDivMod(st[i].va, s);
      ShrLowDivMod(st[vars[i].offset.other].va, s);
      ShiftIsSize(p, vars[i].offset.level);
    }
  }

  lemma PlacementIs(p: Platform, vars: seq<VarInfo>, choices: seq<RegionIdx>, st: seq<VarSt>)
    requires PlacementOf(p, vars, choices, st) && forall c :: c in choices ==> InRange(c)
    ensures AllChosen(p, vars, choices, Values(st))
  {
    forall i | 0 <= i < |vars| ensures ChosenAt(p, vars, choices, Values(st), i) {
      PlacementChosen(p, vars, choices, st, i);
    }
  }

  /** Keeping the variables apart is having no address in the region that another variable owns. */
  lemma ApartIsDistinct(p: Platform, vars: seq<VarInfo>, st: seq<VarSt>)
    requires |st| == |vars|
    ensures Apart(p, vars, st) <==> AllDistinct(p, vars, Values(st))
  {
    forall i, j | 0 <= i < |vars| && 0 <= j < |vars|
      ensures SameOwned(p, vars, Values(st), i, j) <==> Overlaps(p, vars, st, j, i)
    {
      var level := if vars[i].kind.Heap? then vars[i].kind.owned else Page;
      SameRegion(st[j].va, st[i].va, p.Shift(level));
      ShrLowDivMod(st[i].va, p.Shift(level));
      ShrLowDivMod(st[j].va, p.Shift(level));
      ShiftIsSize(p, level);
    }
  }

  /** The choices lead to addresses of which one is in the region that another variable owns. */
  ghost predicate Clashes(p: Platform, vars: seq<VarInfo>, choices: seq<RegionIdx>) {
    exists values :: AllChosen(p, vars, choices, values) && !AllDistinct(p, vars, values)
  }

  lemma RejectedClashes(p: Platform, vars: seq<VarInfo>, choices: seq<RegionIdx>)
    requires Rejected(p, vars, choices) && forall c :: c in choices ==> InRange(c)
    ensures Clashes(p, vars, choices)
  {
    var st :| Rejects(p, vars, choices, st);
    PlacementIs(p, vars, choices, st);
    ApartIsDistinct(p, vars, st);
  }

  lemma LowIsModulo(x: nat, s: nat)
    ensures Low(x, s) == x % Pow2(s)
  {
    ShrLowDivMod(x, s);
  }

  lemma MaskedIsSame(x: nat, y: nat, s: nat)
    ensures 0 < Pow2(s) && (Masked(x, s) == Masked(y, s) <==> x / Pow2(s) == y / Pow2(s))
  {
    SameRegion(x, y, s);
    ShrLowDivMod(x, s);
    ShrLowDivMod(y, s);
  }

  /** The postchecks in numbers: no other address is in the region that a heap variable owns, an address
    * with an offset has the remainder of the other's, and all of them are multiples of 8. */
  lemma PostcheckExactly(p: Platform, vars: seq<VarInfo>, values: seq<nat>)
    requires WellFormed(vars) && |values| == |vars|
    ensures NoOverlapOwned(p, vars, values) <==>
      forall i, j :: 0 <= i < |vars| && 0 <= j < |vars| && i != j && vars[i].kind.Heap? ==> !SameOwned(p, vars, values, i, j)
    ensures RelatedSameBits(p, vars, values) <==>
      forall i :: 0 <= i < |vars| && OffsetOk(vars, vars[i]) && vars[i].offset.Like? ==>
        var n := LevelSize(p, vars[i].offset.level); 0 < n && values[i] % n == values[vars[i].offset.other] % n
    ensures AlignedTo8(values) <==> forall i :: 0 <= i < |values| ==> values[i] % 8 == 0
  {
    forall i, j | 0 <= i < |vars| && 0 <= j < |vars| && vars[i].kind.Heap?
      ensures Masked(values[i], p.Shift(vars[i].kind.owned)) == Masked(values[j], p.Shift(vars[i].kind.owned))
              <==> SameOwned(p, vars, values, i, j)
    {
      MaskedIsSame(values[i], values[j], p.Shift(vars[i].kind.owned));
      ShiftIsSize(p, vars[i].kind.owned);
    }
    forall x: nat, level
      ensures 0 < LevelSize(p, level) && Low(x, p.Shift(level)) == x % LevelSize(p, level)
    {
      LowIsModulo(x, p.Shift(level));
      ShiftIsSize(p, level);
    }
    forall x: nat ensures Low(x, 3) == x % 8 {
      LowIsModulo(x, 3);
      assert Pow2(3) == 8;
    }
  }

  /** The random places lead to one placement only. */
  lemma {:induction false} OnePlacement(p: Platform, vars: seq<VarInfo>, choices: seq<RegionIdx>, st: seq<VarSt>, st': seq<VarSt>,
                                        i: nat, n: nat)
    requires PlacementOf(p, vars, choices, st) && PlacementOf(p, vars, choices, st')
    requires i < |vars| && Rooted(vars, i, n)
    ensures st[i].va == st'[i].va
    decreases n
  {
    assert OffsetOk(vars, vars[i]);
    assert BuiltAt(p, vars, choices, st, i) && BuiltAt(p, vars, choices, st', i);
    assert Placed(p, vars, st, i) && Placed(p, vars, st', i);
    if vars[i].offset.Like? {
      OnePlacement(p, vars, choices, st, st', vars[i].offset.other, n - 1);
    }
  }

  datatype Status = Done | Cyclic | StillTrying

  function Unpicked(st: seq<VarSt>): nat {
    if st == [] then 0 else (if st[0].pickedOffset then 0 else 1) + Unpicked(st[1..])
  }

  lemma {:induction false} PickLowers(st: seq<VarSt>, i: nat, v: VarSt)
    requires i < |st| && !st[i].pickedOffset && v.pickedOffset
    ensures Unpicked(st[i := v]) < Unpicked(st)
  {
    if i > 0 {
      assert st[i := v][1..] == st[1..][i - 1 := v];
      PickLowers(st[1..], i - 1, v);
    } else {
      assert st[i := v][1..] == st[1..];
    }
  }

  lemma MaskedPlace(offs: nat)
    ensures Masked(offs, 4) <= offs && Low(Masked(offs, 4), 4) == 0
  {
    MaskedLow(offs, 4);
    LowShl(Shr(offs, 4), 4, 4);
  }

  class Concretizer {
    const p: Platform
    const vars: seq<VarInfo>
    const st: array<VarSt>

    ghost predicate Valid()
      reads st
    {
      Picking(p, vars, st[..])
    }

    constructor (p: Platform, vars: seq<VarInfo>)
      requires p.Valid() && WellFormed(vars)
      ensures Valid() && fresh(st) && this.p == p && this.vars == vars
    {
      this.p, this.vars := p, vars;
      st := new VarSt[|vars|](_ => VarSt(false, false, RegionIdx(0, 0), 0));
      new;
      LowZero(4);
    }

    /** reset_st */
    method Reset()
      requires Valid()
      modifies st
      ensures Valid() && forall j :: 0 <= j < st.Length ==> !st[j].pickedRegion && !st[j].pickedOffset
    {
      for i := 0 to |vars|
        invariant forall j :: 0 <= j < st.Length ==> st[j].partialVa == old(st[j].partialVa)
        invariant forall j :: 0 <= j < i ==> !st[j].pickedRegion && !st[j].pickedOffset
      {
        st[i] := st[i].(pickedRegion := false, pickedOffset := false);
      }
    }

    /** pick_one_region, for a variable that nothing is pinned to */
    method PickOneRegion(i: nat, choice: RegionIdx)
      requires Valid() && i < st.Length && InRange(choice) && !st[i].pickedOffset
      modifies st
      ensures Valid()
      ensures st[..] == old(st[..])[i := old(st[i]).(partialVa := RandIdx(choice), pickedRegion := true)]
    {
      MaskedPlace(choice.offs);
      ghost var was := st[..];
      st[i] := st[i].(partialVa := RandIdx(choice), pickedRegion := true);
      PlacedStays(p, vars, was, st[..], i);
    }

    /** The two loops that pick regions: first for the variables without an offset. */
    method PickRegions(choices: seq<RegionIdx>)
      requires Valid() && |choices| == |vars| && forall c :: c in choices ==> InRange(c)
      requires forall j :: 0 <= j < st.Length ==> !st[j].pickedOffset
      modifies st
      ensures Valid() && forall j :: 0 <= j < st.Length ==> !st[j].pickedOffset && st[j].pickedRegion
      ensures Built(p, vars, choices, st[..])
    {
      for i := 0 to |vars|
        invariant Valid() && forall j :: 0 <= j < st.Length ==> !st[j].pickedOffset
        invariant forall j :: 0 <= j < i && vars[j].offset.Free? ==> st[j].pickedRegion && st[j].partialVa == RandIdx(choices[j])
      {
        if vars[i].offset.Free? {
          PickOneRegion(i, choices[i]);
        }
      }
      for i := 0 to |vars|
        invariant Valid() && forall j :: 0 <= j < st.Length ==> !st[j].pickedOffset
        invariant forall j :: 0 <= j < st.Length && (j < i || vars[j].offset.Free?) ==>
          st[j].pickedRegion && st[j].partialVa == RandIdx(choices[j])
      {
        if vars[i].offset.Like? {
          PickOneRegion(i, choices[i]);
        }
      }
    }

    /** try_pick_one_offset */
    method TryPickOneOffset(i: nat) returns (picked: bool)
      requires Valid() && i < st.Length && !st[i].pickedOffset
      modifies st
      ensures Valid() && picked == Ready(vars, old(st[..]), i)
      ensures st[..] == if picked then old(st[..])[i := Picked(p, vars, old(st[..]), i)] else old(st[..])
    {
      ghost var was := st[..];
      assert OffsetOk(vars, vars[i]);
      var idx := st[i].partialVa;
      if vars[i].offset.Like? {
        var other := vars[i].offset.other;
        if !st[other].pickedOffset {
          return false;
        }
        idx := Adjusted(idx, st[other].va, p.Shift(vars[i].offset.level));
      }
      PickKeeps(p, vars, was, i);
      st[i] := st[i].(partialVa := idx, va := p.VaOf(vars[i], idx), pickedOffset := true);
      assert st[..] == was[i := Picked(p, vars, was, i)];
      return true;
    }

    /** One round of the offset loop: the first variable that can be given its offset gets it. */
    method PickNextOffset(ghost choices: seq<RegionIdx>) returns (picked: bool)
      requires Valid() && Built(p, vars, choices, st[..])
      modifies st
      ensures Valid() && Built(p, vars, choices, st[..])
      ensures picked ==> Unpicked(st[..]) < Unpicked(old(st[..]))
      ensures !picked ==> st[..] == old(st[..])
      ensures !picked ==> forall j :: 0 <= j < |vars| && !st[j].pickedOffset ==> !Ready(vars, st[..], j)
    {
      picked := false;
      for i := 0 to |vars|
        invariant Valid() && !picked && st[..] == old(st[..])
        invariant forall j :: 0 <= j < i && !st[j].pickedOffset ==> !Ready(vars, st[..], j)
      {
        if !st[i].pickedOffset {
          picked := TryPickOneOffset(i);
          if picked {
            PickBuilds(p, vars, choices, old(st[..]), i);
            PickLowers(old(st[..]), i, st[i]);
            return;
          }
        }
      }
    }

    /** The offset loop: it ends, and every variable has got its offset exactly when the offsets do
      * not go round in circles. */
    method PickOffsets(ghost choices: seq<RegionIdx>)
      requires Valid() && Built(p, vars, choices, st[..])
      modifies st
      ensures Valid() && Built(p, vars, choices, st[..])
      ensures (forall j :: 0 <= j < st.Length ==> st[j].pickedOffset) <==> Acyclic(vars)
    {
      var picked := true;
      while picked
        invariant Valid() && Built(p, vars, choices, st[..])
        invariant !picked ==> forall j :: 0 <= j < |vars| && !st[j].pickedOffset ==> !Ready(vars, st[..], j)
        decreases Unpicked(st[..]), picked
      {
        picked := PickNextOffset(choices);
      }
      AllOrCyclic(p, vars, st[..]);
    }

    /** validate_selection: no other variable is at this one's address or owns the region around it. */
    method ValidateSelection(i: nat) returns (ok: bool)
      requires Valid() && i < st.Length
      ensures ok <==> forall j :: 0 <= j < |vars| && j != i ==> !Overlaps(p, vars, st[..], i, j)
    {
      for j := 0 to |vars|
        invariant forall y :: 0 <= y < j && y != i ==> !Overlaps(p, vars, st[..], i, y)
      {
        if j != i {
          var shift := p.Shift(OwnedLevel(vars[j]));
          var lo := Masked(st[j].va, shift);
          SameRegion(st[i].va, st[j].va, shift);
          assert Overlaps(p, vars, st[..], i, j) <==> InRegion(st[i].va, st[j].va, shift);
          if st[i].va == st[j].va || (lo <= st[i].va && st[i].va < lo + Pow2(shift)) {
            return false;
          }
        }
      }
      return true;
    }

    /** The loop that validates every variable. */
    method ValidateAll() returns (ok: bool)
      requires Valid()
      ensures ok <==> Apart(p, vars, st[..])
    {
      for i := 0 to |vars|
        invariant forall x, j :: 0 <= x < i && 0 <= j < |vars| && x != j ==> !Overlaps(p, vars, st[..], x, j)
      {
        ok := ValidateSelection(i);
        if !ok {
          return;
        }
      }
      return true;
    }

    /** One attempt: it gives up exactly when the offsets of the test go round in circles, and accepts
      * exactly the placements that keep the variables apart. */
    method Attempt(choices: seq<RegionIdx>) returns (ok: bool, valid: bool)
      requires Valid() && |choices| == |vars| && forall c :: c in choices ==> InRange(c)
      modifies st
      ensures Valid() && ok == Acyclic(vars)
      ensures ok ==> PlacementOf(p, vars, choices, st[..]) && valid == Apart(p, vars, st[..])
    {
      Reset();
      PickRegions(choices);
      PickOffsets(choices);
      for i := 0 to |vars|
        invariant forall j :: 0 <= j < i ==> st[j].pickedOffset
      {
        if !st[i].pickedOffset {
          return false, false;
        }
      }
      ok := true;
      valid := ValidateAll();
    }

    /** concretize_random_one, with the random places of each attempt given.  It gives up exactly when
      * the offsets of the test go round in circles; otherwise it ends with the first attempt whose
      * placement is valid.  Such a placement passes the postchecks. */
    method ConcretizeRandomOne(attempts: seq<seq<RegionIdx>>) returns (status: Status, values: seq<nat>)
      requires Valid()
      requires forall k :: 0 <= k < |attempts| ==> |attempts[k]| == |vars| && forall c :: c in attempts[k] ==> InRange(c)
      modifies st
      ensures Valid()
      ensures status == Cyclic <==> attempts != [] && !Acyclic(vars)
      ensures status == StillTrying ==>
        forall k :: 0 <= k < |attempts| ==> Rejected(p, vars, attempts[k]) && Clashes(p, vars, attempts[k])
      ensures status == Done ==> |values| == |vars| && values == Values(st[..]) && Apart(p, vars, st[..])
      ensures status == Done ==> exists k :: 0 <= k < |attempts| && PlacementOf(p, vars, attempts[k], st[..])
                                             && forall j :: 0 <= j < k ==> Rejected(p, vars, attempts[j])
      ensures status == Done ==> exists k :: 0 <= k < |attempts| && AllChosen(p, vars, attempts[k], values)
                                             && forall j :: 0 <= j < k ==> Clashes(p, vars, attempts[j])
      ensures status == Done ==> AllDistinct(p, vars, values) && Postcheck(p, vars, values)
    {
      var k := 0;
      while k < |attempts|
        invariant k <= |attempts| && Valid() && (k > 0 ==> Acyclic(vars))
        invariant forall j :: 0 <= j < k ==> Rejected(p, vars, attempts[j]) && Clashes(p, vars, attempts[j])
      {
        var ok, valid := Attempt(attempts[k]);
        if !ok {
          return Cyclic, [];
        }
        if valid {
          AcceptedPasses(p, vars, st[..]);
          PlacementIs(p, vars, attempts[k], st[..]);
          ApartIsDistinct(p, vars, st[..]);
          values := seq(st.Length, i requires 0 <= i < st.Length reads st => st[i].va);
          assert values == Values(st[..]);
          return Done, values;
        }
        assert Rejects(p, vars, attempts[k], st[..]);
        RejectedClashes(p, vars, attempts[k]);
        k := k + 1;
      }
      return StillTrying, [];
    }
  }

  /** The attempt ends in a placement that does not keep the variables apart. */
  ghost predicate Rejected(p: Platform, vars: seq<VarInfo>, choices: seq<RegionIdx>) {
    exists st :: Rejects(p, vars, choices, st)
  }

  ghost predicate Rejects(p: Platform, vars: seq<VarInfo>, choices: seq<RegionIdx>, st: seq<VarSt>) {
    PlacementOf(p, vars, choices, st) && !Apart(p, vars, st)
  }

  lemma PlacedStays(p: Platform, vars: seq<VarInfo>, st: seq<VarSt>, st': seq<VarSt>, i: nat)
    requires Picking(p, vars, st) && i < |st| == |st'| && !st[i].pickedOffset && !st'[i].pickedOffset
    requires GoodPlace(st'[i].partialVa) && forall j :: 0 <= j < |st| && j != i ==> st'[j] == st[j]
    ensures Picking(p, vars, st')
  {
    forall j | 0 <= j < |vars| && st'[j].pickedOffset ensures Placed(p, vars, st', j) && HasRoot(vars, j) {
      assert Placed(p, vars, st, j) && OffsetOk(vars, vars[j]);
    }
  }

  lemma AllOrCyclic(p: Platform, vars: seq<VarInfo>, st: seq<VarSt>)
    requires Picking(p, vars, st)
    requires forall j :: 0 <= j < |vars| && !st[j].pickedOffset ==> !Ready(vars, st, j)
    ensures (forall j :: 0 <= j < |st| ==> st[j].pickedOffset) <==> Acyclic(vars)
  {
    forall j | 0 <= j < |st| ensures st[j].pickedOffset <==> HasRoot(vars, j) {
      if !st[j].pickedOffset {
        forall n: nat ensures !Rooted(vars, j, n) {
          LeftOverCyclic(vars, st, j, n);
        }
      }
    }
  }
}
