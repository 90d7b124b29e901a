/** The page-table descriptors of lib/arch/vmm/vmm_entries.c: packing fields into a 64-bit word by
  * shifts and ors, and taking them out again.
  */
module BitFields {
  import opened Bits

  /** x >> k */
  function Shr(x: nat, k: nat): nat {
    if k == 0 then x else Shr(x / 2, k - 1)
  }

  /** x << k */
  function Shl(x: nat, k: nat): nat {
    if k == 0 then x else 2 * Shl(x, k - 1)
  }

  /** The low k bits of x. */
  function Low(x: nat, k: nat): nat {
    if k == 0 then 0 else 2 * Low(x / 2, k - 1) + x % 2
  }

  /** BIT_SLICE(x, bot + width - 1, bot) */
  function Slice(x: nat, bot: nat, width: nat): nat {
    Low(Shr(x, bot), width)
  }

  /** A value in some consecutive bits of a word. */
  datatype Field = Field(value: nat, start: nat, width: nat) {
    predicate Fits() { value < Pow2(width) }

    function Shifted(): nat { Shl(value, start) }

    predicate ClearOf(bot: nat, w: nat) {
      start + width <= bot || bot + w <= start
    }
  }

  /** The fields, or-ed together from left to right. */
  function OrAll(fs: seq<Field>): nat {
    if fs == [] then 0 else Or(OrAll(fs[..|fs| - 1]), fs[|fs| - 1].Shifted())
  }

  // ----- Or, one bit at a time

  lemma OrZero(x: nat)
    ensures Or(x, 0) == x && Or(0, x) == x
  {
  }

  lemma OrCons(u: nat, p: nat, v: nat, q: nat)
    requires p < 2 && q < 2
    ensures Or(2 * u + p, 2 * v + q) == 2 * Or(u, v) + if p == 1 || q == 1 then 1 else 0
  {
    var a, b := 2 * u + p, 2 * v + q;
    assert a / 2 == u && b / 2 == v && a % 2 == p && b % 2 == q;
    assert Or(0, v) == v && Or(u, 0) == u by { assert u == 0 || Or(u, 0) == u; }
  }

  lemma OrSplit(a: nat, b: nat)
    ensures Or(a, b) == 2 * Or(a / 2, b / 2) + if a % 2 == 1 || b % 2 == 1 then 1 else 0
  {
    OrCons(a / 2, a % 2, b / 2, b % 2);
  }

  lemma {:induction false} OrShr(a: nat, b: nat, k: nat)
    ensures Shr(Or(a, b), k) == Or(Shr(a, k), Shr(b, k))
  {
    if k > 0 {
      OrSplit(a, b);
      OrShr(a / 2, b / 2, k - 1);
    }
  }

  lemma {:induction false} OrLow(a: nat, b: nat, k: nat)
    ensures Low(Or(a, b), k) == Or(Low(a, k), Low(b, k))
  {
    if k > 0 {
      var u, v, p, q := Low(a / 2, k - 1), Low(b / 2, k - 1), a % 2, b % 2;
      OrSplit(a, b);
      assert Or(a, b) / 2 == Or(a / 2, b / 2) && Or(a, b) % 2 == if p == 1 || q == 1 then 1 else 0;
      OrLow(a / 2, b / 2, k - 1);
      OrCons(u, p, v, q);
    }
  }

  lemma {:induction false} OrShl(a: nat, b: nat, k: nat)
    ensures Shl(Or(a, b), k) == Or(Shl(a, k), Shl(b, k))
  {
    if k > 0 {
      OrShl(a, b, k - 1);
      OrCons(Shl(a, k - 1), 0, Shl(b, k - 1), 0);
    }
  }

  lemma {:induction false} ShlShl(x: nat, j: nat, k: nat)
    ensures Shl(Shl(x, j), k) == Shl(x, j + k)
  {
    if k > 0 {
      ShlShl(x, j, k - 1);
    }
  }

  lemma {:induction false} ShrShr(x: nat, j: nat, k: nat)
    ensures Shr(Shr(x, j), k) == Shr(x, j + k)
  {
    if j > 0 {
      ShrShr(x / 2, j - 1, k);
    }
  }

  lemma {:induction false} LowBound(x: nat, k: nat)
    ensures Low(x, k) < Pow2(k)
  {
    if k > 0 {
      LowBound(x / 2, k - 1);
    }
  }

  lemma {:induction false} LowFiner(x: nat, j: nat, k: nat)
    requires j <= k && Low(x, k) == 0
    ensures Low(x, j) == 0
  {
    if j > 0 {
      LowFiner(x / 2, j - 1, k - 1);
    }
  }

  lemma {:induction false} ShlBound(v: nat, w: nat, k: nat)
    requires v < Pow2(w)
    ensures Shl(v, k) < Pow2(w + k)
  {
    if k > 0 {
      ShlBound(v, w, k - 1);
    }
  }

  /** Shifts and masks as division by a power of two. */
  lemma {:induction false} ShrLow(x: nat, k: nat)
    ensures x == Shr(x, k) * Pow2(k) + Low(x, k)
  {
    if k > 0 {
      ShrLow(x / 2, k - 1);
      MulTwice(Shr(x / 2, k - 1), Pow2(k - 1));
    }
  }

  lemma ShrLowDivMod(x: nat, k: nat)
    ensures Shr(x, k) == x / Pow2(k) && Low(x, k) == x % Pow2(k)
  {
    ShrLow(x, k);
    LowBound(x, k);
    DivModUnique(x, Pow2(k), Shr(x, k), Low(x, k));
  }

  /** Or-ing a number with fewer bits below into a shifted one. */
  lemma {:induction false} OrOnTop(n: nat, c: nat, l: nat, b: nat)
    requires l < Pow2(b)
    ensures Or(Shl(n, b), Shl(c, b) + l) == Shl(Or(n, c), b) + l
  {
    if b > 0 {
      OrCons(Shl(n, b - 1), 0, Shl(c, b - 1) + l / 2, l % 2);
      OrOnTop(n, c, l / 2, b - 1);
    }
  }

  lemma {:induction false} LowOneMore(x: nat, k: nat)
    ensures Low(x, k + 1) == Shl(Slice(x, k, 1), k) + Low(x, k)
  {
    if k > 0 {
      LowOneMore(x / 2, k - 1);
    } else {
      assert Low(x, 1) == 2 * Low(x / 2, 0) + x % 2;
    }
  }

  lemma {:induction false} ShlInjective(a: nat, b: nat, k: nat)
    ensures Shl(a, k) == Shl(b, k) <==> a == b
  {
    if k > 0 {
      ShlInjective(a, b, k - 1);
    }
  }

  /** A slice of an or is the or of the slices. */
  lemma OrSlice(a: nat, b: nat, bot: nat, width: nat)
    ensures Slice(Or(a, b), bot, width) == Or(Slice(a, bot, width), Slice(b, bot, width))
  {
    OrShr(a, b, bot);
    OrLow(Shr(a, bot), Shr(b, bot), width);
  }

  // ----- One field

  lemma {:induction false} ShrShl(v: nat, s: nat, k: nat)
    ensures Shr(Shl(v, s), k) == if k <= s then Shl(v, s - k) else Shr(v, k - s)
  {
    if k > 0 && s > 0 {
      assert Shl(v, s) / 2 == Shl(v, s - 1);
      ShrShl(v, s - 1, k - 1);
    }
  }

  lemma {:induction false} LowShl(v: nat, s: nat, w: nat)
    requires w <= s
    ensures Low(Shl(v, s), w) == 0
  {
    if w > 0 {
      assert Shl(v, s) / 2 == Shl(v, s - 1);
      LowShl(v, s - 1, w - 1);
    }
  }

  lemma {:induction false} LowSmall(v: nat, w: nat)
    requires v < Pow2(w)
    ensures Low(v, w) == v
  {
    if w > 0 {
      LowSmall(v / 2, w - 1);
    }
  }

  lemma {:induction false} ShrSmall(v: nat, w: nat, k: nat)
    requires v < Pow2(w) && w <= k
    ensures Shr(v, k) == 0
  {
    if k > 0 {
      ShrSmall(v / 2, if w == 0 then 0 else w - 1, k - 1);
    }
  }

  lemma {:induction false} LowZero(w: nat)
    ensures Low(0, w) == 0
  {
    if w > 0 {
      LowZero(w - 1);
    }
  }

  /** A field is read back from its own bits and leaves no trace in others. */
  lemma FieldSlice(f: Field, bot: nat, width: nat)
    requires f.Fits()
    ensures f.start == bot && f.width == width ==> Slice(f.Shifted(), bot, width) == f.value
    ensures f.ClearOf(bot, width) ==> Slice(f.Shifted(), bot, width) == 0
  {
    ShrShl(f.value, f.start, bot);
    if f.start == bot && f.width == width {
      LowSmall(f.value, width);
    } else if f.start + f.width <= bot {
      ShrSmall(f.value, f.width, bot - f.start);
      LowZero(width);
    } else if bot + width <= f.start {
      LowShl(f.value, f.start - bot, width);
    }
  }

  // ----- Many fields

  lemma {:induction false} NoTrace(fs: seq<Field>, bot: nat, width: nat)
    requires forall f :: f in fs ==> f.Fits() && f.ClearOf(bot, width)
    ensures Slice(OrAll(fs), bot, width) == 0
  {
    if fs == [] {
      ShrSmall(0, 0, bot);
      LowZero(width);
    } else {
      var n := |fs| - 1;
      NoTrace(fs[..n], bot, width);
      FieldSlice(fs[n], bot, width);
      OrSlice(OrAll(fs[..n]), fs[n].Shifted(), bot, width);
    }
  }

  /** Only the i-th field leaves a trace in the given bits. */
  lemma {:induction false} OneTrace(fs: seq<Field>, i: nat, bot: nat, width: nat)
    requires i < |fs| && forall k :: 0 <= k < |fs| && k != i ==> fs[k].Fits() && fs[k].ClearOf(bot, width)
    ensures Slice(OrAll(fs), bot, width) == Slice(fs[i].Shifted(), bot, width)
  {
    var n := |fs| - 1;
    OrSlice(OrAll(fs[..n]), fs[n].Shifted(), bot, width);
    if i == n {
      NoTrace(fs[..n], bot, width);
    } else {
      OneTrace(fs[..n], i, bot, width);
      FieldSlice(fs[n], bot, width);
    }
  }

  /** Or-ing in bit k changes nothing exactly when the bit is set already. */
  lemma {:induction false} OrBit(x: nat, k: nat)
    ensures Or(x, Shl(1, k)) == x <==> Slice(x, k, 1) == 1
  {
    OrSplit(x, Shl(1, k));
    assert Low(Shr(x, k), 1) == 2 * Low(Shr(x, k) / 2, 0) + Shr(x, k) % 2;
    if k > 0 {
      assert Shl(1, k) / 2 == Shl(1, k - 1);
      OrBit(x / 2, k - 1);
    } else {
      assert Or(x / 2, 0) == x / 2;
    }
  }

  lemma {:induction false} ShlShr(x: nat, k: nat)
    requires Low(x, k) == 0
    ensures Shl(Shr(x, k), k) == x
  {
    if k > 0 {
      ShlShr(x / 2, k - 1);
    }
  }

  lemma {:induction false} ShrBound(x: nat, k: nat, w: nat)
    requires x < Pow2(k + w)
    ensures Shr(x, k) < Pow2(w)
  {
    if k > 0 {
      ShrBound(x / 2, k - 1, w);
    }
  }

  /** Each of the fields, laid out from the top down, is read back from its own bits. */
  lemma {:induction false} ReadBack(fs: seq<Field>, i: nat)
    requires forall f :: f in fs ==> f.Fits()
    requires Descending(fs) && i < |fs|
    ensures Slice(OrAll(fs), fs[i].start, fs[i].width) == fs[i].value
  {
    var n, f := |fs| - 1, fs[i];
    OrSlice(OrAll(fs[..n]), fs[n].Shifted(), f.start, f.width);
    FieldSlice(fs[n], f.start, f.width);
    if i == n {
      forall g | g in fs[..n] ensures g.ClearOf(f.start, f.width) {
        var k :| 0 <= k < n && fs[k] == g;
        DescendingApart(fs, k, n);
      }
      NoTrace(fs[..n], f.start, f.width);
    } else {
      DescendingApart(fs, i, n);
      ReadBack(fs[..n], i);
    }
  }

  predicate Descending(fs: seq<Field>) {
    forall k :: 0 < k < |fs| ==> fs[k].start + fs[k].width <= fs[k - 1].start
  }

  lemma {:induction false} DescendingApart(fs: seq<Field>, i: nat, j: nat)
    requires Descending(fs) && i < j < |fs|
    ensures fs[j].start + fs[j].width <= fs[i].start
    decreases j - i
  {
    if i + 1 < j {
      DescendingApart(fs, i + 1, j);
    }
  }
}

/** Encoding and decoding page-table entries. */
module Descriptors {
  import opened Bits
  import opened BitFields

  /** attrs_t, without the field that is never read or written */
  datatype Attrs = Attrs(XN: nat, PXN: nat, nT: nat, nG: nat, AF: nat, SH: nat, AP: nat, NS: nat, attr: nat) {
    predicate Valid() {
      XN < 2 && PXN < 2 && nT < 2 && nG < 2 && AF < 2 && SH < 4 && AP < 4 && NS < 2 && attr < 8
    }
  }

  /** desc_t, without the record of where it was read */
  datatype Desc = Invalid | Table(addr: nat, tattrs: Attrs) | Block(oa: nat, attrs: Attrs)

  /** OFFSBOT(level) */
  function OffsBot(level: nat): nat {
    if level == 0 then 39 else if level == 1 then 30 else if level == 2 then 21 else 12
  }

  const NO_ATTRS := Attrs(0, 0, 0, 0, 0, 0, 0, 0, 0)

  function ReadAttrs(entry: nat): Attrs {
    Attrs(Slice(entry, 54, 1), Slice(entry, 53, 1), Slice(entry, 16, 1), Slice(entry, 11, 1), Slice(entry, 10, 1),
          Slice(entry, 8, 2), Slice(entry, 6, 2), Slice(entry, 5, 1), Slice(entry, 2, 3))
  }

  function AttrFields(a: Attrs): seq<Field> {
    [Field(a.XN, 54, 1), Field(a.PXN, 53, 1), Field(a.nT, 16, 1), Field(a.nG, 11, 1), Field(a.AF, 10, 1),
     Field(a.SH, 8, 2), Field(a.AP, 6, 2), Field(a.NS, 5, 1), Field(a.attr, 2, 3)]
  }

  function WriteAttrs(a: Attrs): nat {
    OrAll(AttrFields(a))
  }

  function ReadDesc(entry: nat, level: nat): Desc {
    if Slice(entry, 0, 1) == 0 then Invalid
    else if level == 0 || (level < 3 && Slice(entry, 1, 1) == 1) then
      Table(Shl(Slice(entry, 12, 36), 12), ReadAttrs(entry))
    else
      Block(Shl(Slice(entry, OffsBot(level), 48 - OffsBot(level)), OffsBot(level)), ReadAttrs(entry))
  }

  /** The address part of a descriptor with its type bit. */
  function AddressAndType(d: Desc, level: nat): nat
    requires !d.Invalid?
  {
    match d
    case Table(addr, _) => Or(addr, 2)
    case Block(oa, _) => if level == 3 then Or(oa, 2) else oa
  }

  function WriteDesc(d: Desc, level: nat): nat {
    if d.Invalid? then 0
    else Or(Or(AddressAndType(d, level), WriteAttrs(if d.Table? then d.tattrs else d.attrs)), 1)
  }

  // ----- Reading back what was written

  lemma AttrFieldsFit(a: Attrs)
    requires a.Valid()
    ensures forall f :: f in AttrFields(a) ==> f.Fits()
    ensures Descending(AttrFields(a))
  {
    assert Pow2(1) == 2 && Pow2(2) == 4 && Pow2(3) == 8;
  }

  lemma ReadWriteAttrs(a: Attrs)
    requires a.Valid()
    ensures ReadAttrs(WriteAttrs(a)) == a
  {
    AttrFieldsFit(a);
    var fs := AttrFields(a);
    forall i | 0 <= i < |fs| ensures Slice(OrAll(fs), fs[i].start, fs[i].width) == fs[i].value {
      ReadBack(fs, i);
    }
    assert fs[0].value == a.XN && fs[1].value == a.PXN && fs[2].value == a.nT && fs[3].value == a.nG && fs[4].value == a.AF;
    assert fs[5].value == a.SH && fs[6].value == a.AP && fs[7].value == a.NS && fs[8].value == a.attr;
  }

  /** A b-aligned address of 48 bits, as a field. */
  ghost predicate IsAddress(a: nat, b: nat) {
    a < Pow2(48) && Low(a, b) == 0
  }

  function AddressField(a: nat, b: nat): Field
    requires b <= 48
  {
    Field(Shr(a, b), b, 48 - b)
  }

  lemma AddressIsField(a: nat, b: nat)
    requires IsAddress(a, b) && b <= 48
    ensures AddressField(a, b).Fits() && AddressField(a, b).Shifted() == a
  {
    ShlShr(a, b);
    ShrBound(a, b, 48 - b);
  }

  /** The descriptors that the code builds: addresses are aligned for the level. */
  ghost predicate Encodable(d: Desc, level: nat) {
    match d
    case Invalid => true
    case Table(addr, attrs) => level < 3 && IsAddress(addr, 12) && attrs == NO_ATTRS
    case Block(oa, attrs) => 1 <= level <= 3 && IsAddress(oa, OffsBot(level)) && attrs.Valid()
  }

  function AttrsOf(d: Desc): Attrs
    requires !d.Invalid?
  {
    if d.Table? then d.tattrs else d.attrs
  }

  /** The three parts of an entry, bit range by bit range. */
  lemma EntrySlice(d: Desc, level: nat, bot: nat, width: nat)
    requires !d.Invalid?
    ensures Slice(WriteDesc(d, level), bot, width) ==
            Or(Or(Slice(AddressAndType(d, level), bot, width), Slice(WriteAttrs(AttrsOf(d)), bot, width)), Slice(1, bot, width))
  {
    OrSlice(Or(AddressAndType(d, level), WriteAttrs(AttrsOf(d))), 1, bot, width);
    OrSlice(AddressAndType(d, level), WriteAttrs(AttrsOf(d)), bot, width);
  }

  /** The valid bit. */
  lemma OneSlice(bot: nat, width: nat)
    ensures 1 <= bot ==> Slice(1, bot, width) == 0
    ensures Slice(1, 0, 1) == 1
  {
    var f := Field(1, 0, 1);
    assert Pow2(1) == 2 && f.Shifted() == 1;
    FieldSlice(f, bot, width);
    FieldSlice(f, 0, 1);
  }

  function Bottom(d: Desc, level: nat): nat {
    if d.Block? then OffsBot(level) else 12
  }

  function Address(d: Desc): nat
    requires !d.Invalid?
  {
    if d.Table? then d.addr else d.oa
  }

  /** The bits of the address, and no others. */
  lemma AddressSlice(d: Desc, level: nat, bot: nat, width: nat)
    requires !d.Invalid? && Encodable(d, level)
    ensures bot == Bottom(d, level) && width == 48 - bot ==> Slice(Address(d), bot, width) == Shr(Address(d), bot)
    ensures 48 <= bot || bot + width <= Bottom(d, level) ==> Slice(Address(d), bot, width) == 0
  {
    AddressIsField(Address(d), Bottom(d, level));
    FieldSlice(AddressField(Address(d), Bottom(d, level)), bot, width);
  }

  lemma TwoSlice(bot: nat, width: nat)
    ensures bot == 1 && width == 1 ==> Slice(2, bot, width) == 1
    ensures 2 <= bot || bot + width <= 1 ==> Slice(2, bot, width) == 0
  {
    var f := Field(1, 1, 1);
    assert Pow2(1) == 2 && f.Shifted() == 2 by { assert Shl(1, 1) == 2; }
    FieldSlice(f, bot, width);
  }

  /** From bit 2 up an entry holds the address and the attributes. */
  lemma EntryAbove(d: Desc, level: nat, bot: nat, width: nat)
    requires !d.Invalid? && 2 <= bot
    ensures Slice(WriteDesc(d, level), bot, width) ==
            Or(Slice(Address(d), bot, width), Slice(WriteAttrs(AttrsOf(d)), bot, width))
  {
    EntrySlice(d, level, bot, width);
    OneSlice(bot, width);
    TwoSlice(bot, width);
    OrSlice(Address(d), 2, bot, width);
    OrZero(Slice(Address(d), bot, width));
    OrZero(Or(Slice(Address(d), bot, width), Slice(WriteAttrs(AttrsOf(d)), bot, width)));
  }

  lemma AttrsSlice(a: Attrs, i: nat)
    requires a.Valid() && i < 9
    ensures var f := AttrFields(a)[i]; Slice(WriteAttrs(a), f.start, f.width) == f.value
  {
    AttrFieldsFit(a);
    ReadBack(AttrFields(a), i);
  }

  /** The type bits of an entry. */
  lemma EntryType(d: Desc, level: nat)
    requires !d.Invalid? && Encodable(d, level)
    ensures Slice(WriteDesc(d, level), 0, 1) == 1
    ensures Slice(WriteDesc(d, level), 1, 1) == if d.Table? || level == 3 then 1 else 0
  {
    TypeBit(d, level, 0);
    TypeBit(d, level, 1);
  }

  lemma TypeBit(d: Desc, level: nat, bit: nat)
    requires !d.Invalid? && Encodable(d, level) && bit < 2
    ensures Slice(WriteDesc(d, level), bit, 1) == if bit == 0 || d.Table? || level == 3 then 1 else 0
  {
    AttrFieldsFit(AttrsOf(d));
    NoTrace(AttrFields(AttrsOf(d)), bit, 1);
    EntrySlice(d, level, bit, 1);
    OneSlice(bit, 1);
    TwoSlice(bit, 1);
    OrSlice(Address(d), 2, bit, 1);
    AddressSlice(d, level, bit, 1);
    OrZero(0);
    OrZero(1);
  }

  /** The attributes of an entry; nT shares its bit with the address of a level-3 entry. */
  lemma EntryAttr(d: Desc, level: nat, i: nat)
    requires !d.Invalid? && Encodable(d, level) && i < 9 && (i == 2 ==> d.Block?)
    ensures var f := AttrFields(AttrsOf(d))[i];
            Slice(WriteDesc(d, level), f.start, f.width) ==
            if i == 2 && level == 3 then Or(Slice(d.oa, f.start, f.width), f.value) else f.value
  {
    var f := AttrFields(AttrsOf(d))[i];
    AttrsSlice(AttrsOf(d), i);
    EntryAbove(d, level, f.start, f.width);
    AddressSlice(d, level, f.start, f.width);
    OrZero(f.value);
  }

  /** The address bits of an entry. */
  lemma EntryAddress(d: Desc, level: nat)
    requires !d.Invalid? && Encodable(d, level)
    ensures var b := Bottom(d, level);
            Slice(WriteDesc(d, level), b, 48 - b) ==
            if d.Block? && level == 3 then Or(Shr(d.oa, b), Shl(d.attrs.nT, 4)) else Shr(Address(d), b)
  {
    var b := Bottom(d, level);
    EntryAbove(d, level, b, 48 - b);
    AddressSlice(d, level, b, 48 - b);
    AttrsInAddress(AttrsOf(d), b);
    OrZero(Shr(Address(d), b));
  }

  /** Of the attributes only nT can fall into the address bits. */
  lemma AttrsInAddress(a: Attrs, b: nat)
    requires a.Valid() && (b == 12 || b == 21 || b == 30)
    ensures Slice(WriteAttrs(a), b, 48 - b) == if b == 12 then Shl(a.nT, 4) else 0
  {
    AttrFieldsFit(a);
    var fs := AttrFields(a);
    if b == 12 {
      forall k | 0 <= k < |fs| && k != 2 ensures fs[k].Fits() && fs[k].ClearOf(12, 36) {}
      OneTrace(fs, 2, 12, 36);
      NTSlice(a.nT);
    } else {
      NoTrace(fs, b, 48 - b);
    }
  }

  lemma NTSlice(nT: nat)
    requires nT < 2
    ensures Slice(Field(nT, 16, 1).Shifted(), 12, 36) == Shl(nT, 4)
  {
    ShrShl(nT, 16, 12);
    NTFits(nT);
    LowSmall(Shl(nT, 4), 36);
  }

  lemma NTFits(nT: nat)
    requires nT < 2
    ensures Shl(nT, 4) < Pow2(36)
    ensures Shl(0, 4) == 0
  {
    assert Pow2(5) == 32;
    Pow2Monotone(5, 36);
  }

  // ----- What read_desc makes of write_desc

  /** An address with a bit or-ed in. */
  lemma WithBit(a: nat, nT: nat)
    requires Low(a, 12) == 0 && nT < 2
    ensures Shl(Or(Shr(a, 12), Shl(nT, 4)), 12) == Or(a, Shl(nT, 16))
    ensures Or(a, Shl(nT, 16)) == a <==> nT == 0 || Slice(a, 16, 1) == 1
  {
    OrShl(Shr(a, 12), Shl(nT, 4), 12);
    ShlShr(a, 12);
    ShlShl(nT, 4, 12);
    if nT == 1 {
      OrBit(a, 16);
    } else {
      NTFits(0);
      ShlShl(0, 4, 12);
      ShlZero(16);
      OrZero(a);
    }
  }

  lemma {:induction false} ShlZero(k: nat)
    ensures Shl(0, k) == 0
  {
    if k > 0 {
      ShlZero(k - 1);
    }
  }

  /** What read_desc makes of a table entry. */
  lemma ReadTable(d: Desc, level: nat)
    requires d.Table? && Encodable(d, level)
    ensures ReadDesc(WriteDesc(d, level), level).Table?
    ensures ReadDesc(WriteDesc(d, level), level).addr == d.addr
  {
    EntryType(d, level);
    EntryAddress(d, level);
    ShlShr(d.addr, 12);
  }

  lemma ReadEntryAttrs(d: Desc, level: nat)
    requires d.Block? && Encodable(d, level)
    ensures ReadAttrs(WriteDesc(d, level)) ==
            d.attrs.(nT := if level == 3 then Or(Slice(d.oa, 16, 1), d.attrs.nT) else d.attrs.nT)
  {
    EntryAttr(d, level, 0);
    EntryAttr(d, level, 1);
    EntryAttr(d, level, 2);
    EntryAttr(d, level, 3);
    EntryAttr(d, level, 4);
    EntryAttr(d, level, 5);
    EntryAttr(d, level, 6);
    EntryAttr(d, level, 7);
    EntryAttr(d, level, 8);
  }

  /** What read_desc makes of a block entry: at level 3, bit 16 belongs both to the address and to
    * nT. */
  lemma ReadBlock(d: Desc, level: nat)
    requires d.Block? && Encodable(d, level)
    ensures ReadDesc(WriteDesc(d, level), level) ==
            if level < 3 then d
            else Block(Or(d.oa, Shl(d.attrs.nT, 16)), d.attrs.(nT := Or(Slice(d.oa, 16, 1), d.attrs.nT)))
  {
    EntryType(d, level);
    EntryAddress(d, level);
    ReadEntryAttrs(d, level);
    if level == 3 {
      WithBit(d.oa, d.attrs.nT);
    } else {
      ShlShr(d.oa, OffsBot(level));
    }
  }

  /** Descriptors survive being written and read exactly when nT agrees with the address bit that
    * it shares at level 3. */
  lemma RoundTripExactly(d: Desc, level: nat)
    requires d.Block? && Encodable(d, level)
    ensures ReadDesc(WriteDesc(d, level), level) == d <==> level < 3 || d.attrs.nT == Slice(d.oa, 16, 1)
    ensures ReadDesc(WriteDesc(d, level), level).oa == d.oa <==> level < 3 || d.attrs.nT <= Slice(d.oa, 16, 1)
  {
    ReadBlock(d, level);
    if level == 3 {
      WithBit(d.oa, d.attrs.nT);
      LowBound(Shr(d.oa, 16), 1);
      assert Pow2(1) == 2;
      OrBits(Slice(d.oa, 16, 1), d.attrs.nT);
    }
  }

  lemma OrBits(p: nat, q: nat)
    requires p < 2 && q < 2
    ensures Or(p, q) == if p == 1 || q == 1 then 1 else 0
  {
    OrCons(0, p, 0, q);
  }

  // ----- vmm_make_desc

  /** The attributes that a mapping with the given protection gets. */
  function Requested(prot: nat): Attrs {
    ReadAttrs(prot).(nG := 1, AF := 1, SH := 3, NS := 0)
  }

  /** vmm_make_desc */
  function MakeDesc(pa: nat, prot: nat, level: nat): nat {
    WriteDesc(Block(pa, Requested(prot)), level)
  }

  lemma ReadAttrsValid(entry: nat)
    ensures ReadAttrs(entry).Valid()
  {
    assert Pow2(1) == 2 && Pow2(2) == 4 && Pow2(3) == 8;
    LowBound(Shr(entry, 54), 1);
    LowBound(Shr(entry, 53), 1);
    LowBound(Shr(entry, 16), 1);
    LowBound(Shr(entry, 11), 1);
    LowBound(Shr(entry, 10), 1);
    LowBound(Shr(entry, 8), 2);
    LowBound(Shr(entry, 6), 2);
    LowBound(Shr(entry, 5), 1);
    LowBound(Shr(entry, 2), 3);
  }

  /** The entry for pa is a block with the attributes requested, but for nT at level 3; it maps pa
    * exactly when nT does not spill into bit 16 of the address there. */
  lemma MakeDescMaps(pa: nat, prot: nat, level: nat)
    requires 1 <= level <= 3 && IsAddress(pa, OffsBot(level))
    ensures var r, nT := ReadDesc(MakeDesc(pa, prot, level), level), Slice(prot, 16, 1);
            && r.Block?
            && (r.oa == pa <==> level < 3 || nT <= Slice(pa, 16, 1))
            && r.attrs == Requested(prot).(nT := if level == 3 then Or(Slice(pa, 16, 1), nT) else nT)
  {
    ReadAttrsValid(prot);
    var d := Block(pa, Requested(prot));
    ReadBlock(d, level);
    RoundTripExactly(d, level);
  }

  /** The word that vmm_make_desc makes, bit by bit: a valid block or page at the address, accessible,
    * not global, inner shareable and secure, with the protection and the memory type asked for. */
  lemma MakeDescWord(pa: nat, prot: nat, level: nat)
    requires 1 <= level <= 3 && IsAddress(pa, OffsBot(level))
    ensures var e := MakeDesc(pa, prot, level);
      && Slice(e, 0, 1) == 1 && Slice(e, 1, 1) == (if level == 3 then 1 else 0)
      && Slice(e, 2, 3) == Slice(prot, 2, 3)
      && Slice(e, 5, 1) == 0
      && Slice(e, 6, 2) == Slice(prot, 6, 2)
      && Slice(e, 8, 2) == 3
      && Slice(e, 10, 1) == 1
      && Slice(e, 11, 1) == 1
      && Slice(e, 53, 1) == Slice(prot, 53, 1) && Slice(e, 54, 1) == Slice(prot, 54, 1)
    ensures var e, b := MakeDesc(pa, prot, level), OffsBot(level);
      && (level < 3 ==> Slice(e, b, 48 - b) == Shr(pa, b) && Slice(e, 16, 1) == Slice(prot, 16, 1))
      && (level == 3 ==> Slice(e, b, 48 - b) == Or(Shr(pa, b), Shl(Slice(prot, 16, 1), 4)))
  {
    ReadAttrsValid(prot);
    var d := Block(pa, Requested(prot));
    EntryType(d, level);
    EntryAddress(d, level);
    EntryAttr(d, level, 0);
    EntryAttr(d, level, 1);
    EntryAttr(d, level, 2);
    EntryAttr(d, level, 3);
    EntryAttr(d, level, 4);
    EntryAttr(d, level, 5);
    EntryAttr(d, level, 6);
    EntryAttr(d, level, 7);
    EntryAttr(d, level, 8);
  }

  /** The word that points to a table: its address, valid and of the type of tables. */
  lemma TableWord(addr: nat, level: nat)
    requires Low(addr, 12) == 0 && addr < Pow2(48)
    ensures WriteDesc(Table(addr, NO_ATTRS), level) == addr + 3
  {
    NoAttrsWritten();
    OrLowBits(addr, 2);
    OrZero(addr + 2);
    OrCons(addr / 2 + 1, 0, 0, 1);
    LowFiner(addr, 1, 12);
    OrZero(addr / 2 + 1);
  }

  lemma OrLowBits(a: nat, l: nat)
    requires Low(a, 12) == 0 && l < 4
    ensures Or(a, l) == a + l
  {
    LowFiner(a, 2, 12);
    ShlShr(a, 2);
    assert Pow2(2) == 4;
    OrOnTop(Shr(a, 2), 0, l, 2);
    ShlZero(2);
    OrZero(Shr(a, 2));
  }

  lemma NoAttrsWritten()
    ensures WriteAttrs(NO_ATTRS) == 0
  {
    AllZero(AttrFields(NO_ATTRS));
  }

  lemma {:induction false} AllZero(fs: seq<Field>)
    requires forall f :: f in fs ==> f.value == 0
    ensures OrAll(fs) == 0
  {
    if fs != [] {
      var n := |fs| - 1;
      AllZero(fs[..n]);
      ShlZero(fs[n].start);
      OrZero(0);
    }
  }

  // ----- A block entry in a table of the next level

  /** What is read from a word can be written again. */
  lemma ReadIsEncodable(entry: nat, level: nat)
    requires 1 <= level <= 3 && ReadDesc(entry, level).Block?
    ensures Encodable(ReadDesc(entry, level), level)
  {
    var b := OffsBot(level);
    LowBound(Shr(entry, b), 48 - b);
    ShlBound(Slice(entry, b, 48 - b), 48 - b, b);
    LowShl(Slice(entry, b, 48 - b), b, b);
    ReadAttrsValid(entry);
  }

  /** A block entry of level 1 or 2 as it is read one level further down: at level 3, nT is a bit of the
    * address. */
  function OneDown(d: Desc, level: nat): Desc
    requires d.Block?
  {
    if level == 2 then Block(d.oa + 0x1_0000 * d.attrs.nT, d.attrs) else d
  }

  lemma Bit16()
    ensures Shl(1, 16) == 0x1_0000 < Pow2(21)
  {
    assert Shl(1, 8) == 0x100 && Shl(0x100, 8) == 0x1_0000;
    ShlShl(1, 8, 8);
    assert Pow2(8) == 0x100 && Pow2(5) == 0x20;
    Pow2Add(8, 5);
    Pow2Add(8, 13);
  }

  lemma OrBelow(a: nat, nT: nat)
    requires Low(a, 21) == 0 && nT < 2
    ensures Or(a, Shl(nT, 16)) == a + 0x1_0000 * nT
  {
    Bit16();
    ShlZero(16);
    ShlZero(21);
    ShlShr(a, 21);
    OrOnTop(Shr(a, 21), 0, Shl(nT, 16), 21);
    OrZero(Shr(a, 21));
  }

  /** The address bits of a block entry of level 1 or 2 that are read one level further down. */
  lemma OneDownAddress(d: Desc, level: nat)
    requires d.Block? && Encodable(d, level) && level < 3
    ensures var b := OffsBot(level + 1); Shl(Slice(WriteDesc(d, level), b, 48 - b), b) == OneDown(d, level).oa
  {
    var b := OffsBot(level + 1);
    LowFiner(d.oa, b, OffsBot(level));
    AddressIsField(d.oa, b);
    FieldSlice(AddressField(d.oa, b), b, 48 - b);
    EntryAbove(d, level, b, 48 - b);
    AttrsInAddress(d.attrs, b);
    if level == 2 {
      WithBit(d.oa, d.attrs.nT);
      OrBelow(d.oa, d.attrs.nT);
    } else {
      OrZero(Shr(d.oa, b));
      ShlShr(d.oa, b);
    }
  }

  lemma ReadOneDown(d: Desc, level: nat)
    requires d.Block? && Encodable(d, level) && level < 3
    ensures ReadDesc(WriteDesc(d, level), level + 1) == OneDown(d, level)
  {
    EntryType(d, level);
    OneDownAddress(d, level);
    ReadEntryAttrs(d, level);
  }
}
