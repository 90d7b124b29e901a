/** Break-before-make in lib/arch/vmm/vmm.c and vmm_tlbs.c: what the TLB can hold for a page-table
  * entry while vmm_update_pte changes it, with table walks filling the TLB at any moment.
  */
module Tlb {

  /** sync_type_t, with asid_or_va */
  datatype Sync = SyncAll | SyncAsid(asid: nat) | SyncVa(va: nat) | SyncNone

  datatype Call = Call(pte: nat, newVal: nat, sync: Sync, force: bool)

  /** The next access of vmm_update_pte. */
  datatype Pc = Idle | Break | Dsb | Tlbi | DsbTlbi | Make

  /** A descriptor that the TLB has cached. */
  datatype Cached = Cached(pte: nat, asid: nat, word: nat)

  /** Who walks over an entry: under which ASIDs, and for which pages of addresses. */
  datatype Config = Config(asids: map<nat, set<nat>>, pages: map<nat, set<nat>>)

  /** mem is the memory; a walk may still see the older words in seen, until a barrier. */
  datatype State = State(mem: map<nat, nat>, seen: map<nat, set<nat>>, tlb: set<Cached>, pc: Pc, call: Call,
                         pending: set<Cached>)

  datatype Event =
    | Begin(call: Call)
    | Go
    | Fill(pte: nat, asid: nat, word: nat)
    | Evict(entry: Cached)

  predicate IsValid(word: nat) {
    word % 2 == 1
  }

  /** tlbi_asid uses 8 bits of the ASID, tlbi_va the page of the address. */
  predicate Hits(c: Config, pte: nat, asid: nat, sync: Sync) {
    match sync
    case SyncAll => true
    case SyncAsid(a) => asid == a % 256
    case SyncVa(va) => pte in c.pages && va / 4096 in c.pages[pte]
    case SyncNone => false
  }

  function Walkers(c: Config, pte: nat): set<nat> {
    if pte in c.asids then c.asids[pte] else {}
  }

  /** The invalidation reaches every ASID that the entry can be cached under. */
  predicate Adequate(c: Config, pte: nat, sync: Sync) {
    forall asid :: asid in Walkers(c, pte) ==> Hits(c, pte, asid, sync)
  }

  function Settled(s: State): State {
    s.(seen := (map p | p in s.mem :: {s.mem[p]}))
  }

  function Stored(s: State, word: nat): State
    requires s.call.pte in s.mem && s.call.pte in s.seen
  {
    s.(mem := s.mem[s.call.pte := word], seen := s.seen[s.call.pte := s.seen[s.call.pte] + {word}])
  }

  /** One access of vmm_update_pte, the first half of which makes the entry invalid. */
  function Advance(c: Config, s: State): State
    requires s.call.pte in s.mem && s.call.pte in s.seen
  {
    match s.pc
    case Idle => s
    case Break =>
      if s.mem[s.call.pte] > 0 then Stored(s, 0).(pc := Dsb)
      else if s.call.force then s.(pc := Dsb)
      else s.(pc := Make)
    case Dsb => Settled(s).(pc := if s.call.sync.SyncNone? then Make else Tlbi)
    case Tlbi => s.(pending := (set e | e in s.tlb && Hits(c, e.pte, e.asid, s.call.sync)), pc := DsbTlbi)
    case DsbTlbi => Settled(s).(tlb := s.tlb - s.pending, pc := Make)
    case Make => Stored(s, s.call.newVal).(pc := Idle)
  }

  /** One event: a call begins, makes its next access, or the hardware caches or drops an entry. */
  function Step(c: Config, s: State, e: Event): State
  {
    match e
    case Begin(call) => if s.pc.Idle? && call.pte in s.mem && call.pte in s.seen then s.(pc := Break, call := call) else s
    case Go => if s.call.pte in s.mem && s.call.pte in s.seen then Advance(c, s) else s
    case Fill(pte, asid, word) =>
      if asid in Walkers(c, pte) && pte in s.seen && word in s.seen[pte] && IsValid(word)
      then s.(tlb := s.tlb + {Cached(pte, asid, word)})
      else s
    case Evict(entry) => s.(tlb := s.tlb - {entry})
  }

  function Run(c: Config, s: State, events: seq<Event>): State {
    if events == [] then s
    else Step(c, Run(c, s, events[..|events| - 1]), events[|events| - 1])
  }

  /** The word has something to do with the entry: memory or the TLB holds it, a walk may still see it,
    * or the current call stores it. */
  ghost predicate Known(s: State, pte: nat, word: nat) {
    || word == 0
    || (pte in s.mem && s.mem[pte] == word)
    || (pte in s.seen && word in s.seen[pte])
    || (exists x :: x in s.tlb && x.pte == pte && x.word == word)
    || (s.call.pte == pte && s.call.newVal == word)
  }

  ghost predicate Asked(events: seq<Event>, pte: nat, word: nat) {
    exists k :: 0 <= k < |events| && events[k].Begin? && events[k].call.pte == pte && events[k].call.newVal == word
  }

  lemma StepInventsNothing(c: Config, s: State, e: Event, pte: nat, word: nat)
    requires Known(Step(c, s, e), pte, word)
    ensures Known(s, pte, word) || (e.Begin? && e.call.pte == pte && e.call.newVal == word)
  {
    match e
    case Begin(_) =>
    case Go => if s.call.pte in s.mem && s.call.pte in s.seen { assert Step(c, s, e) == Advance(c, s); }
    case Fill(_, _, _) =>
    case Evict(_) =>
  }

  /** Over any run, memory, walks and the TLB only ever hold words for an entry that were there before,
    * or that a call of the run was asked to store in this very entry. */
  lemma {:induction false} NothingInvented(c: Config, s: State, events: seq<Event>, pte: nat, word: nat)
    requires Known(Run(c, s, events), pte, word)
    ensures Known(s, pte, word) || Asked(events, pte, word)
  {
    if events != [] {
      var n := |events| - 1;
      StepInventsNothing(c, Run(c, s, events[..n]), events[n], pte, word);
      if Known(Run(c, s, events[..n]), pte, word) {
        NothingInvented(c, s, events[..n], pte, word);
      }
    }
  }

  /** The TLB holds no two different descriptors for one entry. */
  ghost predicate AtMostOne(s: State) {
    forall a, b :: a in s.tlb && b in s.tlb && a.pte == b.pte ==> a.word == b.word
  }

  /** The valid words that the TLB holds or a walk may still see for the entry are all equal to w. */
  ghost predicate Only(s: State, pte: nat, w: nat) {
    && (forall e :: e in s.tlb && e.pte == pte ==> e.word == w)
    && (pte in s.seen ==> forall v :: v in s.seen[pte] && IsValid(v) ==> v == w)
  }

  /** No valid word of the entry is left anywhere. */
  ghost predicate Nothing(s: State, pte: nat) {
    && (forall e :: e in s.tlb ==> e.pte != pte)
    && (pte in s.seen ==> forall v :: v in s.seen[pte] ==> !IsValid(v))
  }

  ghost predicate NotSeen(s: State, pte: nat) {
    pte in s.seen ==> forall v :: v in s.seen[pte] ==> !IsValid(v)
  }

  ghost predicate WellFormed(c: Config, s: State) {
    && s.mem.Keys == s.seen.Keys
    && (forall e :: e in s.tlb ==> IsValid(e.word) && e.asid in Walkers(c, e.pte) && e.pte in s.mem)
    && (!s.pc.Idle? ==> s.call.pte in s.mem && Adequate(c, s.call.pte, s.call.sync))
  }

  /** Entries that are not being updated are only known by their word in memory. */
  ghost predicate OthersFine(s: State) {
    forall p :: p in s.mem && (s.pc.Idle? || s.pc.Break? || p != s.call.pte) ==> Only(s, p, s.mem[p])
  }

  /** What is known of the entry that is being updated, whose word before the call was w. */
  ghost predicate UpdateFine(s: State, w: nat)
    requires s.call.pte in s.mem
  {
    match s.pc
    case Idle => true
    case Break => true
    case Dsb => s.mem[s.call.pte] == 0 && Only(s, s.call.pte, w)
    case Tlbi => s.mem[s.call.pte] == 0 && Only(s, s.call.pte, w) && NotSeen(s, s.call.pte)
    case DsbTlbi =>
      && s.mem[s.call.pte] == 0 && Only(s, s.call.pte, w) && NotSeen(s, s.call.pte)
      && (forall e :: e in s.tlb && e.pte == s.call.pte ==> e in s.pending)
    case Make => Nothing(s, s.call.pte)
  }

  ghost predicate Inv(c: Config, s: State, w: nat)
  {
    && WellFormed(c, s)
    && OthersFine(s)
    && (s.call.pte in s.mem ==> UpdateFine(s, w))
  }

  /** Every call asks for an adequate invalidation. */
  predicate Proper(c: Config, e: Event) {
    e.Begin? ==> Adequate(c, e.call.pte, e.call.sync)
  }

  /** The word whose copies are being got rid of. */
  function Tracked(s: State, e: Event, w: nat): nat {
    if e.Go? && s.pc.Break? && s.call.pte in s.mem then s.mem[s.call.pte] else w
  }

  lemma StepKeepsInv(c: Config, s: State, e: Event, w: nat)
    requires Inv(c, s, w) && Proper(c, e)
    ensures Inv(c, Step(c, s, e), Tracked(s, e, w))
  {
    match e {
      case Begin(_) =>
      case Evict(_) =>
      case Fill(_, _, _) => FillKeepsInv(c, s, e, w);
      case Go =>
        if s.call.pte in s.mem {
          match s.pc {
            case Idle =>
            case Break => BreakKeepsInv(c, s);
            case Dsb => DsbKeepsInv(c, s, w);
            case Tlbi => TlbiKeepsInv(c, s, w);
            case DsbTlbi => DsbTlbiKeepsInv(c, s, w);
            case Make => MakeKeepsInv(c, s, w);
          }
        }
    }
  }

  lemma FillKeepsInv(c: Config, s: State, e: Event, w: nat)
    requires Inv(c, s, w) && e.Fill?
    ensures Inv(c, Step(c, s, e), w)
  {
  }

  lemma BreakKeepsInv(c: Config, s: State)
    requires WellFormed(c, s) && OthersFine(s) && s.pc.Break? && s.call.pte in s.mem
    ensures Inv(c, Advance(c, s), s.mem[s.call.pte])
  {
    assert Only(s, s.call.pte, s.mem[s.call.pte]);
  }

  lemma DsbKeepsInv(c: Config, s: State, w: nat)
    requires Inv(c, s, w) && s.pc.Dsb? && s.call.pte in s.mem
    ensures Inv(c, Advance(c, s), w)
  {
  }

  lemma TlbiKeepsInv(c: Config, s: State, w: nat)
    requires Inv(c, s, w) && s.pc.Tlbi? && s.call.pte in s.mem
    ensures Inv(c, Advance(c, s), w)
  {
  }

  lemma DsbTlbiKeepsInv(c: Config, s: State, w: nat)
    requires Inv(c, s, w) && s.pc.DsbTlbi? && s.call.pte in s.mem
    ensures Inv(c, Advance(c, s), w)
  {
  }

  lemma MakeKeepsInv(c: Config, s: State, w: nat)
    requires Inv(c, s, w) && s.pc.Make? && s.call.pte in s.mem
    ensures Inv(c, Advance(c, s), w)
  {
  }

  lemma InvAtMostOne(c: Config, s: State, w: nat)
    requires Inv(c, s, w)
    ensures AtMostOne(s)
    ensures s.pc.Idle? ==> forall e :: e in s.tlb ==> e.word == s.mem[e.pte]
  {
    forall a, b | a in s.tlb && b in s.tlb && a.pte == b.pte ensures a.word == b.word {
      assert a.pte in s.mem;
      if s.pc.Idle? || s.pc.Break? || a.pte != s.call.pte {
        assert Only(s, a.pte, s.mem[a.pte]);
      }
    }
    if s.pc.Idle? {
      forall e | e in s.tlb ensures e.word == s.mem[e.pte] {
        assert Only(s, e.pte, s.mem[e.pte]);
      }
    }
  }

  // ----- Every run

  lemma {:induction false} RunKeepsInv(c: Config, s: State, events: seq<Event>, w: nat) returns (w': nat)
    requires Inv(c, s, w) && forall e :: e in events ==> Proper(c, e)
    ensures Inv(c, Run(c, s, events), w')
  {
    if events == [] {
      w' := w;
    } else {
      var last := |events| - 1;
      var before := RunKeepsInv(c, s, events[..last], w);
      StepKeepsInv(c, Run(c, s, events[..last]), events[last], before);
      w' := Tracked(Run(c, s, events[..last]), events[last], before);
    }
  }

  /** Memory with nothing cached, and no update going on. */
  ghost predicate Fresh(s: State) {
    s.pc.Idle? && s.tlb == {} && s.seen.Keys == s.mem.Keys && forall p :: p in s.mem ==> s.seen[p] == {s.mem[p]}
  }

  /** Whatever walks and evictions happen in between, a run of updates with adequate invalidations
    * never leaves two different valid descriptors of one entry in the TLB, and between updates the
    * TLB holds nothing but what is in memory. */
  lemma BreakBeforeMake(c: Config, s: State, events: seq<Event>)
    requires Fresh(s) && forall e :: e in events ==> Proper(c, e)
    ensures var t := Run(c, s, events);
            AtMostOne(t) && (t.pc.Idle? ==> forall e :: e in t.tlb ==> e.pte in t.mem && e.word == t.mem[e.pte])
  {
    var w := RunKeepsInv(c, s, events, 0);
    InvAtMostOne(c, Run(c, s, events), w);
  }

  // ----- Which invalidations are needed

  function Start(pte: nat, word: nat): State {
    State(map[pte := word], map[pte := {word}], {}, Idle, Call(pte, word, SyncAll, false), {})
  }

  predicate OnlyCall(events: seq<Event>, call: Call) {
    forall e :: e in events && e.Begin? ==> e.call == call
  }

  /** Changing one valid descriptor to another is safe, whatever the hardware does, exactly when the
    * invalidation reaches every ASID under which the entry is walked. */
  lemma ExactlyAdequate(c: Config, call: Call, word: nat)
    requires IsValid(word) && IsValid(call.newVal) && word != call.newVal
    ensures (forall events :: OnlyCall(events, call) ==> AtMostOne(Run(c, Start(call.pte, word), events)))
            <==> Adequate(c, call.pte, call.sync)
  {
    var s := Start(call.pte, word);
    if Adequate(c, call.pte, call.sync) {
      forall events | OnlyCall(events, call) ensures AtMostOne(Run(c, s, events)) {
        BreakBeforeMake(c, s, events);
      }
    } else {
      var asid :| asid in Walkers(c, call.pte) && !Hits(c, call.pte, asid, call.sync);
      var events := StaleRun(c, call, word, asid);
    }
  }

  lemma RunAppend(c: Config, s: State, events: seq<Event>, e: Event)
    ensures Run(c, s, events + [e]) == Step(c, Run(c, s, events), e)
  {
    assert (events + [e])[..|events|] == events;
  }

  /** The walk before the update and the walk after it leave different descriptors behind. */
  lemma StaleRun(c: Config, call: Call, word: nat, asid: nat) returns (events: seq<Event>)
    requires IsValid(word) && IsValid(call.newVal) && word != call.newVal
    requires asid in Walkers(c, call.pte) && !Hits(c, call.pte, asid, call.sync)
    ensures OnlyCall(events, call) && !AtMostOne(Run(c, Start(call.pte, word), events))
  {
    var s, stale := Start(call.pte, word), Cached(call.pte, asid, word);
    events := [];
    var t := s;
    RunAppend(c, s, events, Fill(call.pte, asid, word));
    events, t := events + [Fill(call.pte, asid, word)], Step(c, t, Fill(call.pte, asid, word));
    RunAppend(c, s, events, Begin(call));
    events, t := events + [Begin(call)], Step(c, t, Begin(call));
    var n := if call.sync.SyncNone? then 3 else 5;
    for k := 0 to n
      invariant t == Run(c, s, events) && OnlyCall(events, call)
      invariant stale in t.tlb && t.call == call && call.pte in t.mem && call.pte in t.seen
      invariant t.pc == if k == 0 then Break else if k == 1 then Dsb else if k == n then Idle
                        else if k == n - 1 then Make else if k == 2 then Tlbi else DsbTlbi
      invariant k == 0 ==> t.mem[call.pte] == word
      invariant t.pc.DsbTlbi? ==> stale !in t.pending
      invariant k == n ==> call.newVal in t.seen[call.pte]
    {
      RunAppend(c, s, events, Go);
      events, t := events + [Go], Step(c, t, Go);
    }
    RunAppend(c, s, events, Fill(call.pte, asid, call.newVal));
    events, t := events + [Fill(call.pte, asid, call.newVal)], Step(c, t, Fill(call.pte, asid, call.newVal));
    assert Cached(call.pte, asid, call.newVal) in t.tlb && stale in t.tlb;
  }

  /** In the terms of the tlbi instructions: the update is safe exactly when everything is invalidated; or
    * an ASID, of which 8 bits count, and the entry is walked under no other; or an address, and the entry
    * is walked for its page; or when the entry is not walked at all. */
  lemma SafeExactly(c: Config, call: Call, word: nat)
    requires IsValid(word) && IsValid(call.newVal) && word != call.newVal
    ensures (forall events :: OnlyCall(events, call) ==> AtMostOne(Run(c, Start(call.pte, word), events))) <==>
      || call.pte !in c.asids || c.asids[call.pte] == {}
      || call.sync.SyncAll?
      || (call.sync.SyncAsid? && c.asids[call.pte] <= {call.sync.asid % 256})
      || (call.sync.SyncVa? && call.pte in c.pages && call.sync.va / 4096 in c.pages[call.pte])
  {
    ExactlyAdequate(c, call, word);
    var walkers := Walkers(c, call.pte);
    if walkers != {} {
      var asid :| asid in walkers;
      assert Adequate(c, call.pte, call.sync) <==> forall a :: a in walkers ==> Hits(c, call.pte, a, call.sync);
      assert Adequate(c, call.pte, call.sync) ==> Hits(c, call.pte, asid, call.sync);
    }
  }

  // ----- vmm_update_pte

  predicate IsHardware(e: Event) {
    e.Fill? || e.Evict?
  }

  /** The accesses of a call that does TLB maintenance or not, among the given walks and evictions. */
  function Script(call: Call, maintenance: bool, walks: nat -> seq<Event>): seq<Event> {
    Opening(call, walks) + Maintenance(call, maintenance, walks) + (walks(4) + [Go])
  }

  function Opening(call: Call, walks: nat -> seq<Event>): seq<Event> {
    [Begin(call)] + walks(0) + [Go] + walks(1)
  }

  function Maintenance(call: Call, maintenance: bool, walks: nat -> seq<Event>): seq<Event> {
    if !maintenance then []
    else if call.sync.SyncNone? then [Go]
    else [Go] + walks(2) + [Go] + walks(3) + [Go]
  }

  lemma {:induction false} RunConcat(c: Config, s: State, a: seq<Event>, b: seq<Event>)
    ensures Run(c, s, a + b) == Run(c, Run(c, s, a), b)
  {
    if b == [] {
      assert a + b == a;
    } else {
      var last := |b| - 1;
      RunConcat(c, s, a, b[..last]);
      assert (a + b)[..|a + b| - 1] == a + b[..last];
    }
  }

  lemma RunOne(c: Config, s: State, e: Event)
    ensures Run(c, s, [e]) == Step(c, s, e)
  {
    RunAppend(c, s, [], e);
    assert [] + [e] == [e];
  }

  lemma FlushRuns(c: Config, s: State, s1: State, s2: State, s3: State, s4: State, s5: State,
                  a: seq<Event>, b: seq<Event>)
    requires s1 == Step(c, s, Go) && s2 == Run(c, s1, a) && s3 == Step(c, s2, Go) && s4 == Run(c, s3, b)
    requires s5 == Step(c, s4, Go)
    ensures s5 == Run(c, s, [Go] + a + [Go] + b + [Go])
  {
    RunOne(c, s, Go);
    RunConcat(c, s, [Go], a);
    RunAppend(c, s, [Go] + a, Go);
    RunConcat(c, s, [Go] + a + [Go], b);
    RunAppend(c, s, [Go] + a + [Go] + b, Go);
  }

  lemma OpeningRuns(c: Config, s: State, s1: State, s2: State, s3: State, s4: State, call: Call, walks: nat -> seq<Event>)
    requires s1 == Step(c, s, Begin(call)) && s2 == Run(c, s1, walks(0)) && s3 == Step(c, s2, Go)
    requires s4 == Run(c, s3, walks(1))
    ensures s4 == Run(c, s, Opening(call, walks))
  {
    var e0 := [Begin(call)];
    RunOne(c, s, Begin(call));
    RunConcat(c, s, e0, walks(0));
    RunAppend(c, s, e0 + walks(0), Go);
    RunConcat(c, s, e0 + walks(0) + [Go], walks(1));
  }

  // ----- What a call does to the TLB

  /** A walk has cached the descriptor. */
  predicate Filled(events: seq<Event>, e: Cached) {
    Fill(e.pte, e.asid, e.word) in events
  }

  lemma {:induction false} HardwareKeeps(c: Config, s: State, events: seq<Event>)
    requires forall e :: e in events ==> IsHardware(e)
    ensures Run(c, s, events) == s.(tlb := Run(c, s, events).tlb)
    ensures forall e :: e in Run(c, s, events).tlb ==> e in s.tlb || Filled(events, e)
  {
    if events != [] {
      var n := |events| - 1;
      assert events == events[..n] + [events[n]];
      HardwareKeeps(c, s, events[..n]);
      assert events[n] in events && IsHardware(events[n]);
      forall e | e in Run(c, s, events).tlb ensures e in s.tlb || Filled(events, e) {
        assert e in Run(c, s, events[..n]).tlb ==> e in s.tlb || Filled(events[..n], e);
        assert e !in Run(c, s, events[..n]).tlb ==> events[n] == Fill(e.pte, e.asid, e.word);
      }
    }
  }

  /** The tlbi instruction asked for is one for the descriptor: of everything, of its ASID, of which 8
    * bits count, or of a page that the entry is walked for. */
  predicate Reaches(c: Config, sync: Sync, e: Cached) {
    || sync.SyncAll?
    || (sync.SyncAsid? && e.asid == sync.asid % 256)
    || (sync.SyncVa? && e.pte in c.pages && sync.va / 4096 in c.pages[e.pte])
  }

  /** Whatever maintenance reaches is gone afterwards, unless it has been walked again after the tlbi. */
  lemma FlushForgets(c: Config, s: State, call: Call, walks: nat -> seq<Event>, e: Cached)
    requires s.call == call && s.pc.Dsb? && call.pte in s.mem && s.mem.Keys == s.seen.Keys
    requires forall k, x :: x in walks(k) ==> IsHardware(x)
    requires Reaches(c, call.sync, e) && e in Run(c, s, Maintenance(call, true, walks)).tlb
    ensures Filled(walks(3), e)
  {
    var s1 := Step(c, s, Go);
    var s2 := Run(c, s1, walks(2));
    var s3 := Step(c, s2, Go);
    var s4 := Run(c, s3, walks(3));
    HardwareKeeps(c, s1, walks(2));
    HardwareKeeps(c, s3, walks(3));
    FlushRuns(c, s, s1, s2, s3, s4, Step(c, s4, Go), walks(2), walks(3));
    assert e in s3.tlb ==> e in s3.pending;
  }

  lemma OpeningBreaks(c: Config, s: State, call: Call, walks: nat -> seq<Event>)
    requires s.pc.Idle? && call.pte in s.mem && s.mem.Keys == s.seen.Keys && (call.force || s.mem[call.pte] > 0)
    requires forall k, x :: x in walks(k) ==> IsHardware(x)
    ensures var t := Run(c, s, Opening(call, walks)); t.call == call && t.pc.Dsb? && call.pte in t.mem && t.mem.Keys == t.seen.Keys
  {
    var s1 := Step(c, s, Begin(call));
    var s2 := Run(c, s1, walks(0));
    var s3 := Step(c, s2, Go);
    HardwareKeeps(c, s1, walks(0));
    HardwareKeeps(c, s3, walks(1));
    OpeningRuns(c, s, s1, s2, s3, Run(c, s3, walks(1)), call, walks);
  }

  lemma MakeForgets(c: Config, s: State, events: seq<Event>, e: Cached)
    requires forall x :: x in events ==> IsHardware(x)
    requires s.pc.Make? || s.pc.Idle?
    requires e in Run(c, s, events + [Go]).tlb
    ensures e in s.tlb || Filled(events, e)
  {
    RunAppend(c, s, events, Go);
    HardwareKeeps(c, s, events);
  }

  lemma FlushMakes(c: Config, s: State, call: Call, walks: nat -> seq<Event>)
    requires s.call == call && s.pc.Dsb? && call.pte in s.mem && s.mem.Keys == s.seen.Keys && !call.sync.SyncNone?
    requires forall k, x :: x in walks(k) ==> IsHardware(x)
    ensures Run(c, s, Maintenance(call, true, walks)).pc.Make?
  {
    var s1 := Step(c, s, Go);
    var s2 := Run(c, s1, walks(2));
    var s3 := Step(c, s2, Go);
    var s4 := Run(c, s3, walks(3));
    HardwareKeeps(c, s1, walks(2));
    HardwareKeeps(c, s3, walks(3));
    FlushRuns(c, s, s1, s2, s3, s4, Step(c, s4, Go), walks(2), walks(3));
  }

  /** A call that finds the entry non-zero, or that is forced, leaves nothing in the TLB that its
    * invalidation reaches, but for what has been walked again after the tlbi. */
  lemma CallForgets(c: Config, s: State, call: Call, walks: nat -> seq<Event>, e: Cached)
    requires s.pc.Idle? && call.pte in s.mem && s.mem.Keys == s.seen.Keys && (call.force || s.mem[call.pte] > 0)
    requires forall k, x :: x in walks(k) ==> IsHardware(x)
    requires Reaches(c, call.sync, e) && e in Run(c, s, Script(call, true, walks)).tlb
    ensures Filled(walks(3), e) || Filled(walks(4), e)
  {
    var open, m := Opening(call, walks), Maintenance(call, true, walks);
    OpeningBreaks(c, s, call, walks);
    RunConcat(c, s, open, m);
    RunConcat(c, s, open + m, walks(4) + [Go]);
    var t := Run(c, s, open);
    FlushMakes(c, t, call, walks);
    MakeForgets(c, Run(c, t, m), walks(4), e);
    if e in Run(c, t, m).tlb {
      FlushForgets(c, t, call, walks, e);
    }
  }

  /** The machine that runs vmm_update_pte, with the walks and evictions that its TLB makes. */
  class Machine {
    const config: Config
    var mem: map<nat, nat>
    var seen: map<nat, set<nat>>
    var tlb: set<Cached>
    var pending: set<Cached>
    /** The call that is under way and its next access. */
    ghost var call: Call
    ghost var pc: Pc

    ghost function Snapshot(): State
      reads this
    {
      State(mem, seen, tlb, pc, call, pending)
    }

    constructor (config: Config, mem: map<nat, nat>)
      ensures Fresh(Snapshot()) && this.config == config && this.mem == mem
    {
      this.config, this.mem := config, mem;
      seen, tlb, pending := (map p | p in mem :: {mem[p]}), {}, {};
      call, pc := Call(0, 0, SyncAll, false), Idle;
    }

    /** The hardware walks a table or drops an entry. */
    method OneWalk(e: Event)
      requires IsHardware(e)
      modifies this`tlb
      ensures Snapshot() == Step(config, old(Snapshot()), e)
    {
      match e {
        case Fill(pte, asid, word) =>
          if asid in Walkers(config, pte) && pte in seen && word in seen[pte] && IsValid(word) {
            tlb := tlb + {Cached(pte, asid, word)};
          }
        case Evict(entry) => tlb := tlb - {entry};
        case _ =>
      }
    }

    method Hardware(events: seq<Event>)
      requires forall e :: e in events ==> IsHardware(e)
      modifies this`tlb
      ensures Snapshot() == Run(config, old(Snapshot()), events)
    {
      ghost var s := Snapshot();
      for k := 0 to |events|
        invariant Snapshot() == Run(config, s, events[..k])
      {
        OneWalk(events[k]);
        assert events[..k + 1][..k] == events[..k];
      }
      assert events[..|events|] == events;
    }

    method BeginCall(ghost c: Call)
      requires pc.Idle? && c.pte in mem && c.pte in seen
      modifies this`call, this`pc
      ensures Snapshot() == Step(config, old(Snapshot()), Begin(c))
    {
      call, pc := c, Break;
    }

    /** Making the entry invalid, if it is not already zero. */
    method BreakEntry(pte: nat, force: bool) returns (needsTlbMaintenance: bool)
      requires pc.Break? && pte in mem && pte in seen && call.pte == pte && call.force == force
      modifies this`mem, this`seen, this`pc
      ensures Snapshot() == Step(config, old(Snapshot()), Go)
      ensures pc == if needsTlbMaintenance then Dsb else Make
      ensures needsTlbMaintenance == (force || old(mem)[pte] > 0)
      ensures mem == if old(mem)[pte] > 0 then old(mem)[pte := 0] else old(mem)
      ensures mem.Keys == old(mem).Keys && seen.Keys == old(seen).Keys
    {
      needsTlbMaintenance := force;
      if mem[pte] > 0 {
        mem, seen := mem[pte := 0], seen[pte := seen[pte] + {0}];
        needsTlbMaintenance := true;
      }
      pc := if needsTlbMaintenance then Dsb else Make;
    }

    /** dsb: walks no longer see what has been overwritten. */
    method DataBarrier()
      requires pc.Dsb? && call.pte in mem && call.pte in seen
      modifies this`seen, this`pc
      ensures Snapshot() == Step(config, old(Snapshot()), Go)
    {
      seen := map p | p in mem :: {mem[p]};
      pc := if call.sync.SyncNone? then Make else Tlbi;
    }

    /** tlbi_all, tlbi_asid or tlbi_va */
    method Invalidate(sync: Sync)
      requires pc.Tlbi? && call.pte in mem && call.pte in seen && call.sync == sync
      modifies this`pending, this`pc
      ensures Snapshot() == Step(config, old(Snapshot()), Go)
    {
      pending := set e | e in tlb && Hits(config, e.pte, e.asid, sync);
      pc := DsbTlbi;
    }

    /** The dsb that waits for the invalidation. */
    method CompletionBarrier()
      requires pc.DsbTlbi? && call.pte in mem && call.pte in seen
      modifies this`seen, this`tlb, this`pc
      ensures Snapshot() == Step(config, old(Snapshot()), Go)
    {
      seen := map p | p in mem :: {mem[p]};
      tlb := tlb - pending;
      pc := Make;
    }

    method MakeEntry(pte: nat, newVal: nat)
      requires pc.Make? && pte in mem && pte in seen && call.pte == pte && call.newVal == newVal
      modifies this`mem, this`seen, this`pc
      ensures Snapshot() == Step(config, old(Snapshot()), Go)
      ensures mem == old(mem)[pte := newVal] && mem.Keys == old(mem).Keys && seen.Keys == old(seen).Keys && pc.Idle?
    {
      mem, seen := mem[pte := newVal], seen[pte := seen[pte] + {newVal}];
      pc := Idle;
    }

    /** vmm_flush_tlb, vmm_flush_tlb_asid or vmm_flush_tlb_vaddr */
    method Flush(sync: Sync, walks: nat -> seq<Event>)
      requires pc.Dsb? && call.pte in mem && mem.Keys == seen.Keys && call.sync == sync && !sync.SyncNone?
      requires forall k, e :: e in walks(k) ==> IsHardware(e)
      modifies this`seen, this`tlb, this`pending, this`pc
      ensures pc.Make? && mem.Keys == seen.Keys
      ensures Snapshot() == Run(config, old(Snapshot()), Maintenance(call, true, walks))
    {
      ghost var s := Snapshot();
      DataBarrier();
      ghost var s1 := Snapshot();
      Hardware(walks(2));
      ghost var s2 := Snapshot();
      Invalidate(sync);
      ghost var s3 := Snapshot();
      Hardware(walks(3));
      ghost var s4 := Snapshot();
      CompletionBarrier();
      FlushRuns(config, s, s1, s2, s3, s4, Snapshot(), walks(2), walks(3));
    }

    /** The barrier or the flush that the kind of synchronisation asks for, if one is needed. */
    method Maintain(needed: bool, sync: Sync, walks: nat -> seq<Event>)
      requires pc == if needed then Dsb else Make
      requires call.pte in mem && mem.Keys == seen.Keys && call.sync == sync
      requires forall k, e :: e in walks(k) ==> IsHardware(e)
      modifies this`seen, this`tlb, this`pending, this`pc
      ensures pc.Make? && mem.Keys == seen.Keys
      ensures Snapshot() == Run(config, old(Snapshot()), Maintenance(call, needed, walks))
    {
      if !needed {
        return;
      }
      if sync.SyncNone? {
        RunOne(config, Snapshot(), Go);
        DataBarrier();
      } else {
        Flush(sync, walks);
      }
    }

    /** vmm_update_pte up to the point where the TLB may need maintenance. */
    method BreakFirst(pte: nat, newVal: nat, sync: Sync, force: bool, walks: nat -> seq<Event>)
      returns (needsTlbMaintenance: bool)
      requires pc.Idle? && pte in mem && mem.Keys == seen.Keys
      requires forall k, e :: e in walks(k) ==> IsHardware(e)
      modifies this
      ensures mem.Keys == seen.Keys && call == Call(pte, newVal, sync, force)
      ensures pc == if needsTlbMaintenance then Dsb else Make
      ensures needsTlbMaintenance == (force || old(mem)[pte] > 0)
      ensures mem == if old(mem)[pte] > 0 then old(mem)[pte := 0] else old(mem)
      ensures Snapshot() == Run(config, old(Snapshot()), Opening(Call(pte, newVal, sync, force), walks))
    {
      ghost var s := Snapshot();
      BeginCall(Call(pte, newVal, sync, force));
      ghost var s1 := Snapshot();
      Hardware(walks(0));
      ghost var s2 := Snapshot();
      needsTlbMaintenance := BreakEntry(pte, force);
      ghost var s3 := Snapshot();
      Hardware(walks(1));
      OpeningRuns(config, s, s1, s2, s3, Snapshot(), Call(pte, newVal, sync, force), walks);
    }

    /** vmm_update_pte, with the given walks and evictions before each of its accesses: what it does
      * is a run of the state machine that makes this one call and finishes it. */
    method UpdatePte(pte: nat, newVal: nat, sync: Sync, force: bool, walks: nat -> seq<Event>)
      requires pc.Idle? && pte in mem && mem.Keys == seen.Keys
      requires forall k, e :: e in walks(k) ==> IsHardware(e)
      modifies this
      ensures pc.Idle? && mem == old(mem)[pte := newVal] && mem.Keys == seen.Keys
      ensures Snapshot() ==
              Run(config, old(Snapshot()), Script(Call(pte, newVal, sync, force), force || old(mem)[pte] > 0, walks))
    {
      ghost var s, c := Snapshot(), Call(pte, newVal, sync, force);
      var needsTlbMaintenance := BreakFirst(pte, newVal, sync, force, walks);
      ghost var s4 := Snapshot();
      Maintain(needsTlbMaintenance, sync, walks);
      MakeLast(pte, newVal, walks);
      RunConcat(config, s, Opening(c, walks), Maintenance(c, needsTlbMaintenance, walks));
      RunConcat(config, s, Opening(c, walks) + Maintenance(c, needsTlbMaintenance, walks), walks(4) + [Go]);
    }

    method MakeLast(pte: nat, newVal: nat, walks: nat -> seq<Event>)
      requires pc.Make? && pte in mem && mem.Keys == seen.Keys && call.pte == pte && call.newVal == newVal
      requires forall k, e :: e in walks(k) ==> IsHardware(e)
      modifies this
      ensures pc.Idle? && mem == old(mem)[pte := newVal] && mem.Keys == seen.Keys
      ensures Snapshot() == Run(config, old(Snapshot()), walks(4) + [Go])
    {
      RunAppend(config, Snapshot(), walks(4), Go);
      Hardware(walks(4));
      MakeEntry(pte, newVal);
    }
  }
}
