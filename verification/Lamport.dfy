/** The bakery lock of lib/arch/sync.c, for any number of CPUs.
  *
  * Every read or write of another CPU's `entering` or `number` slot is one step, and
  * memory is sequentially consistent.  A CPU's reads of its own `number` slot are not
  * separate steps: nobody else writes that slot.  Given the memory, the next step of a
  * CPU is determined, so a run is a schedule: the sequence of CPUs that take a step.
  */
module Lamport {

  datatype Pc =
    | Idle                          // outside; next: entering[i] = 1
    | Compare(j: nat, max: nat)     // get_ticket: next reads number[j] for the comparison
    | Reread(j: nat, max: nat)      // get_ticket: next reads number[j] again, into max
    | Publish(ticket: nat)          // next: number[i] = ticket
    | Leave                         // next: entering[i] = 0
    | AwaitDoor(j: nat)             // next reads entering[j]
    | AwaitZero(j: nat)             // next reads number[j] != 0
    | AwaitLess(j: nat)             // lex_less: next reads number[j] < number[i]
    | AwaitEqual(j: nat)            // lex_less: next reads number[j] == number[i]
    | Inside                        // holds the lock; next: number[i] = 0

  datatype State = State(entering: seq<bool>, number: seq<nat>, pc: seq<Pc>) {
    function Size(): nat { |pc| }

    predicate WellFormed() {
      && |entering| == |number| == |pc|
      && forall i :: 0 <= i < |pc| ==> IndexInRange(pc[i], |pc|)
    }
  }

  predicate IndexInRange(pc: Pc, n: nat) {
    match pc
    case Compare(j, _) => j < n
    case Reread(j, _) => j < n
    case AwaitDoor(j) => j < n
    case AwaitZero(j) => j < n
    case AwaitLess(j) => j < n
    case AwaitEqual(j) => j < n
    case _ => true
  }

  /** All slots zero and nobody near the lock. */
  function Initial(n: nat): (s: State) {
    State(seq(n, _ => false), seq(n, _ => 0), seq(n, _ => Idle))
  }

  /** The scan of get_ticket moves on to the next slot, or returns 1 + max. */
  function NextScan(n: nat, j: nat, max: nat): Pc {
    if j + 1 < n then Compare(j + 1, max) else Publish(max + 1)
  }

  /** The waiting loop moves on to the next CPU, or the lock is taken. */
  function NextWait(n: nat, j: nat): Pc {
    if j + 1 < n then AwaitDoor(j + 1) else Inside
  }

  /** The next pc of CPU i, from what its next step reads. */
  function NextPc(s: State, i: nat): Pc
    requires s.WellFormed() && i < s.Size()
  {
    match s.pc[i]
    case Idle => Compare(0, 0)
    case Compare(j, max) => if max < s.number[j] then Reread(j, max) else NextScan(s.Size(), j, max)
    case Reread(j, max) => NextScan(s.Size(), j, s.number[j])
    case Publish(_) => Leave
    case Leave => AwaitDoor(0)
    case AwaitDoor(j) => if s.entering[j] then AwaitDoor(j) else AwaitZero(j)
    case AwaitZero(j) => if s.number[j] != 0 then AwaitLess(j) else NextWait(s.Size(), j)
    case AwaitLess(j) => if s.number[j] < s.number[i] then AwaitZero(j) else AwaitEqual(j)
    case AwaitEqual(j) =>
      if s.number[j] == s.number[i] && j < i then AwaitZero(j) else NextWait(s.Size(), j)
    case Inside => Idle
  }

  /** One step of CPU i. */
  function Step(s: State, i: nat): (t: State)
    requires s.WellFormed() && i < s.Size()
    ensures t.WellFormed() && t.Size() == s.Size()
  {
    var t := s.(pc := s.pc[i := NextPc(s, i)]);
    match s.pc[i]
    case Idle => t.(entering := s.entering[i := true])
    case Publish(ticket) => t.(number := s.number[i := ticket])
    case Leave => t.(entering := s.entering[i := false])
    case Inside => t.(number := s.number[i := 0])
    case _ => t
  }

  predicate Schedule(n: nat, sched: seq<nat>) {
    forall k :: 0 <= k < |sched| ==> sched[k] < n
  }

  /** The state after the CPUs named in sched have each taken a step, in that order. */
  function Run(s: State, sched: seq<nat>): (t: State)
    requires s.WellFormed() && Schedule(s.Size(), sched)
    ensures t.WellFormed() && t.Size() == s.Size()
  {
    if sched == [] then s else Step(Run(s, sched[..|sched| - 1]), sched[|sched| - 1])
  }

  // ----- The invariant

  /** Between the stores of lines 49 and 53. */
  predicate InDoorway(pc: Pc) { pc.Compare? || pc.Reread? || pc.Publish? || pc.Leave? }

  /** In the loop of lines 54-62. */
  predicate Waiting(pc: Pc) { pc.AwaitDoor? || pc.AwaitZero? || pc.AwaitLess? || pc.AwaitEqual? }

  predicate HasTicket(pc: Pc) { pc.Leave? || Waiting(pc) || pc.Inside? }

  /** The CPU at pc has seen entering[j] == 0 since it got its ticket. */
  predicate SawDoorShut(pc: Pc, j: nat) {
    match pc
    case AwaitDoor(k) => j < k
    case AwaitZero(k) => j <= k
    case AwaitLess(k) => j <= k
    case AwaitEqual(k) => j <= k
    case Inside => true
    case _ => false
  }

  /** The CPU at pc has finished waiting for CPU j. */
  predicate Passed(pc: Pc, j: nat) {
    pc.Inside? || (Waiting(pc) && j < pc.j)
  }

  predicate Before(s: State, i: nat, j: nat)
    requires s.WellFormed() && i < s.Size() && j < s.Size()
  {
    s.number[i] < s.number[j] || (s.number[i] == s.number[j] && i < j)
  }

  /** What CPU j's progress looks like when it began its doorway after CPU i had published
    * its ticket.  The clause on Reread is what the second read of get_ticket needs: the slot
    * that beat the running maximum cannot have been cleared, so max does not drop below
    * CPU i's ticket.
    */
  predicate Ahead(s: State, i: nat, j: nat)
    requires s.WellFormed() && i < s.Size() && j < s.Size()
  {
    match s.pc[j]
    case Idle => true
    case Compare(k, max) => i < k ==> s.number[i] <= max
    case Reread(k, max) => i < k ==> s.number[i] <= max && s.number[i] < s.number[k]
    case Publish(ticket) => s.number[i] < ticket
    case _ => s.number[i] < s.number[j]
  }

  predicate LocalInv(s: State, i: nat)
    requires s.WellFormed() && i < s.Size()
  {
    && s.entering[i] == InDoorway(s.pc[i])
    && (s.number[i] != 0 <==> HasTicket(s.pc[i]))
    && (s.pc[i].Publish? ==> s.pc[i].ticket != 0)
  }

  predicate PairInv(s: State, i: nat, j: nat)
    requires s.WellFormed() && i < s.Size() && j < s.Size()
  {
    && (SawDoorShut(s.pc[i], j) && InDoorway(s.pc[j]) ==> Ahead(s, i, j))
    && (s.pc[i] == AwaitEqual(j) && HasTicket(s.pc[j]) ==> s.number[i] <= s.number[j])
    && (Passed(s.pc[i], j) && HasTicket(s.pc[j]) ==> Before(s, i, j))
  }

  predicate Inv(s: State) {
    && s.WellFormed()
    && (forall i :: 0 <= i < s.Size() ==> LocalInv(s, i))
    && (forall i, j :: 0 <= i < s.Size() && 0 <= j < s.Size() && i != j ==> PairInv(s, i, j))
  }

  /** While CPU i keeps its ticket, being ahead of CPU j survives every step of every CPU. */
  lemma AheadPersists(s: State, c: nat, i: nat, j: nat)
    requires Inv(s) && c < s.Size() && i < s.Size() && j < s.Size() && i != j
    requires HasTicket(s.pc[i]) && HasTicket(Step(s, c).pc[i])
    requires Ahead(s, i, j)
    ensures Ahead(Step(s, c), i, j)
  {
    assert LocalInv(s, i) && LocalInv(s, j) && LocalInv(s, c);
    if c != i && c != j && s.pc[j].Reread? && c == s.pc[j].j && i < c {
      assert PairInv(s, c, i);
    }
  }

  lemma LocalInvPersists(s: State, c: nat, i: nat)
    requires Inv(s) && c < s.Size() && i < s.Size()
    ensures LocalInv(Step(s, c), i)
  {
    assert LocalInv(s, i) && LocalInv(s, c);
  }

  lemma PairInvPersists(s: State, c: nat, i: nat, j: nat)
    requires Inv(s) && c < s.Size() && i < s.Size() && j < s.Size() && i != j
    ensures PairInv(Step(s, c), i, j)
  {
    var t := Step(s, c);
    assert LocalInv(s, i) && LocalInv(s, j) && PairInv(s, i, j) && PairInv(s, j, i);
    if SawDoorShut(s.pc[i], j) && SawDoorShut(t.pc[i], j) && (s.pc[j].Idle? || InDoorway(s.pc[j])) {
      AheadPersists(s, c, i, j);
    }
  }

  lemma StepKeepsInv(s: State, c: nat)
    requires Inv(s) && c < s.Size()
    ensures Inv(Step(s, c))
  {
    var t := Step(s, c);
    forall i | 0 <= i < t.Size() ensures LocalInv(t, i) { LocalInvPersists(s, c, i); }
    forall i, j | 0 <= i < t.Size() && 0 <= j < t.Size() && i != j ensures PairInv(t, i, j) {
      PairInvPersists(s, c, i, j);
    }
  }

  lemma {:induction false} RunKeepsInv(s: State, sched: seq<nat>)
    requires Inv(s) && Schedule(s.Size(), sched)
    ensures Inv(Run(s, sched))
  {
    if sched != [] {
      RunKeepsInv(s, sched[..|sched| - 1]);
      StepKeepsInv(Run(s, sched[..|sched| - 1]), sched[|sched| - 1]);
    }
  }

  lemma OneInside(s: State, i: nat, j: nat)
    requires Inv(s) && i < s.Size() && j < s.Size() && s.pc[i].Inside? && s.pc[j].Inside?
    ensures i == j
  {
    assert i != j ==> PairInv(s, i, j);
    assert i != j ==> PairInv(s, j, i);
    assert LocalInv(s, i) && LocalInv(s, j);
  }

  /** Mutual exclusion: whatever the number of CPUs and the interleaving, two CPUs are never
    * both between the end of lamport_lock and lamport_unlock. */
  lemma MutualExclusion(n: nat, sched: seq<nat>, i: nat, j: nat)
    requires Schedule(n, sched) && i < n && j < n
    requires Run(Initial(n), sched).pc[i].Inside? && Run(Initial(n), sched).pc[j].Inside?
    ensures i == j
  {
    RunKeepsInv(Initial(n), sched);
    OneInside(Run(Initial(n), sched), i, j);
  }

  // ----- First come, first served

  /** CPU j is still behind CPU i, and has not slipped past it in its waiting loop. */
  predicate Behind(s: State, i: nat, j: nat)
    requires s.WellFormed() && i < s.Size() && j < s.Size()
  {
    && HasTicket(s.pc[i])
    && Ahead(s, i, j)
    && !Passed(s.pc[j], i)
    && s.pc[j] != AwaitEqual(i)
  }

  lemma BehindPersists(s: State, c: nat, i: nat, j: nat)
    requires Inv(s) && c < s.Size() && i < s.Size() && j < s.Size() && i != j
    requires Behind(s, i, j) && HasTicket(Step(s, c).pc[i])
    ensures Behind(Step(s, c), i, j)
  {
    AheadPersists(s, c, i, j);
    assert LocalInv(s, i);
  }

  /** CPU i is inside at no point of the run. */
  predicate NeverInside(s: State, sched: seq<nat>, i: nat)
    requires s.WellFormed() && Schedule(s.Size(), sched) && i < s.Size()
  {
    && !Run(s, sched).pc[i].Inside?
    && (sched != [] ==> NeverInside(s, sched[..|sched| - 1], i))
  }

  lemma {:induction false} BehindThroughout(s: State, sched: seq<nat>, i: nat, j: nat)
    requires Inv(s) && Schedule(s.Size(), sched) && i < s.Size() && j < s.Size() && i != j
    requires Waiting(s.pc[i]) && s.pc[j].Idle?
    requires NeverInside(s, sched, i)
    ensures Waiting(Run(s, sched).pc[i]) && Behind(Run(s, sched), i, j)
  {
    if sched != [] {
      var init := sched[..|sched| - 1];
      BehindThroughout(s, init, i, j);
      RunKeepsInv(s, init);
      BehindPersists(Run(s, init), sched[|sched| - 1], i, j);
    }
  }

  /** A CPU that has finished lines 49-53 before another starts line 49 enters first: as long
    * as the first is not yet inside, neither is the second. */
  lemma FirstComeFirstServed(n: nat, before: seq<nat>, after: seq<nat>, i: nat, j: nat)
    requires Schedule(n, before) && Schedule(n, after) && i < n && j < n && i != j
    requires Waiting(Run(Initial(n), before).pc[i]) && Run(Initial(n), before).pc[j].Idle?
    requires NeverInside(Run(Initial(n), before), after, i)
    ensures NeverInside(Run(Initial(n), before), after, j)
  {
    RunKeepsInv(Initial(n), before);
    BehindAllAlong(Run(Initial(n), before), after, i, j);
  }

  lemma {:induction false} BehindAllAlong(s: State, sched: seq<nat>, i: nat, j: nat)
    requires Inv(s) && Schedule(s.Size(), sched) && i < s.Size() && j < s.Size() && i != j
    requires Waiting(s.pc[i]) && s.pc[j].Idle?
    requires NeverInside(s, sched, i)
    ensures NeverInside(s, sched, j)
  {
    BehindThroughout(s, sched, i, j);
    if sched != [] {
      BehindAllAlong(s, sched[..|sched| - 1], i, j);
    }
  }

  // ----- get_ticket reads a slot twice

  lemma {:induction false} PcStays(s: State, sched: seq<nat>, j: nat)
    requires s.WellFormed() && Schedule(s.Size(), sched) && j < s.Size() && j !in sched
    ensures Run(s, sched).pc[j] == s.pc[j]
  {
    if sched != [] {
      assert sched[|sched| - 1] in sched;
      PcStays(s, sched[..|sched| - 1], j);
    }
  }

  /** When a slot beats the maximum so far, the new maximum is what the slot holds by the time of its
    * second read, whatever the other CPUs have done since the first: it can be smaller than before. */
  lemma SecondReadCounts(s: State, j: nat, k: nat, max: nat, others: seq<nat>)
    requires s.WellFormed() && Schedule(s.Size(), others) && j < s.Size() && j !in others
    requires s.pc[j] == Compare(k, max) && k < s.Size() && max < s.number[k]
    ensures var t := Run(Step(s, j), others);
      Step(t, j).pc[j] == if k + 1 < s.Size() then Compare(k + 1, t.number[k]) else Publish(t.number[k] + 1)
  {
    PcStays(Step(s, j), others, j);
  }

  // ----- In the order of the tickets

  /** Whoever is inside has the smallest ticket of all, and of equal tickets that of the lowest CPU. */
  lemma SmallestTicketInside(n: nat, sched: seq<nat>, i: nat, j: nat)
    requires Schedule(n, sched) && i < n && j < n && i != j
    requires Run(Initial(n), sched).pc[i].Inside? && Run(Initial(n), sched).number[j] != 0
    ensures var number := Run(Initial(n), sched).number;
      number[i] < number[j] || (number[i] == number[j] && i < j)
  {
    RunKeepsInv(Initial(n), sched);
    var s := Run(Initial(n), sched);
    assert PairInv(s, i, j) && LocalInv(s, j);
  }

  /** CPU j holds the later ticket and has not finished waiting for CPU i. */
  predicate Later(s: State, i: nat, j: nat)
    requires s.WellFormed() && i < s.Size() && j < s.Size()
  {
    HasTicket(s.pc[i]) && HasTicket(s.pc[j]) && Before(s, i, j) && !Passed(s.pc[j], i)
  }

  lemma LaterPersists(s: State, c: nat, i: nat, j: nat)
    requires Inv(s) && c < s.Size() && i < s.Size() && j < s.Size() && i != j
    requires Later(s, i, j) && HasTicket(Step(s, c).pc[i])
    ensures Later(Step(s, c), i, j)
  {
    assert LocalInv(s, i) && LocalInv(s, j) && PairInv(s, j, i);
  }

  lemma {:induction false} LaterThroughout(s: State, sched: seq<nat>, i: nat, j: nat)
    requires Inv(s) && Schedule(s.Size(), sched) && i < s.Size() && j < s.Size() && i != j
    requires Later(s, i, j) && NeverInside(s, sched, i)
    ensures HasTicket(Run(s, sched).pc[i]) && Later(Run(s, sched), i, j)
  {
    if sched != [] {
      var init := sched[..|sched| - 1];
      LaterThroughout(s, init, i, j);
      RunKeepsInv(s, init);
      LaterPersists(Run(s, init), sched[|sched| - 1], i, j);
    }
  }

  lemma {:induction false} LaterAllAlong(s: State, sched: seq<nat>, i: nat, j: nat)
    requires Inv(s) && Schedule(s.Size(), sched) && i < s.Size() && j < s.Size() && i != j
    requires Later(s, i, j) && NeverInside(s, sched, i)
    ensures NeverInside(s, sched, j)
  {
    LaterThroughout(s, sched, i, j);
    if sched != [] {
      LaterAllAlong(s, sched[..|sched| - 1], i, j);
    }
  }

  /** Of two CPUs with tickets, the one with the smaller ticket enters first, and of two with equal
    * tickets the one with the smaller number: the other never gets in while it has not been in. */
  lemma InTicketOrder(n: nat, before: seq<nat>, after: seq<nat>, i: nat, j: nat)
    requires Schedule(n, before) && Schedule(n, after) && i < n && j < n
    requires var number := Run(Initial(n), before).number;
      number[i] != 0 && number[j] != 0 && (number[i] < number[j] || (number[i] == number[j] && i < j))
    requires NeverInside(Run(Initial(n), before), after, i)
    ensures NeverInside(Run(Initial(n), before), after, j)
  {
    var s := Run(Initial(n), before);
    RunKeepsInv(Initial(n), before);
    assert LocalInv(s, i) && LocalInv(s, j) && PairInv(s, j, i);
    LaterAllAlong(s, after, i, j);
  }

  // ----- No deadlock

  lemma {:induction false} RunAppend(s: State, a: seq<nat>, b: seq<nat>)
    requires s.WellFormed() && Schedule(s.Size(), a) && Schedule(s.Size(), b)
    ensures Schedule(s.Size(), a + b) && Run(s, a + b) == Run(Run(s, a), b)
  {
    if b == [] {
      assert a + b == a;
    } else {
      var init := b[..|b| - 1];
      RunAppend(s, a, init);
      assert (a + b)[..|a + b| - 1] == a + init;
    }
  }

  /** The schedule names only CPUs that are somewhere in lamport_lock in state s. */
  predicate OnlyActive(s: State, sched: seq<nat>) {
    Schedule(s.Size(), sched) && forall k :: 0 <= k < |sched| ==> sched[k] < |s.pc| && !s.pc[sched[k]].Idle?
  }

  /** An upper bound on the steps left before CPU i is out of its doorway. */
  function DoorwayWork(n: nat, pc: Pc): nat {
    match pc
    case Compare(j, _) => if j < n then 2 * (n - j) + 2 else 2
    case Reread(j, _) => if j < n then 2 * (n - j) + 1 else 2
    case Publish(_) => 2
    case Leave => 1
    case _ => 0
  }

  /** t is what s becomes while the CPUs below k finish their doorways and nobody else moves. */
  predicate DoorsClearedBelow(s: State, t: State, k: nat)
    requires s.WellFormed() && t.WellFormed() && s.Size() == t.Size()
  {
    forall c :: 0 <= c < s.Size() ==>
      if InDoorway(s.pc[c]) && c < k then t.pc[c] == AwaitDoor(0) else t.pc[c] == s.pc[c]
  }

  /** Run alone, a CPU gets out of its doorway. */
  lemma {:induction false} DoorwayFinishes(s: State, i: nat) returns (sched: seq<nat>)
    requires s.WellFormed() && i < s.Size() && InDoorway(s.pc[i])
    ensures Schedule(s.Size(), sched) && forall k :: 0 <= k < |sched| ==> sched[k] == i
    ensures Run(s, sched).pc == s.pc[i := AwaitDoor(0)]
    decreases DoorwayWork(s.Size(), s.pc[i])
  {
    var t := Step(s, i);
    assert IndexInRange(s.pc[i], s.Size());
    assert Run(s, []) == s;
    assert Run(s, [i]) == t by { assert [i][..0] == []; }
    if s.pc[i].Leave? {
      sched := [i];
    } else {
      var rest := DoorwayFinishes(t, i);
      RunAppend(s, [i], rest);
      sched := [i] + rest;
    }
  }

  lemma {:induction false} DoorwaysFinish(s: State, k: nat) returns (sched: seq<nat>)
    requires s.WellFormed() && k <= s.Size()
    ensures OnlyActive(s, sched)
    ensures DoorsClearedBelow(s, Run(s, sched), k)
  {
    sched := [];
    if k > 0 {
      sched := DoorwaysFinish(s, k - 1);
      if InDoorway(s.pc[k - 1]) {
        var more := DoorwayFinishes(Run(s, sched), k - 1);
        RunAppend(s, sched, more);
        OneMoreActive(s, sched, more, k - 1);
        OneMoreDoor(s, Run(s, sched), Run(s, sched + more), k);
        sched := sched + more;
      } else {
        assert DoorsClearedBelow(s, Run(s, sched), k);
      }
    }
  }

  lemma OneMoreDoor(s: State, t: State, u: State, k: nat)
    requires s.WellFormed() && t.WellFormed() && u.WellFormed() && s.Size() == t.Size() == u.Size()
    requires 0 < k <= s.Size() && InDoorway(s.pc[k - 1])
    requires DoorsClearedBelow(s, t, k - 1) && u.pc == t.pc[k - 1 := AwaitDoor(0)]
    ensures DoorsClearedBelow(s, u, k)
  {
  }

  lemma OneMoreActive(s: State, sched: seq<nat>, more: seq<nat>, c: nat)
    requires OnlyActive(s, sched) && c < |s.pc| && !s.pc[c].Idle?
    requires forall x :: 0 <= x < |more| ==> more[x] == c
    ensures OnlyActive(s, sched + more)
  {
  }

  /** CPU i's ticket comes first among the CPUs below k that have one. */
  predicate FirstBelow(s: State, i: nat, k: nat)
    requires s.WellFormed() && i < s.Size()
  {
    HasTicket(s.pc[i]) &&
    forall j :: 0 <= j < s.Size() && j < k && j != i && HasTicket(s.pc[j]) ==> Before(s, i, j)
  }

  lemma {:induction false} FirstExists(s: State, k: nat) returns (first: nat)
    requires s.WellFormed() && k <= s.Size()
    requires exists j :: 0 <= j < k && HasTicket(s.pc[j])
    ensures first < k && FirstBelow(s, first, k)
  {
    if exists j :: 0 <= j < k - 1 && HasTicket(s.pc[j]) {
      first := FirstExists(s, k - 1);
      if HasTicket(s.pc[k - 1]) && Before(s, k - 1, first) {
        first := k - 1;
      }
    } else {
      first := k - 1;
    }
  }

  /** The steps left before a CPU that nothing holds up is inside. */
  function WaitWork(s: State, i: nat): nat
    requires s.WellFormed() && i < s.Size()
  {
    var n := s.Size();
    assert IndexInRange(s.pc[i], n);
    match s.pc[i]
    case AwaitDoor(j) => 6 * (n - j)
    case AwaitZero(j) => 6 * (n - j) - (if s.number[j] != 0 then 1 else 4)
    case AwaitLess(j) => 6 * (n - j) - (if s.number[j] != 0 then 2 else 3)
    case AwaitEqual(j) => 6 * (n - j) - 3
    case _ => 0
  }

  /** With all doors shut, the CPU whose ticket comes first gets in, run alone. */
  lemma {:induction false} FirstEnters(s: State, i: nat) returns (sched: seq<nat>)
    requires Inv(s) && i < s.Size() && Waiting(s.pc[i]) && FirstBelow(s, i, s.Size())
    requires forall j :: 0 <= j < s.Size() ==> !InDoorway(s.pc[j])
    ensures Schedule(s.Size(), sched) && forall k :: 0 <= k < |sched| ==> sched[k] == i
    ensures Run(s, sched).pc[i].Inside?
    decreases WaitWork(s, i)
  {
    var t := Step(s, i);
    var j := s.pc[i].j;
    assert IndexInRange(s.pc[i], s.Size());
    assert LocalInv(s, i) && LocalInv(s, j);
    assert Run(s, []) == s;
    assert Run(s, [i]) == t by { assert [i][..0] == []; }
    if t.pc[i].Inside? {
      sched := [i];
    } else {
      StepKeepsInv(s, i);
      assert FirstBelow(t, i, t.Size()) by {
        forall j | 0 <= j < t.Size() && j != i && HasTicket(t.pc[j]) ensures Before(t, i, j) {
          assert Before(s, i, j);
        }
      }
      var rest := FirstEnters(t, i);
      RunAppend(s, [i], rest);
      sched := [i] + rest;
    }
  }

  lemma SomeoneEnters(s: State) returns (after: seq<nat>, winner: nat)
    requires Inv(s)
    requires exists i :: 0 <= i < s.Size() && !s.pc[i].Idle?
    requires forall i :: 0 <= i < s.Size() ==> !s.pc[i].Inside?
    ensures OnlyActive(s, after)
    ensures winner < s.Size() && Run(s, after).pc[winner].Inside?
  {
    var doors := DoorwaysFinish(s, s.Size());
    var t := Run(s, doors);
    RunKeepsInv(s, doors);
    var i :| 0 <= i < s.Size() && !s.pc[i].Idle?;
    assert HasTicket(t.pc[i]);
    winner := FirstExists(t, s.Size());
    assert t.pc[winner] == s.pc[winner] || t.pc[winner] == AwaitDoor(0);
    var enter := FirstEnters(t, winner);
    RunAppend(s, doors, enter);
    after := doors + enter;
  }

  /** The lock never deadlocks: from every reachable state in which somebody is in
    * lamport_lock and nobody is inside, steps of the CPUs already in lamport_lock suffice
    * to get one of them inside. */
  lemma NoDeadlock(n: nat, before: seq<nat>) returns (after: seq<nat>, winner: nat)
    requires Schedule(n, before)
    requires exists i :: 0 <= i < n && !Run(Initial(n), before).pc[i].Idle?
    requires forall i :: 0 <= i < n ==> !Run(Initial(n), before).pc[i].Inside?
    ensures OnlyActive(Run(Initial(n), before), after)
    ensures winner < n && Run(Run(Initial(n), before), after).pc[winner].Inside?
  {
    RunKeepsInv(Initial(n), before);
    after, winner := SomeoneEnters(Run(Initial(n), before));
  }

  // ----- 32-bit tickets

  const WORD := 0x1_0000_0000

  /** The number of tickets published in a run. */
  function Published(s: State, sched: seq<nat>): nat
    requires s.WellFormed() && Schedule(s.Size(), sched)
  {
    if sched == [] then 0
    else
      var init := sched[..|sched| - 1];
      Published(s, init) + if Run(s, init).pc[sched[|sched| - 1]].Publish? then 1 else 0
  }

  /** Every number is at most w and every ticket in the making at most w + 1. */
  predicate NumbersWithin(s: State, w: nat)
    requires s.WellFormed()
  {
    forall i :: 0 <= i < s.Size() ==>
      && s.number[i] <= w
      && (s.pc[i].Compare? || s.pc[i].Reread? ==> s.pc[i].max <= w)
      && (s.pc[i].Publish? ==> s.pc[i].ticket <= w + 1)
  }

  lemma {:induction false} NumbersCountTickets(n: nat, sched: seq<nat>)
    requires Schedule(n, sched)
    ensures NumbersWithin(Run(Initial(n), sched), Published(Initial(n), sched))
  {
    if sched != [] {
      NumbersCountTickets(n, sched[..|sched| - 1]);
      var s := Run(Initial(n), sched[..|sched| - 1]);
      assert IndexInRange(s.pc[sched[|sched| - 1]], n);
    }
  }

  /** The step as the source takes it, with the ticket computed in an unsigned int. */
  function Step32(s: State, i: nat): (t: State)
    requires s.WellFormed() && i < s.Size()
    ensures t.WellFormed() && t.Size() == s.Size()
  {
    var t := Step(s, i);
    match t.pc[i]
    case Publish(ticket) => t.(pc := t.pc[i := Publish(ticket % WORD)])
    case _ => t
  }

  function Run32(s: State, sched: seq<nat>): (t: State)
    requires s.WellFormed() && Schedule(s.Size(), sched)
    ensures t.WellFormed() && t.Size() == s.Size()
  {
    if sched == [] then s else Step32(Run32(s, sched[..|sched| - 1]), sched[|sched| - 1])
  }

  lemma Step32IsStep(s: State, w: nat, i: nat)
    requires s.WellFormed() && i < s.Size()
    requires NumbersWithin(Step(s, i), w) && w < WORD - 1
    ensures Step32(s, i) == Step(s, i)
  {
    var t := Step(s, i);
    if t.pc[i].Publish? {
      assert t.pc[i].ticket % WORD == t.pc[i].ticket;
    }
  }

  /** With 32-bit tickets nothing above changes until 2^32 - 1 tickets have been published
    * since the lock was all zero. */
  lemma {:induction false} NoWrapAround(n: nat, sched: seq<nat>)
    requires Schedule(n, sched) && Published(Initial(n), sched) < WORD - 1
    ensures Run32(Initial(n), sched) == Run(Initial(n), sched)
  {
    if sched != [] {
      var init, c := sched[..|sched| - 1], sched[|sched| - 1];
      var s := Run(Initial(n), init);
      NoWrapAround(n, init);
      NumbersCountTickets(n, sched);
      Step32IsStep(s, Published(Initial(n), sched), c);
    }
  }

  // ----- The lock in memory

  /** lamport_lock_t with the program counters of the CPUs using it. */
  class Lock {
    const entering: array<bool>
    const number: array<nat>
    const pc: array<Pc>

    ghost predicate Valid()
      reads this, entering, number, pc
    {
      && entering.Length == number.Length == pc.Length
      && Contents().WellFormed()
    }

    ghost function Contents(): State
      reads this, entering, number, pc
    {
      State(entering[..], number[..], pc[..])
    }

    constructor (n: nat)
      ensures Valid() && fresh(entering) && fresh(number) && fresh(pc)
      ensures Contents() == Initial(n)
    {
      entering := new bool[n](_ => false);
      number := new nat[n](_ => 0);
      pc := new Pc[n](_ => Idle);
    }

    /** CPU i takes one step. */
    method Advance(i: nat)
      requires Valid() && i < pc.Length
      modifies entering, number, pc
      ensures Valid()
      ensures Contents() == Step(old(Contents()), i)
    {
      var n := pc.Length;
      ghost var s := Contents();
      assert IndexInRange(s.pc[i], n);
      match pc[i] {
        case Idle =>
          entering[i] := true;
          pc[i] := Compare(0, 0);
        case Compare(j, max) =>
          pc[i] := if max < number[j] then Reread(j, max) else NextScan(n, j, max);
        case Reread(j, _) =>
          pc[i] := NextScan(n, j, number[j]);
        case Publish(ticket) =>
          number[i] := ticket;
          pc[i] := Leave;
        case Leave =>
          entering[i] := false;
          pc[i] := AwaitDoor(0);
        case AwaitDoor(j) =>
          if !entering[j] { pc[i] := AwaitZero(j); }
        case AwaitZero(j) =>
          pc[i] := if number[j] != 0 then AwaitLess(j) else NextWait(n, j);
        case AwaitLess(j) =>
          pc[i] := if number[j] < number[i] then AwaitZero(j) else AwaitEqual(j);
        case AwaitEqual(j) =>
          pc[i] := if number[j] == number[i] && j < i then AwaitZero(j) else NextWait(n, j);
        case Inside =>
          number[i] := 0;
          pc[i] := Idle;
      }
      assert Contents() == Step(s, i);
    }

    /** The CPUs take steps in the order of the schedule. */
    method Execute(sched: seq<nat>)
      requires Valid() && Schedule(pc.Length, sched)
      modifies entering, number, pc
      ensures Valid()
      ensures Contents() == Run(old(Contents()), sched)
    {
      ghost var s := Contents();
      for k := 0 to |sched|
        invariant Valid() && s.WellFormed() && s.Size() == pc.Length
        invariant Contents() == Run(s, sched[..k])
      {
        Advance(sched[k]);
        assert sched[..k + 1][..k] == sched[..k];
      }
      assert sched[..|sched|] == sched;
    }
  }
}
