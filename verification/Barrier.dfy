/** The reusable barrier bwait of lib/arch/sync.c, for sz threads that call it repeatedly.
  *
  * Every read or write of the barrier is one step; `waiting++` and the lock-protected
  * `waiting--` are a read step and a write step.  bwait_lock is a lock with an atomic
  * acquire (BakeryBarrier.dfy puts the bakery lock in its place), and the exclusives of
  * __atomic_dec make one atomic step.  A thread's next step is determined by the memory, so a
  * run is a schedule of threads.
  */
module Barrier {

  datatype Pc =
    | Outside                            // not in bwait; next: call it
    | Lock                               // LOCK on entry
    | ReadState                          // if current_state == 1
    | ReadWaiting                        // inner loop: while waiting != 0
    | InnerUnlock                        // inner loop: UNLOCK
    | InnerLock                          // inner loop: LOCK
    | ReadIteration                      // iteration++, the read
    | WriteIteration(iteration: nat)     // iteration++, the write
    | ClearState                         // current_state = 0
    | ReadCount                          // waiting++, the read
    | WriteCount(waiting: int)           // waiting++, the write
    | TestFull                           // if waiting == sz
    | SetState                           // current_state = 1
    | Unlock                             // UNLOCK
    | ReadRound                          // iter = iteration
    | AwaitState(iter: nat)              // while current_state == 0
    | Decrement(iter: nat)               // __atomic_dec(&waiting)
    | DownLock(iter: nat)                // without page tables: LOCK
    | DownRead(iter: nat)                //   waiting--, the read
    | DownWrite(iter: nat, left: int)    //   waiting--, the write
    | DownUnlock(iter: nat)              //   UNLOCK
    | TestRound(iter: nat)               // final loop: iteration == iter &&
    | TestEmpty(iter: nat)               // final loop: waiting != 0

  datatype Holder = Free | HeldBy(thread: nat)

  /** pgtable is ENABLE_PGTABLE.  The last two fields record history and no step depends on
    * them: the number of times current_state was cleared, and each thread's completed calls. */
  datatype State = State(
    pgtable: bool, iteration: nat, waiting: int, current: nat,
    holder: Holder, pc: seq<Pc>, round: nat, calls: seq<nat>)
  {
    function Size(): nat { |pc| }

    predicate WellFormed() { |calls| == |pc| }

    /** The number of calls thread i has begun. */
    function Started(i: nat): nat
      requires WellFormed() && i < Size()
    {
      calls[i] + if pc[i].Outside? then 0 else 1
    }

    function Goto(i: nat, next: Pc): State
      requires i < Size()
    {
      this.(pc := pc[i := next])
    }
  }

  /** EMPTY_BAR, with sz threads outside. */
  function Initial(sz: nat, pgtable: bool): State {
    State(pgtable, 0, 0, 0, Free, seq(sz, _ => Outside), 0, seq(sz, _ => 0))
  }

  /** One step of thread i; a thread that cannot get the lock stays where it is. */
  function Step(s: State, i: nat): (t: State)
    requires s.WellFormed() && i < s.Size()
    ensures t.WellFormed() && t.Size() == s.Size()
    ensures t.pc == s.pc[i := t.pc[i]]
  {
    match s.pc[i]
    case Outside => s.Goto(i, Lock)
    case Lock => if s.holder.Free? then s.(holder := HeldBy(i)).Goto(i, ReadState) else s
    case ReadState => s.Goto(i, if s.current == 1 then ReadWaiting else ReadCount)
    case ReadWaiting => s.Goto(i, if s.waiting != 0 then InnerUnlock else ReadIteration)
    case InnerUnlock => s.(holder := Free).Goto(i, InnerLock)
    case InnerLock => if s.holder.Free? then s.(holder := HeldBy(i)).Goto(i, ReadWaiting) else s
    case ReadIteration => s.Goto(i, WriteIteration(s.iteration + 1))
    case WriteIteration(v) => s.(iteration := v).Goto(i, ClearState)
    case ClearState => s.(current := 0, round := s.round + 1).Goto(i, ReadCount)
    case ReadCount => s.Goto(i, WriteCount(s.waiting + 1))
    case WriteCount(v) => s.(waiting := v).Goto(i, TestFull)
    case TestFull => s.Goto(i, if s.waiting == s.Size() then SetState else Unlock)
    case SetState => s.(current := 1).Goto(i, Unlock)
    case Unlock => s.(holder := Free).Goto(i, ReadRound)
    case ReadRound => s.Goto(i, AwaitState(s.iteration))
    case AwaitState(iter) =>
      if s.current == 0 then s
      else s.Goto(i, if s.pgtable then Decrement(iter) else DownLock(iter))
    case Decrement(iter) => s.(waiting := s.waiting - 1).Goto(i, TestRound(iter))
    case DownLock(iter) => if s.holder.Free? then s.(holder := HeldBy(i)).Goto(i, DownRead(iter)) else s
    case DownRead(iter) => s.Goto(i, DownWrite(iter, s.waiting - 1))
    case DownWrite(iter, v) => s.(waiting := v).Goto(i, DownUnlock(iter))
    case DownUnlock(iter) => s.(holder := Free).Goto(i, TestRound(iter))
    case TestRound(iter) => if s.iteration == iter then s.Goto(i, TestEmpty(iter)) else Return(s, i)
    case TestEmpty(iter) => if s.waiting != 0 then s.Goto(i, TestRound(iter)) else Return(s, i)
  }

  function Return(s: State, i: nat): State
    requires s.WellFormed() && i < s.Size()
  {
    s.(calls := s.calls[i := s.calls[i] + 1]).Goto(i, Outside)
  }

  predicate Schedule(n: nat, sched: seq<nat>) {
    forall k :: 0 <= k < |sched| ==> sched[k] < n
  }

  function Run(s: State, sched: seq<nat>): (t: State)
    requires s.WellFormed() && Schedule(s.Size(), sched)
    ensures t.WellFormed() && t.Size() == s.Size()
  {
    if sched == [] then s else Step(Run(s, sched[..|sched| - 1]), sched[|sched| - 1])
  }

  // ----- The invariant

  predicate NeedsLock(pc: Pc) {
    || pc.ReadState? || pc.ReadWaiting? || pc.InnerUnlock? || pc.ReadIteration? || pc.WriteIteration?
    || pc.ClearState? || pc.ReadCount? || pc.WriteCount? || pc.TestFull? || pc.SetState? || pc.Unlock?
    || pc.DownRead? || pc.DownWrite? || pc.DownUnlock?
  }

  /** The thread is included in `waiting`. */
  predicate Counted(pc: Pc) {
    || pc.TestFull? || pc.SetState? || pc.Unlock? || pc.ReadRound? || pc.AwaitState?
    || pc.Decrement? || pc.DownLock? || pc.DownRead? || pc.DownWrite?
  }

  /** Where a thread can be while the round is being filled. */
  predicate FillingInv(s: State, i: nat)
    requires s.WellFormed() && i < s.Size()
  {
    var r := s.round;
    match s.pc[i]
    case Outside => s.calls[i] == r
    case Lock => s.calls[i] == r
    case ReadState => s.calls[i] == r
    case ReadCount => s.calls[i] == r
    case WriteCount(v) => s.calls[i] == r && v == s.waiting + 1
    case TestFull => s.calls[i] == r
    case SetState => s.calls[i] == r && s.waiting == s.Size()
    case Unlock => s.calls[i] == r
    case ReadRound => s.calls[i] == r
    case AwaitState(iter) => s.calls[i] == r == iter
    case TestRound(iter) => s.calls[i] == r - 1 == iter
    case TestEmpty(iter) => s.calls[i] == r - 1 == iter
    case _ => false
  }

  /** Where a thread can be while the round is being drained. */
  predicate DrainingInv(s: State, i: nat)
    requires s.WellFormed() && i < s.Size()
  {
    var r := s.round;
    match s.pc[i]
    case Unlock => s.calls[i] == r
    case ReadRound => s.calls[i] == r
    case AwaitState(iter) => s.calls[i] == r == iter
    case Decrement(iter) => s.calls[i] == r == iter
    case DownLock(iter) => s.calls[i] == r == iter
    case DownRead(iter) => s.calls[i] == r == iter
    case DownWrite(iter, v) => s.calls[i] == r == iter && v == s.waiting - 1
    case DownUnlock(iter) => s.calls[i] == r == iter
    case TestRound(iter) => s.calls[i] == r == iter
    case TestEmpty(iter) => s.calls[i] == r == iter
    // the threads already in the next round, all of which found the barrier empty
    case Outside => s.calls[i] == r + 1 && s.waiting == 0
    case Lock => s.calls[i] == r + 1 && s.waiting == 0
    case ReadState => s.calls[i] == r + 1 && s.waiting == 0
    case ReadWaiting => s.calls[i] == r + 1 && s.waiting == 0
    case ReadIteration => s.calls[i] == r + 1 && s.waiting == 0
    case WriteIteration(v) => s.calls[i] == r + 1 == v && s.waiting == 0
    case ClearState => s.calls[i] == r + 1 == s.iteration && s.waiting == 0
    case _ => false
  }

  predicate LockInv(s: State, i: nat)
    requires s.WellFormed() && i < s.Size()
  {
    && (NeedsLock(s.pc[i]) <==> s.holder == HeldBy(i))
    && (s.pc[i].Decrement? ==> s.pgtable)
    && (s.pc[i].DownLock? || s.pc[i].DownRead? || s.pc[i].DownWrite? || s.pc[i].DownUnlock? ==> !s.pgtable)
  }

  predicate ThreadInv(s: State, i: nat)
    requires s.WellFormed() && i < s.Size()
  {
    && LockInv(s, i)
    && if s.current == 0 then FillingInv(s, i) else DrainingInv(s, i)
  }

  function CountedSet(pc: seq<Pc>): set<nat> {
    set i: nat | i < |pc| && Counted(pc[i])
  }

  /** A full barrier is about to be opened by the thread that filled it. */
  predicate FullInv(s: State) {
    s.current == 0 && s.waiting == s.Size() ==>
      s.holder.HeldBy? && s.holder.thread < s.Size()
      && (s.pc[s.holder.thread].TestFull? || s.pc[s.holder.thread].SetState?)
  }

  /** `iteration` is the round, except that the thread opening the next round increments it
    * just before clearing the state. */
  predicate IterationInv(s: State) {
    || s.iteration == s.round
    || (s.iteration == s.round + 1 && s.current == 1 && s.holder.HeldBy?
        && s.holder.thread < s.Size() && s.pc[s.holder.thread].ClearState?)
  }

  predicate Inv(s: State) {
    && s.WellFormed()
    && 0 < s.Size()
    && s.current <= 1
    && (s.holder.HeldBy? ==> s.holder.thread < s.Size())
    && (forall i: nat :: i < s.Size() ==> ThreadInv(s, i))
    && s.waiting == |CountedSet(s.pc)|
    && FullInv(s)
    && IterationInv(s)
  }

  lemma {:induction false} BoundedSize(a: set<nat>, n: nat)
    requires forall x :: x in a ==> x < n
    ensures |a| <= n
  {
    if n > 0 {
      BoundedSize(a - {n - 1}, n - 1);
    }
  }

  /** When waiting == sz, every thread is counted. */
  lemma FullMeansAll(pc: seq<Pc>, i: nat)
    requires |CountedSet(pc)| == |pc| && i < |pc|
    ensures Counted(pc[i])
  {
    if i !in CountedSet(pc) {
      BoundedSize(CountedSet(pc) + {i}, |pc|);
    }
  }

  lemma CountedUpdate(pc: seq<Pc>, c: nat, next: Pc)
    requires c < |pc|
    ensures |CountedSet(pc[c := next])| - |CountedSet(pc)| == Units(next) - Units(pc[c])
  {
    var others := CountedSet(pc) - {c};
    var after := CountedSet(pc[c := next]);
    assert after - {c} == others by {
      forall x: nat ensures x in after - {c} <==> x in others {
        if x < |pc| && x != c { assert pc[c := next][x] == pc[x]; }
      }
    }
    assert Counted(next) ==> after == others + {c};
    assert !Counted(next) ==> after == others;
    assert Counted(pc[c]) ==> CountedSet(pc) == others + {c};
  }

  function Units(pc: Pc): nat {
    if Counted(pc) then 1 else 0
  }

  lemma WaitingStep(s: State, c: nat)
    requires Inv(s) && c < s.Size()
    ensures Step(s, c).waiting - s.waiting == Units(Step(s, c).pc[c]) - Units(s.pc[c])
  {
    assert ThreadInv(s, c);
  }

  lemma CountedAfter(s: State, c: nat)
    requires Inv(s) && c < s.Size()
    ensures Step(s, c).waiting == |CountedSet(Step(s, c).pc)|
  {
    WaitingStep(s, c);
    CountedUpdate(s.pc, c, Step(s, c).pc[c]);
  }

  /** A thread about to decrement finds waiting positive, so the unsigned counter never
    * passes below zero. */
  lemma CountedPositive(s: State, c: nat)
    requires Inv(s) && c < s.Size() && Counted(s.pc[c])
    ensures 0 < s.waiting
  {
    assert c in CountedSet(s.pc);
  }

  lemma HolderNeedsLock(s: State, i: nat)
    requires Inv(s) && i < s.Size()
    ensures NeedsLock(s.pc[i]) <==> s.holder == HeldBy(i)
  {
    assert ThreadInv(s, i);
  }

  /** What the steps of thread c rely on. */
  predicate StepPre(s: State, c: nat)
    requires s.WellFormed() && c < s.Size()
  {
    && ThreadInv(s, c)
    && s.current <= 1
    && (Counted(s.pc[c]) ==> 0 < s.waiting)
    && (s.current == 0 && s.waiting == s.Size() ==> s.pc[c].TestFull? || s.pc[c].SetState? || !NeedsLock(s.pc[c]))
    && (s.iteration == s.round || (s.iteration == s.round + 1 && s.current == 1 && s.waiting == 0))
    && (NeedsLock(s.pc[c]) && !s.pc[c].ClearState? ==> s.iteration == s.round)
  }

  lemma StepPreHolds(s: State, c: nat)
    requires Inv(s) && c < s.Size()
    ensures StepPre(s, c)
  {
    assert ThreadInv(s, c);
    if s.holder.HeldBy? {
      assert ThreadInv(s, s.holder.thread);
    }
    if Counted(s.pc[c]) {
      CountedPositive(s, c);
    }
  }

  lemma OwnInvPersists(s: State, c: nat)
    requires s.WellFormed() && c < s.Size() && StepPre(s, c)
    ensures ThreadInv(Step(s, c), c)
  {
    OwnLockInv(s, c);
    OwnPlace(s, c);
  }

  lemma OwnLockInv(s: State, c: nat)
    requires s.WellFormed() && c < s.Size() && LockInv(s, c)
    ensures LockInv(Step(s, c), c)
  {
  }

  lemma OwnPlace(s: State, c: nat)
    requires s.WellFormed() && c < s.Size() && StepPre(s, c)
    ensures if Step(s, c).current == 0 then FillingInv(Step(s, c), c) else DrainingInv(Step(s, c), c)
  {
    if s.current == 0 {
      OwnPlaceFilling(s, c);
    } else if NeedsLock(s.pc[c]) {
      OwnPlaceDrainingLocked(s, c);
    } else {
      OwnPlaceDraining(s, c);
    }
  }

  lemma OwnPlaceFilling(s: State, c: nat)
    requires s.WellFormed() && c < s.Size() && StepPre(s, c) && s.current == 0
    ensures if Step(s, c).current == 0 then FillingInv(Step(s, c), c) else DrainingInv(Step(s, c), c)
  {
  }

  lemma OwnPlaceDrainingLocked(s: State, c: nat)
    requires s.WellFormed() && c < s.Size() && StepPre(s, c) && s.current == 1 && NeedsLock(s.pc[c])
    ensures if Step(s, c).current == 0 then FillingInv(Step(s, c), c) else DrainingInv(Step(s, c), c)
  {
  }

  lemma OwnPlaceDraining(s: State, c: nat)
    requires s.WellFormed() && c < s.Size() && StepPre(s, c) && s.current == 1 && !NeedsLock(s.pc[c])
    ensures if Step(s, c).current == 0 then FillingInv(Step(s, c), c) else DrainingInv(Step(s, c), c)
  {
  }

  lemma OtherInvPersists(s: State, c: nat, i: nat)
    requires s.WellFormed() && c < s.Size() && i < s.Size() && c != i
    requires StepPre(s, c) && StepPre(s, i)
    requires s.pc[c].SetState? ==> Counted(s.pc[i])
    ensures ThreadInv(Step(s, c), i)
  {
    OtherLockInv(s, c, i);
    OtherPlace(s, c, i);
  }

  lemma OtherLockInv(s: State, c: nat, i: nat)
    requires s.WellFormed() && c < s.Size() && i < s.Size() && c != i
    requires LockInv(s, c) && LockInv(s, i)
    ensures LockInv(Step(s, c), i)
  {
  }

  lemma OtherPlace(s: State, c: nat, i: nat)
    requires s.WellFormed() && c < s.Size() && i < s.Size() && c != i
    requires StepPre(s, c) && StepPre(s, i)
    requires s.pc[c].SetState? ==> Counted(s.pc[i])
    ensures if Step(s, c).current == 0 then FillingInv(Step(s, c), i) else DrainingInv(Step(s, c), i)
  {
    if s.current == 0 {
      OtherPlaceFilling(s, c, i);
    } else {
      OtherPlaceDraining(s, c, i);
    }
  }

  lemma OtherPlaceFilling(s: State, c: nat, i: nat)
    requires s.WellFormed() && c < s.Size() && i < s.Size() && c != i && s.current == 0
    requires StepPre(s, c) && StepPre(s, i)
    requires s.pc[c].SetState? ==> Counted(s.pc[i])
    ensures if Step(s, c).current == 0 then FillingInv(Step(s, c), i) else DrainingInv(Step(s, c), i)
  {
  }

  lemma OtherPlaceDraining(s: State, c: nat, i: nat)
    requires s.WellFormed() && c < s.Size() && i < s.Size() && c != i && s.current == 1
    requires StepPre(s, c) && StepPre(s, i)
    ensures if Step(s, c).current == 0 then FillingInv(Step(s, c), i) else DrainingInv(Step(s, c), i)
  {
  }

  lemma ThreadInvPersists(s: State, c: nat, i: nat)
    requires Inv(s) && c < s.Size() && i < s.Size()
    ensures ThreadInv(Step(s, c), i)
  {
    StepPreHolds(s, c);
    if i == c {
      OwnInvPersists(s, c);
    } else {
      StepPreHolds(s, i);
      if s.pc[c].SetState? {
        FullMeansAll(s.pc, i);
      }
      OtherInvPersists(s, c, i);
    }
  }

  lemma FullInvPersists(s: State, c: nat)
    requires Inv(s) && c < s.Size()
    ensures FullInv(Step(s, c)) && IterationInv(Step(s, c))
  {
    assert ThreadInv(s, c);
    if s.holder.HeldBy? {
      assert ThreadInv(s, s.holder.thread);
    }
  }

  lemma StepKeepsInv(s: State, c: nat)
    requires Inv(s) && c < s.Size()
    ensures Inv(Step(s, c))
  {
    var t := Step(s, c);
    forall i: nat | i < t.Size() ensures ThreadInv(t, i) { ThreadInvPersists(s, c, i); }
    CountedAfter(s, c);
    FullInvPersists(s, c);
    StepPreHolds(s, c);
    assert t.current <= 1 && (t.holder.HeldBy? ==> t.holder.thread < t.Size());
  }

  lemma {:induction false} RunKeepsInv(s: State, sched: seq<nat>)
    requires Inv(s) && Schedule(s.Size(), sched)
    ensures Inv(Run(s, sched))
  {
    if sched != [] {
      RunKeepsInv(s, sched[..|sched| - 1]);
      StepKeepsInv(Run(s, sched[..|sched| - 1]), sched[|sched| - 1]);
    }
  }

  lemma InitialInv(sz: nat, pgtable: bool)
    requires 0 < sz
    ensures Inv(Initial(sz, pgtable))
  {
    assert CountedSet(Initial(sz, pgtable).pc) == {};
  }

  /** The state after a run of sz threads from an empty barrier. */
  function Reached(sz: nat, pgtable: bool, sched: seq<nat>): State
    requires Schedule(sz, sched)
  {
    Run(Initial(sz, pgtable), sched)
  }

  /** The barrier holds threads back: nobody has returned from more calls than every thread has
    * begun, so nobody returns from its r-th call before all sz threads have begun theirs. */
  lemma NoEarlyReturn(sz: nat, pgtable: bool, sched: seq<nat>, i: nat, j: nat)
    requires Schedule(sz, sched) && i < sz && j < sz
    ensures Reached(sz, pgtable, sched).calls[i] <= Reached(sz, pgtable, sched).Started(j)
  {
    InitialInv(sz, pgtable);
    RunKeepsInv(Initial(sz, pgtable), sched);
    var s := Reached(sz, pgtable, sched);
    assert ThreadInv(s, i) && ThreadInv(s, j);
  }

  /** No thread runs more than one round ahead of another. */
  lemma OneRoundAhead(sz: nat, pgtable: bool, sched: seq<nat>, i: nat, j: nat)
    requires Schedule(sz, sched) && i < sz && j < sz
    ensures Reached(sz, pgtable, sched).Started(i) <= Reached(sz, pgtable, sched).Started(j) + 1
  {
    InitialInv(sz, pgtable);
    RunKeepsInv(Initial(sz, pgtable), sched);
    var s := Reached(sz, pgtable, sched);
    assert ThreadInv(s, i) && ThreadInv(s, j);
  }

  /** With exactly sz participants the loop of lines 178-185 never goes round: a thread that
    * tests waiting there finds it zero. */
  lemma InnerWaitNeverSpins(sz: nat, pgtable: bool, sched: seq<nat>, i: nat)
    requires Schedule(sz, sched) && i < sz
    ensures !Reached(sz, pgtable, sched).pc[i].InnerUnlock? && !Reached(sz, pgtable, sched).pc[i].InnerLock?
    ensures Reached(sz, pgtable, sched).pc[i].ReadWaiting? ==> Reached(sz, pgtable, sched).waiting == 0
  {
    InitialInv(sz, pgtable);
    RunKeepsInv(Initial(sz, pgtable), sched);
    assert ThreadInv(Reached(sz, pgtable, sched), i);
  }

  /** The unsynchronised updates of `waiting` lose nothing: it always counts the threads that
    * have been counted in and not yet out, although __atomic_dec does not take the lock, and it
    * is positive whenever a thread is about to decrement it. */
  lemma WaitingCounts(sz: nat, pgtable: bool, sched: seq<nat>, i: nat)
    requires Schedule(sz, sched) && i < sz
    ensures Reached(sz, pgtable, sched).waiting == |CountedSet(Reached(sz, pgtable, sched).pc)|
    ensures Counted(Reached(sz, pgtable, sched).pc[i]) ==> 0 < Reached(sz, pgtable, sched).waiting
  {
    InitialInv(sz, pgtable);
    RunKeepsInv(Initial(sz, pgtable), sched);
    if Counted(Reached(sz, pgtable, sched).pc[i]) {
      CountedPositive(Reached(sz, pgtable, sched), i);
    }
  }

  // ----- No deadlock

  lemma {:induction false} RunAppend(s: State, a: seq<nat>, b: seq<nat>)
    requires s.WellFormed() && Schedule(s.Size(), a) && Schedule(s.Size(), b)
    ensures Schedule(s.Size(), a + b) && Run(s, a + b) == Run(Run(s, a), b)
  {
    if b == [] {
      assert a + b == a;
    } else {
      var init := b[..|b| - 1];
      RunAppend(s, a, init);
      assert (a + b)[..|a + b| - 1] == a + init;
    }
  }

  lemma StepThenRun(s: State, c: nat, rest: seq<nat>)
    requires s.WellFormed() && c < s.Size() && Schedule(s.Size(), rest)
    ensures Schedule(s.Size(), [c] + rest) && Run(s, [c] + rest) == Run(Step(s, c), rest)
  {
    assert [c][..0] == [] && Run(s, [c]) == Step(s, c);
    RunAppend(s, [c], rest);
  }

  /** A bound on the steps a thread takes before it reaches the final loop; a thread that is
    * outside takes them only if it has calls left to make. */
  function Work(pc: Pc, callsLeft: bool): nat {
    match pc
    case Outside => if callsLeft then 20 else 0
    case Lock => 19
    case ReadState => 18
    case ReadWaiting => 17
    case ReadIteration => 16
    case WriteIteration(_) => 15
    case ClearState => 14
    case ReadCount => 13
    case WriteCount(_) => 12
    case TestFull => 11
    case SetState => 10
    case Unlock => 9
    case ReadRound => 8
    case AwaitState(_) => 7
    case Decrement(_) => 5
    case DownLock(_) => 4
    case DownRead(_) => 3
    case DownWrite(_, _) => 2
    case DownUnlock(_) => 1
    case _ => 0
  }

  /** The work left for the threads below k when everybody is to complete `target` calls. */
  function WorkBelow(s: State, target: nat, k: nat): nat
    requires s.WellFormed() && k <= s.Size()
  {
    if k == 0 then 0 else WorkBelow(s, target, k - 1) + Work(s.pc[k - 1], s.calls[k - 1] < target)
  }

  predicate WithinTarget(s: State, target: nat)
    requires s.WellFormed()
  {
    forall i :: 0 <= i < s.Size() ==> s.Started(i) <= target
  }

  /** The thread's next step brings it nearer to the final loop. */
  predicate Moves(s: State, target: nat, c: nat)
    requires s.WellFormed() && c < s.Size()
  {
    && Work(Step(s, c).pc[c], s.calls[c] < target) < Work(s.pc[c], s.calls[c] < target)
    && Step(s, c).calls == s.calls
  }

  /** The thread is in the final loop and nothing keeps it there. */
  predicate Leaves(s: State, c: nat)
    requires c < s.Size()
  {
    (s.pc[c].TestRound? || s.pc[c].TestEmpty?) && (s.iteration != s.pc[c].iter || s.waiting == 0)
  }

  lemma {:induction false} WorkDrops(s: State, target: nat, c: nat, k: nat)
    requires s.WellFormed() && c < s.Size() && k <= s.Size() && Moves(s, target, c)
    ensures WorkBelow(Step(s, c), target, k) <= WorkBelow(s, target, k)
    ensures c < k ==> WorkBelow(Step(s, c), target, k) < WorkBelow(s, target, k)
  {
    if k > 0 {
      WorkDrops(s, target, c, k - 1);
      assert k - 1 != c ==> Step(s, c).pc[k - 1] == s.pc[k - 1];
    }
  }

  lemma HolderMoves(s: State, target: nat, c: nat)
    requires Inv(s) && c < s.Size() && s.holder == HeldBy(c)
    ensures Moves(s, target, c)
  {
    assert ThreadInv(s, c);
  }

  /** With the lock free, a thread with calls to complete moves, leaves, waits for the round to
    * fill, or waits in the final loop for it to drain. */
  lemma WaitingThread(s: State, target: nat, i: nat)
    requires Inv(s) && i < s.Size() && s.holder.Free? && s.calls[i] < target
    ensures || Moves(s, target, i)
            || Leaves(s, i)
            || (s.current == 0 && s.pc[i].AwaitState? && s.calls[i] == s.round)
            || (s.current == 1 && 0 < s.waiting)
  {
    assert ThreadInv(s, i);
  }

  /** With the lock free, a thread not yet counted into a filling round moves or leaves. */
  lemma LateComer(s: State, target: nat, c: nat)
    requires Inv(s) && c < s.Size() && s.holder.Free?
    requires s.current == 0 && !Counted(s.pc[c]) && s.round < target
    ensures Moves(s, target, c) || Leaves(s, c)
  {
    assert ThreadInv(s, c);
  }

  /** With the lock free, a thread not yet counted out of a draining round moves. */
  lemma DrainingThread(s: State, target: nat, c: nat)
    requires Inv(s) && c < s.Size() && s.holder.Free?
    requires s.current == 1 && Counted(s.pc[c])
    ensures Moves(s, target, c)
  {
    assert ThreadInv(s, c);
  }

  lemma {:induction false} CountedAll(pc: seq<Pc>, k: nat)
    requires k <= |pc| && forall c: nat :: c < |pc| ==> Counted(pc[c])
    ensures |CountedSet(pc[..k])| == k
  {
    if k > 0 {
      CountedAll(pc, k - 1);
      assert CountedSet(pc[..k]) == CountedSet(pc[..k - 1]) + {k - 1};
    } else {
      assert CountedSet(pc[..k]) == {};
    }
  }

  lemma SomeoneUncounted(pc: seq<Pc>)
    ensures |CountedSet(pc)| == |pc| || exists c: nat :: c < |pc| && !Counted(pc[c])
  {
    if forall c: nat :: c < |pc| ==> Counted(pc[c]) {
      CountedAll(pc, |pc|);
      assert pc[..|pc|] == pc;
    }
  }

  /** While some thread has calls to complete, some thread moves or leaves. */
  lemma SomeoneMoves(s: State, target: nat) returns (c: nat)
    requires Inv(s)
    requires exists i :: 0 <= i < s.Size() && s.calls[i] < target
    ensures c < s.Size() && (Moves(s, target, c) || Leaves(s, c))
  {
    var i :| 0 <= i < s.Size() && s.calls[i] < target;
    if s.holder.HeldBy? {
      c := s.holder.thread;
      HolderMoves(s, target, c);
    } else {
      WaitingThread(s, target, i);
      if Moves(s, target, i) || Leaves(s, i) {
        c := i;
      } else if s.current == 0 {
        // the round is not full, or its last thread would still hold the lock
        assert FullInv(s);
        SomeoneUncounted(s.pc);
        c :| c < s.Size() && !Counted(s.pc[c]);
        LateComer(s, target, c);
      } else {
        assert CountedSet(s.pc) != {};
        c :| c in CountedSet(s.pc);
        DrainingThread(s, target, c);
      }
    }
  }

  /** A thread that nothing keeps in the final loop returns within two steps. */
  lemma LeavesInTwo(s: State, c: nat)
    requires s.WellFormed() && c < s.Size() && Leaves(s, c)
    ensures var t := Step(s, c);
      if t.pc[c].Outside? then t == Return(s, c)
      else (t.pc[c].TestRound? || t.pc[c].TestEmpty?) && Step(t, c) == Return(s, c)
  {
    var t := Step(s, c);
    assert t.pc[c := Outside] == s.pc[c := Outside];
  }

  /** Run alone, a thread that nothing keeps in the final loop returns. */
  lemma LeavesSoon(s: State, c: nat) returns (sched: seq<nat>)
    requires s.WellFormed() && c < s.Size() && Leaves(s, c)
    ensures Schedule(s.Size(), sched)
    ensures Run(s, sched) == Return(s, c)
  {
    var t := Step(s, c);
    LeavesInTwo(s, c);
    if t.pc[c].Outside? {
      StepThenRun(s, c, []);
      sched := [c] + [];
    } else {
      StepThenRun(t, c, []);
      StepThenRun(s, c, [c] + []);
      sched := [c] + ([c] + []);
    }
  }

  lemma MovesWithinTarget(s: State, target: nat, m: nat)
    requires s.WellFormed() && m < s.Size() && WithinTarget(s, target) && Moves(s, target, m)
    ensures WithinTarget(Step(s, m), target)
  {
    var t := Step(s, m);
    forall i | 0 <= i < t.Size() ensures t.Started(i) <= target {
      assert s.Started(i) <= target;
      assert i != m ==> t.pc[i] == s.pc[i];
    }
  }

  lemma ReturnWithinTarget(s: State, target: nat, m: nat)
    requires s.WellFormed() && m < s.Size() && WithinTarget(s, target) && !s.pc[m].Outside?
    ensures WithinTarget(Return(s, m), target)
  {
    forall i | 0 <= i < s.Size() ensures Return(s, m).Started(i) <= target {
      assert s.Started(i) <= target;
    }
  }

  /** As long as somebody has calls to complete, some schedule makes somebody return. */
  lemma {:induction false} SomeoneReturns(s: State, target: nat) returns (sched: seq<nat>, c: nat)
    requires Inv(s) && WithinTarget(s, target)
    requires exists i :: 0 <= i < s.Size() && s.calls[i] < target
    ensures Schedule(s.Size(), sched)
    ensures Inv(Run(s, sched)) && WithinTarget(Run(s, sched), target)
    ensures c < s.Size() && Run(s, sched).calls == s.calls[c := s.calls[c] + 1]
    decreases WorkBelow(s, target, s.Size())
  {
    var m := SomeoneMoves(s, target);
    if Leaves(s, m) {
      c := m;
      sched := LeavesSoon(s, m);
      RunKeepsInv(s, sched);
      ReturnWithinTarget(s, target, m);
    } else {
      var t := Step(s, m);
      WorkDrops(s, target, m, s.Size());
      StepKeepsInv(s, m);
      MovesWithinTarget(s, target, m);
      var rest;
      rest, c := SomeoneReturns(t, target);
      StepThenRun(s, m, rest);
      sched := [m] + rest;
    }
  }

  function CallsLeft(calls: seq<nat>, target: nat): nat {
    if calls == [] then 0
    else CallsLeft(calls[..|calls| - 1], target) +
         if calls[|calls| - 1] < target then target - calls[|calls| - 1] else 0
  }

  lemma {:induction false} CallsLeftDrops(calls: seq<nat>, target: nat, c: nat)
    requires c < |calls| && calls[c] < target
    ensures CallsLeft(calls[c := calls[c] + 1], target) < CallsLeft(calls, target)
  {
    var after, k := calls[c := calls[c] + 1], |calls| - 1;
    if c == k {
      assert after[..k] == calls[..k];
    } else {
      assert after[..k] == calls[..k][c := calls[c] + 1];
      CallsLeftDrops(calls[..k], target, c);
    }
  }

  lemma {:induction false} AllReturn(s: State, target: nat) returns (sched: seq<nat>)
    requires Inv(s) && WithinTarget(s, target)
    ensures Schedule(s.Size(), sched)
    ensures forall i :: 0 <= i < s.Size() ==> Run(s, sched).pc[i].Outside? && Run(s, sched).calls[i] == target
    decreases CallsLeft(s.calls, target)
  {
    if exists i :: 0 <= i < s.Size() && s.calls[i] < target {
      var first, c := SomeoneReturns(s, target);
      assert Run(s, first).Started(c) <= target;
      CallsLeftDrops(s.calls, target, c);
      var rest := AllReturn(Run(s, first), target);
      RunAppend(s, first, rest);
      sched := first + rest;
    } else {
      sched := [];
      forall i | 0 <= i < s.Size() ensures s.pc[i].Outside? && s.calls[i] == target {
        assert s.Started(i) <= target && !(s.calls[i] < target);
      }
    }
  }

  /** The barrier never deadlocks: from every reachable state, and for every number of calls no
    * smaller than what has been begun, the threads can go on so that each completes exactly
    * that many calls. */
  lemma NeverDeadlocks(sz: nat, pgtable: bool, before: seq<nat>, target: nat) returns (after: seq<nat>)
    requires 0 < sz && Schedule(sz, before)
    requires WithinTarget(Reached(sz, pgtable, before), target)
    ensures Schedule(sz, after)
    ensures forall i :: 0 <= i < sz ==>
      var t := Run(Reached(sz, pgtable, before), after); t.pc[i].Outside? && t.calls[i] == target
  {
    InitialInv(sz, pgtable);
    RunKeepsInv(Initial(sz, pgtable), before);
    after := AllReturn(Reached(sz, pgtable, before), target);
  }

  // ----- Calls that nobody interferes with

  /** Thread i takes n steps, and the others take none. */
  function Alone(s: State, i: nat, n: nat): (t: State)
    requires s.WellFormed() && i < s.Size()
    ensures t.WellFormed() && t.Size() == s.Size()
  {
    Run(s, seq(n, _ => i))
  }

  /** After n steps the thread is about to make the access at pc, in the state t but for its own pc. */
  predicate IsAt(s: State, i: nat, n: nat, t: State, pc: Pc) {
    && s.WellFormed() && i < s.Size() && t.WellFormed() && t.pc == s.pc
    && Alone(s, i, n) == t.Goto(i, pc)
  }

  /** The access at pc turns t into u and leads to next. */
  predicate Access(t: State, i: nat, pc: Pc, u: State, next: Pc) {
    && t.WellFormed() && i < t.Size() && u.pc == t.pc
    && Step(t.Goto(i, pc), i) == u.(pc := t.pc[i := pc][i := next])
  }

  lemma AloneNext(s: State, i: nat, n: nat)
    requires s.WellFormed() && i < s.Size()
    ensures Alone(s, i, 0) == s && Alone(s, i, n + 1) == Step(Alone(s, i, n), i)
  {
    var sched := seq(n + 1, _ => i);
    assert sched[..n] == seq(n, _ => i);
  }

  lemma Then(s: State, i: nat, n: nat, t: State, pc: Pc, u: State, next: Pc)
    requires IsAt(s, i, n, t, pc) && Access(t, i, pc, u, next)
    ensures IsAt(s, i, n + 1, u, next)
  {
    AloneNext(s, i, n);
    assert s.pc[i := pc][i := next] == s.pc[i := next];
  }

  lemma TakesLock(s: State, i: nat)
    requires s.WellFormed() && i < s.Size() && s.pc[i].Outside? && s.holder.Free?
    ensures IsAt(s, i, 2, s.(holder := HeldBy(i)), ReadState)
  {
    AloneNext(s, i, 0);
    assert IsAt(s, i, 1, s, Lock);
    Then(s, i, 1, s, Lock, s.(holder := HeldBy(i)), ReadState);
  }

  lemma CountsIn(s: State, i: nat, n: nat, t: State)
    requires IsAt(s, i, n, t, ReadCount)
    ensures var u := t.(waiting := t.waiting + 1);
      && IsAt(s, i, n + 1, t, WriteCount(u.waiting)) && IsAt(s, i, n + 2, u, TestFull)
      && IsAt(s, i, n + 3, u, if u.waiting == s.Size() then SetState else Unlock)
  {
    var u := t.(waiting := t.waiting + 1);
    Then(s, i, n, t, ReadCount, t, WriteCount(u.waiting));
    Then(s, i, n + 1, t, WriteCount(u.waiting), u, TestFull);
    Then(s, i, n + 2, u, TestFull, u, if u.waiting == s.Size() then SetState else Unlock);
  }

  lemma LetsGo(s: State, i: nat, n: nat, t: State)
    requires IsAt(s, i, n, t, Unlock)
    ensures var u := t.(holder := Free); IsAt(s, i, n + 1, u, ReadRound) && IsAt(s, i, n + 2, u, AwaitState(t.iteration))
  {
    var u := t.(holder := Free);
    Then(s, i, n, t, Unlock, u, ReadRound);
    Then(s, i, n + 1, u, ReadRound, u, AwaitState(t.iteration));
  }

  lemma BeginsToCount(s: State, i: nat)
    requires s.WellFormed() && i < s.Size() && s.pc[i].Outside? && s.holder.Free? && s.current == 0
    ensures IsAt(s, i, 3, s.(holder := HeldBy(i)), ReadCount)
  {
    TakesLock(s, i);
    Then(s, i, 2, s.(holder := HeldBy(i)), ReadState, s.(holder := HeldBy(i)), ReadCount);
  }

  /** A thread that arrives while the round is being filled counts itself in under the lock, and reads
    * the iteration once it has let go of the lock. */
  lemma Arrival(s: State, i: nat)
    requires s.WellFormed() && i < s.Size() && s.pc[i].Outside? && s.holder.Free? && s.current == 0
    requires s.waiting + 1 != s.Size()
    ensures var t := s.(holder := HeldBy(i));
      && IsAt(s, i, 4, t, WriteCount(s.waiting + 1)) && IsAt(s, i, 6, t.(waiting := s.waiting + 1), Unlock)
      && IsAt(s, i, 7, s.(waiting := s.waiting + 1), ReadRound)
      && IsAt(s, i, 8, s.(waiting := s.waiting + 1), AwaitState(s.iteration))
  {
    var t := s.(holder := HeldBy(i));
    BeginsToCount(s, i);
    CountsIn(s, i, 3, t);
    LetsGo(s, i, 6, t.(waiting := s.waiting + 1));
  }

  /** The last to arrive also opens the barrier, before it lets go of the lock. */
  lemma LastArrival(s: State, i: nat)
    requires s.WellFormed() && i < s.Size() && s.pc[i].Outside? && s.holder.Free? && s.current == 0
    requires s.waiting + 1 == s.Size()
    ensures var t := s.(holder := HeldBy(i), waiting := s.waiting + 1);
      && IsAt(s, i, 6, t, SetState) && IsAt(s, i, 7, t.(current := 1), Unlock)
      && IsAt(s, i, 8, t.(current := 1, holder := Free), ReadRound)
      && IsAt(s, i, 9, t.(current := 1, holder := Free), AwaitState(s.iteration))
  {
    var t := s.(holder := HeldBy(i), waiting := s.waiting + 1);
    BeginsToCount(s, i);
    CountsIn(s, i, 3, s.(holder := HeldBy(i)));
    Then(s, i, 6, t, SetState, t.(current := 1), Unlock);
    LetsGo(s, i, 7, t.(current := 1));
  }

  /** A thread that arrives when the last round has been drained begins a new one under the lock: the
    * iteration goes up first, and then the barrier is closed. */
  lemma Reopening(s: State, i: nat)
    requires s.WellFormed() && i < s.Size() && s.pc[i].Outside? && s.holder.Free? && s.current == 1 && s.waiting == 0
    ensures var u := s.(holder := HeldBy(i), iteration := s.iteration + 1);
      IsAt(s, i, 6, u, ClearState) && IsAt(s, i, 7, u.(current := 0, round := s.round + 1), ReadCount)
  {
    var t := s.(holder := HeldBy(i));
    TakesLock(s, i);
    Then(s, i, 2, t, ReadState, t, ReadWaiting);
    Then(s, i, 3, t, ReadWaiting, t, ReadIteration);
    Reopens(s, i, t);
  }

  lemma Reopens(s: State, i: nat, t: State)
    requires IsAt(s, i, 4, t, ReadIteration)
    ensures var u := t.(iteration := t.iteration + 1);
      IsAt(s, i, 6, u, ClearState) && IsAt(s, i, 7, u.(current := 0, round := t.round + 1), ReadCount)
  {
    var u := t.(iteration := t.iteration + 1);
    Then(s, i, 4, t, ReadIteration, t, WriteIteration(u.iteration));
    Then(s, i, 5, t, WriteIteration(u.iteration), u, ClearState);
    Then(s, i, 6, u, ClearState, u.(current := 0, round := t.round + 1), ReadCount);
  }

  /** While the last round is not drained, the thread hands out the lock and takes it again. */
  lemma InnerWait(s: State, i: nat)
    requires s.WellFormed() && i < s.Size() && s.pc[i].ReadWaiting? && s.holder == HeldBy(i) && s.waiting != 0
    ensures IsAt(s, i, 2, s.(holder := Free), InnerLock) && Alone(s, i, 3) == s
  {
    AloneNext(s, i, 0);
    assert IsAt(s, i, 1, s, InnerUnlock) by { AloneNext(s, i, 0); }
    Then(s, i, 1, s, InnerUnlock, s.(holder := Free), InnerLock);
    Then(s, i, 2, s.(holder := Free), InnerLock, s, ReadWaiting);
    assert s.pc[i := ReadWaiting] == s.pc;
  }

  /** Once the barrier is open a thread counts itself out: with page tables in one access. */
  lemma Departure(s: State, i: nat, iter: nat)
    requires s.WellFormed() && i < s.Size() && s.pc[i] == AwaitState(iter) && s.current != 0 && s.pgtable
    ensures IsAt(s, i, 1, s, Decrement(iter)) && IsAt(s, i, 2, s.(waiting := s.waiting - 1), TestRound(iter))
  {
    AloneNext(s, i, 0);
    Then(s, i, 1, s, Decrement(iter), s.(waiting := s.waiting - 1), TestRound(iter));
  }

  /** Without page tables it does so in a read and a write, under the lock. */
  lemma LockedDeparture(s: State, i: nat, iter: nat)
    requires s.WellFormed() && i < s.Size() && s.pc[i] == AwaitState(iter) && s.current != 0 && !s.pgtable
    requires s.holder.Free?
    ensures var t := s.(holder := HeldBy(i));
      && IsAt(s, i, 2, t, DownRead(iter)) && IsAt(s, i, 3, t, DownWrite(iter, s.waiting - 1))
      && IsAt(s, i, 4, t.(waiting := s.waiting - 1), DownUnlock(iter))
      && IsAt(s, i, 5, s.(waiting := s.waiting - 1), TestRound(iter))
  {
    AloneNext(s, i, 0);
    Then(s, i, 1, s, DownLock(iter), s.(holder := HeldBy(i)), DownRead(iter));
    CountsOut(s, i, iter, s.(holder := HeldBy(i)));
  }

  lemma CountsOut(s: State, i: nat, iter: nat, t: State)
    requires IsAt(s, i, 2, t, DownRead(iter))
    ensures var u := t.(waiting := t.waiting - 1);
      && IsAt(s, i, 3, t, DownWrite(iter, t.waiting - 1)) && IsAt(s, i, 4, u, DownUnlock(iter))
      && IsAt(s, i, 5, u.(holder := Free), TestRound(iter))
  {
    var u := t.(waiting := t.waiting - 1);
    Then(s, i, 2, t, DownRead(iter), t, DownWrite(iter, t.waiting - 1));
    Then(s, i, 3, t, DownWrite(iter, t.waiting - 1), u, DownUnlock(iter));
    Then(s, i, 4, u, DownUnlock(iter), u.(holder := Free), TestRound(iter));
  }

  /** The last loop: a thread returns once the next round has begun or this one has been drained, and
    * looks again as long as neither is the case. */
  lemma FinalWait(s: State, i: nat, iter: nat)
    requires s.WellFormed() && i < s.Size() && s.pc[i] == TestRound(iter)
    ensures var done := s.(calls := s.calls[i := s.calls[i] + 1]);
      if s.iteration != iter then IsAt(s, i, 1, done, Outside)
      else if s.waiting == 0 then IsAt(s, i, 1, s, TestEmpty(iter)) && IsAt(s, i, 2, done, Outside)
      else IsAt(s, i, 1, s, TestEmpty(iter)) && IsAt(s, i, 2, s, TestRound(iter))
  {
    AloneNext(s, i, 0);
    if s.iteration == iter {
      var done := s.(calls := s.calls[i := s.calls[i] + 1]);
      Then(s, i, 1, s, TestEmpty(iter), if s.waiting == 0 then done else s, if s.waiting == 0 then Outside else TestRound(iter));
    }
  }

  // ----- The barrier in memory

  /** bar_t and bwait_lock, with the program counters of the threads in bwait. */
  class Bar {
    var iteration: nat
    var waiting: int
    var currentState: nat
    var bwaitLock: Holder
    const pgtable: bool
    const pc: array<Pc>
    ghost var round: nat
    ghost var calls: seq<nat>

    ghost predicate Valid()
      reads this, pc
    {
      |calls| == pc.Length
    }

    ghost function Contents(): State
      reads this, pc
    {
      State(pgtable, iteration, waiting, currentState, bwaitLock, pc[..], round, calls)
    }

    constructor (sz: nat, pgtable: bool)
      ensures Valid() && fresh(pc) && pc.Length == sz
      ensures Contents() == Initial(sz, pgtable)
    {
      this.pgtable := pgtable;
      iteration, waiting, currentState, bwaitLock := 0, 0, 0, Free;
      pc := new Pc[sz](_ => Outside);
      round, calls := 0, seq(sz, _ => 0);
    }

    /** Thread i takes one step. */
    method Advance(i: nat)
      requires Valid() && i < pc.Length
      modifies this, pc
      ensures Valid()
      ensures Contents() == Step(old(Contents()), i)
    {
      ghost var s := Contents();
      match pc[i] {
        case Outside => pc[i] := Lock;
        case Lock =>
          if bwaitLock.Free? { bwaitLock := HeldBy(i); pc[i] := ReadState; }
        case ReadState => pc[i] := if currentState == 1 then ReadWaiting else ReadCount;
        case ReadWaiting => pc[i] := if waiting != 0 then InnerUnlock else ReadIteration;
        case InnerUnlock => bwaitLock := Free; pc[i] := InnerLock;
        case InnerLock =>
          if bwaitLock.Free? { bwaitLock := HeldBy(i); pc[i] := ReadWaiting; }
        case ReadIteration => pc[i] := WriteIteration(iteration + 1);
        case WriteIteration(v) => iteration := v; pc[i] := ClearState;
        case ClearState => currentState := 0; round := round + 1; pc[i] := ReadCount;
        case ReadCount => pc[i] := WriteCount(waiting + 1);
        case WriteCount(v) => waiting := v; pc[i] := TestFull;
        case TestFull => pc[i] := if waiting == pc.Length then SetState else Unlock;
        case SetState => currentState := 1; pc[i] := Unlock;
        case Unlock => bwaitLock := Free; pc[i] := ReadRound;
        case ReadRound => pc[i] := AwaitState(iteration);
        case AwaitState(iter) =>
          if currentState != 0 { pc[i] := if pgtable then Decrement(iter) else DownLock(iter); }
        case Decrement(iter) => waiting := waiting - 1; pc[i] := TestRound(iter);
        case DownLock(iter) =>
          if bwaitLock.Free? { bwaitLock := HeldBy(i); pc[i] := DownRead(iter); }
        case DownRead(iter) => pc[i] := DownWrite(iter, waiting - 1);
        case DownWrite(iter, v) => waiting := v; pc[i] := DownUnlock(iter);
        case DownUnlock(iter) => bwaitLock := Free; pc[i] := TestRound(iter);
        case TestRound(iter) =>
          if iteration == iter { pc[i] := TestEmpty(iter); }
          else { calls := calls[i := calls[i] + 1]; pc[i] := Outside; }
        case TestEmpty(iter) =>
          if waiting != 0 { pc[i] := TestRound(iter); }
          else { calls := calls[i := calls[i] + 1]; pc[i] := Outside; }
      }
      assert pc[..] == s.pc[i := pc[i]];
    }

    /** The threads take steps in the order of the schedule. */
    method Execute(sched: seq<nat>)
      requires Valid() && Schedule(pc.Length, sched)
      modifies this, pc
      ensures Valid()
      ensures Contents() == Run(old(Contents()), sched)
    {
      ghost var s := Contents();
      for k := 0 to |sched|
        invariant Valid() && s.WellFormed() && s.Size() == pc.Length
        invariant Contents() == Run(s, sched[..k])
      {
        Advance(sched[k]);
        assert sched[..k + 1][..k] == sched[..k];
      }
      assert sched[..|sched|] == sched;
    }
  }
}
