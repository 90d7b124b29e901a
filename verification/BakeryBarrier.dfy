/** bwait with the page tables off, where LOCK and UNLOCK of lib/arch/sync.c run the bakery lock: the
  * threads interleave single accesses of the barrier and of the lock.
  */
module BakeryBarrier {

  import B = Barrier
  import L = Lamport

  /** The barrier and its lock.  The holder of the barrier is written at the end of LOCK and in UNLOCK,
    * and no step reads it. */
  datatype State = State(bar: B.State, lock: L.State) {
    predicate WellFormed() {
      bar.WellFormed() && lock.WellFormed() && bar.Size() <= lock.Size()
    }
  }

  /** Thread i runs on CPU i; the lock has a slot for every CPU. */
  function Initial(sz: nat, cpus: nat): State {
    State(B.Initial(sz, false), L.Initial(cpus))
  }

  /** The thread is in LOCK. */
  predicate Locking(pc: B.Pc) {
    pc.Lock? || pc.InnerLock? || pc.DownLock?
  }

  /** The next access of the thread is the one of UNLOCK. */
  predicate Unlocking(pc: B.Pc) {
    pc.InnerUnlock? || pc.Unlock? || pc.DownUnlock?
  }

  /** The thread has left LOCK. */
  function Locked(bar: B.State, i: nat): B.State
    requires bar.WellFormed() && i < bar.Size() && Locking(bar.pc[i])
  {
    var t := bar.(holder := B.HeldBy(i));
    match bar.pc[i]
    case Lock => t.Goto(i, B.ReadState)
    case InnerLock => t.Goto(i, B.ReadWaiting)
    case DownLock(iter) => t.Goto(i, B.DownRead(iter))
  }

  /** One access of thread i. */
  function Step(s: State, i: nat): (t: State)
    requires s.WellFormed() && i < s.bar.Size()
    ensures t.WellFormed() && t.bar.Size() == s.bar.Size() && t.lock.Size() == s.lock.Size()
  {
    if Locking(s.bar.pc[i]) then
      var lock := L.Step(s.lock, i);
      State(if lock.pc[i].Inside? then Locked(s.bar, i) else s.bar, lock)
    else
      State(B.Step(s.bar, i), if Unlocking(s.bar.pc[i]) then L.Step(s.lock, i) else s.lock)
  }

  function Run(s: State, sched: seq<nat>): (t: State)
    requires s.WellFormed() && B.Schedule(s.bar.Size(), sched)
    ensures t.WellFormed() && t.bar.Size() == s.bar.Size() && t.lock.Size() == s.lock.Size()
  {
    if sched == [] then s else Step(Run(s, sched[..|sched| - 1]), sched[|sched| - 1])
  }

  /** The state after a run of sz threads, from an empty barrier with its lock free. */
  function Reached(sz: nat, cpus: nat, sched: seq<nat>): (s: State)
    requires sz <= cpus && B.Schedule(sz, sched)
    ensures s.WellFormed() && s.bar.Size() == sz && s.lock.Size() == cpus
  {
    Run(Initial(sz, cpus), sched)
  }

  // ----- The bakery lock implements the atomic one

  /** A thread is inside the bakery lock where it needs the lock, and near it only in LOCK. */
  predicate Together(bar: B.Pc, lock: L.Pc) {
    && (B.NeedsLock(bar) <==> lock.Inside?)
    && (Locking(bar) || B.NeedsLock(bar) || lock.Idle?)
  }

  predicate AllTogether(s: State)
    requires s.WellFormed()
  {
    && (forall i: nat :: i < s.bar.Size() ==> Together(s.bar.pc[i], s.lock.pc[i]))
    && (forall i: nat :: s.bar.Size() <= i < s.lock.Size() ==> s.lock.pc[i].Idle?)
  }

  predicate Inv(s: State) {
    && s.WellFormed()
    && B.Inv(s.bar) && L.Inv(s.lock)
    && !s.bar.pgtable
    && AllTogether(s)
  }

  lemma InsideHolds(s: State, i: nat)
    requires Inv(s) && i < s.lock.Size() && s.lock.pc[i].Inside?
    ensures s.bar.holder == B.HeldBy(i)
  {
    assert i < s.bar.Size();
    assert Together(s.bar.pc[i], s.lock.pc[i]);
    B.HolderNeedsLock(s.bar, i);
  }

  /** Nobody holds the lock of the barrier exactly when nobody is inside the bakery lock. */
  lemma FreeMeansNobody(s: State)
    requires Inv(s)
    ensures s.bar.holder.Free? <==> forall i: nat :: i < s.lock.Size() ==> !s.lock.pc[i].Inside?
  {
    if s.bar.holder.HeldBy? {
      B.HolderNeedsLock(s.bar, s.bar.holder.thread);
      assert Together(s.bar.pc[s.bar.holder.thread], s.lock.pc[s.bar.holder.thread]);
    }
    forall i: nat | i < s.lock.Size() && s.lock.pc[i].Inside? ensures s.bar.holder.HeldBy? {
      InsideHolds(s, i);
    }
  }

  /** The last access of LOCK finds the lock of the barrier free. */
  lemma EnteringFindsFree(s: State, i: nat)
    requires Inv(s) && i < s.bar.Size() && Locking(s.bar.pc[i]) && L.Step(s.lock, i).pc[i].Inside?
    ensures s.bar.holder.Free?
    ensures Locked(s.bar, i) == B.Step(s.bar, i)
  {
    L.StepKeepsInv(s.lock, i);
    assert Together(s.bar.pc[i], s.lock.pc[i]);
    forall j: nat | j < s.lock.Size() ensures !s.lock.pc[j].Inside? {
      if s.lock.pc[j].Inside? {
        L.OneInside(L.Step(s.lock, i), i, j);
      }
    }
    FreeMeansNobody(s);
  }

  /** What an access does to the barrier with the atomic lock, and to the lock alone. */
  predicate Refines(s: State, t: State, i: nat)
    requires s.WellFormed() && i < s.bar.Size()
  {
    && (t.bar == s.bar || t.bar == B.Step(s.bar, i))
    && (t.lock == s.lock || t.lock == L.Step(s.lock, i))
  }

  lemma StepRefines(s: State, i: nat)
    requires Inv(s) && i < s.bar.Size()
    ensures Refines(s, Step(s, i), i)
  {
    if Locking(s.bar.pc[i]) && L.Step(s.lock, i).pc[i].Inside? {
      EnteringFindsFree(s, i);
    }
  }

  /** What the steps of thread i rely on. */
  predicate StepPre(s: State, i: nat)
    requires s.WellFormed() && i < s.bar.Size()
  {
    && Together(s.bar.pc[i], s.lock.pc[i])
    && !s.bar.pgtable
    && (L.Step(s.lock, i).pc[i].Inside? && Locking(s.bar.pc[i]) ==> Locked(s.bar, i) == B.Step(s.bar, i))
  }

  lemma OwnTogether(s: State, i: nat)
    requires s.WellFormed() && i < s.bar.Size() && StepPre(s, i)
    ensures Together(Step(s, i).bar.pc[i], Step(s, i).lock.pc[i])
  {
  }

  lemma StepPreHolds(s: State, i: nat)
    requires Inv(s) && i < s.bar.Size()
    ensures StepPre(s, i)
  {
    if Locking(s.bar.pc[i]) && L.Step(s.lock, i).pc[i].Inside? {
      EnteringFindsFree(s, i);
    }
  }

  lemma StepKeepsTogether(s: State, i: nat)
    requires s.WellFormed() && i < s.bar.Size() && StepPre(s, i) && AllTogether(s)
    ensures AllTogether(Step(s, i))
  {
    var t := Step(s, i);
    OwnTogether(s, i);
    forall j: nat | j < t.bar.Size() ensures Together(t.bar.pc[j], t.lock.pc[j]) {
      assert Together(s.bar.pc[j], s.lock.pc[j]);
    }
  }

  lemma PartsKeepInv(s: State, t: State, i: nat)
    requires s.WellFormed() && i < s.bar.Size() && B.Inv(s.bar) && L.Inv(s.lock)
    requires Refines(s, t, i)
    ensures B.Inv(t.bar) && L.Inv(t.lock)
  {
    B.StepKeepsInv(s.bar, i);
    L.StepKeepsInv(s.lock, i);
  }

  lemma StepKeepsInv(s: State, i: nat)
    requires Inv(s) && i < s.bar.Size()
    ensures Inv(Step(s, i))
  {
    StepRefines(s, i);
    PartsKeepInv(s, Step(s, i), i);
    StepPreHolds(s, i);
    StepKeepsTogether(s, i);
  }

  lemma InitialInv(sz: nat, cpus: nat)
    requires 0 < sz <= cpus
    ensures Inv(Initial(sz, cpus))
  {
    B.InitialInv(sz, false);
  }

  lemma {:induction false} RunKeepsInv(s: State, sched: seq<nat>)
    requires Inv(s) && B.Schedule(s.bar.Size(), sched)
    ensures Inv(Run(s, sched))
  {
    if sched != [] {
      RunKeepsInv(s, sched[..|sched| - 1]);
      StepKeepsInv(Run(s, sched[..|sched| - 1]), sched[|sched| - 1]);
    }
  }

  lemma LastRefines(sz: nat, cpus: nat, sched: seq<nat>)
    requires 0 < sz <= cpus && B.Schedule(sz, sched) && sched != []
    ensures Refines(Reached(sz, cpus, sched[..|sched| - 1]), Reached(sz, cpus, sched), sched[|sched| - 1])
  {
    var init := sched[..|sched| - 1];
    InitialInv(sz, cpus);
    RunKeepsInv(Initial(sz, cpus), init);
    StepRefines(Reached(sz, cpus, init), sched[|sched| - 1]);
  }

  lemma BarStep(s: B.State, b: seq<nat>, i: nat)
    requires s.WellFormed() && i < s.Size() && B.Schedule(s.Size(), b)
    ensures B.Schedule(s.Size(), b + [i]) && B.Run(s, b + [i]) == B.Step(B.Run(s, b), i)
  {
    assert (b + [i])[..|b + [i]| - 1] == b;
  }

  lemma LockStep(s: L.State, l: seq<nat>, i: nat)
    requires s.WellFormed() && i < s.Size() && L.Schedule(s.Size(), l)
    ensures L.Schedule(s.Size(), l + [i]) && L.Run(s, l + [i]) == L.Step(L.Run(s, l), i)
  {
    assert (l + [i])[..|l + [i]| - 1] == l;
  }

  /** Every run of the barrier over the bakery lock is a run of the barrier over an atomic lock, and a
    * run of the bakery lock. */
  lemma {:induction false} RunRefines(sz: nat, cpus: nat, sched: seq<nat>) returns (b: seq<nat>, l: seq<nat>)
    requires 0 < sz <= cpus && B.Schedule(sz, sched)
    ensures B.Schedule(sz, b) && Reached(sz, cpus, sched).bar == B.Reached(sz, false, b)
    ensures L.Schedule(cpus, l) && Reached(sz, cpus, sched).lock == L.Run(L.Initial(cpus), l)
  {
    b, l := [], [];
    if sched != [] {
      var init, i := sched[..|sched| - 1], sched[|sched| - 1];
      b, l := RunRefines(sz, cpus, init);
      LastRefines(sz, cpus, sched);
      if Reached(sz, cpus, sched).bar != Reached(sz, cpus, init).bar {
        BarStep(B.Initial(sz, false), b, i);
        b := b + [i];
      }
      if Reached(sz, cpus, sched).lock != Reached(sz, cpus, init).lock {
        LockStep(L.Initial(cpus), l, i);
        l := l + [i];
      }
    }
  }

  /** The barrier holds threads back although its lock is made of reads and writes. */
  lemma NoEarlyReturn(sz: nat, cpus: nat, sched: seq<nat>, i: nat, j: nat)
    requires sz <= cpus && B.Schedule(sz, sched) && i < sz && j < sz
    ensures Reached(sz, cpus, sched).bar.calls[i] <= Reached(sz, cpus, sched).bar.Started(j)
  {
    var b, _ := RunRefines(sz, cpus, sched);
    B.NoEarlyReturn(sz, false, b, i, j);
  }

  // ----- No deadlock

  lemma {:induction false} RunAppend(s: State, a: seq<nat>, b: seq<nat>)
    requires s.WellFormed() && B.Schedule(s.bar.Size(), a) && B.Schedule(s.bar.Size(), b)
    ensures B.Schedule(s.bar.Size(), a + b) && Run(s, a + b) == Run(Run(s, a), b)
  {
    if b == [] {
      assert a + b == a;
    } else {
      var init := b[..|b| - 1];
      RunAppend(s, a, init);
      assert (a + b)[..|a + b| - 1] == a + init;
    }
  }

  lemma StepThenRun(s: State, i: nat, rest: seq<nat>)
    requires s.WellFormed() && i < s.bar.Size() && B.Schedule(s.bar.Size(), rest)
    ensures B.Schedule(s.bar.Size(), [i] + rest) && Run(s, [i] + rest) == Run(Step(s, i), rest)
  {
    assert [i][..0] == [] && Run(s, [i]) == Step(s, i);
    RunAppend(s, [i], rest);
  }

  lemma LockStepThenRun(s: L.State, c: nat, rest: seq<nat>)
    requires s.WellFormed() && c < s.Size() && L.Schedule(s.Size(), rest)
    ensures L.Schedule(s.Size(), [c] + rest) && L.Run(s, [c] + rest) == L.Run(L.Step(s, c), rest)
  {
    assert [c][..0] == [] && L.Run(s, [c]) == L.Step(s, c);
    L.RunAppend(s, [c], rest);
  }

  /** With the lock free, whoever is at the lock is in LOCK, and gets inside or stays in it. */
  lemma InLock(s: State, c: nat)
    requires Inv(s) && s.bar.holder.Free? && c < s.lock.Size() && !s.lock.pc[c].Idle?
    ensures c < s.bar.Size() && Locking(s.bar.pc[c])
    ensures Step(s, c).lock == L.Step(s.lock, c)
    ensures var t := Step(s, c);
      if t.lock.pc[c].Inside? then t.bar == B.Step(s.bar, c) else t.bar == s.bar && !t.lock.pc[c].Idle?
  {
    FreeMeansNobody(s);
    assert c < s.bar.Size() ==> Together(s.bar.pc[c], s.lock.pc[c]);
    if L.Step(s.lock, c).pc[c].Inside? {
      EnteringFindsFree(s, c);
    }
  }

  lemma RestActive(s: L.State, t: L.State, after: seq<nat>)
    requires after != [] && L.OnlyActive(s, after) && s.WellFormed()
    requires t == L.Step(s, after[0]) && !t.pc[after[0]].Idle?
    ensures L.OnlyActive(t, after[1..]) && L.Run(s, after) == L.Run(t, after[1..])
  {
    assert after == [after[0]] + after[1..];
    LockStepThenRun(s, after[0], after[1..]);
    forall k | 0 <= k < |after[1..]| ensures after[1..][k] < |t.pc| && !t.pc[after[1..][k]].Idle? {
      assert after[1..][k] == after[k + 1];
    }
  }

  /** A run of the lock that lets somebody in is a run of the threads in LOCK, one of which leaves it. */
  lemma {:induction false} FollowLock(s: State, after: seq<nat>, winner: nat) returns (sched: seq<nat>, c: nat)
    requires Inv(s) && s.bar.holder.Free?
    requires L.OnlyActive(s.lock, after) && winner < s.lock.Size() && L.Run(s.lock, after).pc[winner].Inside?
    ensures B.Schedule(s.bar.Size(), sched)
    ensures c < s.bar.Size() && Locking(s.bar.pc[c]) && Run(s, sched).bar == B.Step(s.bar, c)
    decreases |after|
  {
    if after == [] {
      FreeMeansNobody(s);
    }
    c := after[0];
    InLock(s, c);
    var t := Step(s, c);
    if t.lock.pc[c].Inside? {
      StepThenRun(s, c, []);
      sched := [c] + [];
    } else {
      StepKeepsInv(s, c);
      RestActive(s.lock, t.lock, after);
      var more;
      more, c := FollowLock(t, after[1..], winner);
      StepThenRun(s, after[0], more);
      sched := [after[0]] + more;
    }
  }

  /** When a thread is in LOCK and the lock is free, some thread gets the lock. */
  lemma SomeoneLocks(s: State, m: nat) returns (sched: seq<nat>, c: nat)
    requires Inv(s) && s.bar.holder.Free? && m < s.bar.Size() && Locking(s.bar.pc[m])
    ensures B.Schedule(s.bar.Size(), sched)
    ensures c < s.bar.Size() && Locking(s.bar.pc[c]) && Run(s, sched).bar == B.Step(s.bar, c)
  {
    FreeMeansNobody(s);
    if s.lock.pc[m].Idle? {
      var t := Step(s, m);
      StepKeepsInv(s, m);
      FreeMeansNobody(t);
      var after, winner := L.SomeoneEnters(t.lock);
      var rest;
      rest, c := FollowLock(t, after, winner);
      StepThenRun(s, m, rest);
      sched := [m] + rest;
    } else {
      var after, winner := L.SomeoneEnters(s.lock);
      sched, c := FollowLock(s, after, winner);
    }
  }

  /** With the lock free, every thread in LOCK would move if it got the lock. */
  lemma LockingMoves(s: State, target: nat, c: nat)
    requires Inv(s) && s.bar.holder.Free? && c < s.bar.Size() && Locking(s.bar.pc[c])
    ensures B.Moves(s.bar, target, c)
  {
    assert B.ThreadInv(s.bar, c);
  }

  /** Some accesses make some thread move, as it would with the atomic lock. */
  lemma MoveHappens(s: State, target: nat, m: nat) returns (sched: seq<nat>, c: nat)
    requires Inv(s) && m < s.bar.Size() && B.Moves(s.bar, target, m)
    ensures B.Schedule(s.bar.Size(), sched)
    ensures c < s.bar.Size() && B.Moves(s.bar, target, c) && Run(s, sched).bar == B.Step(s.bar, c)
  {
    if Locking(s.bar.pc[m]) {
      sched, c := SomeoneLocks(s, m);
      LockingMoves(s, target, c);
    } else {
      StepThenRun(s, m, []);
      sched, c := [m] + [], m;
    }
  }

  /** A thread that nothing keeps in the final loop returns. */
  lemma LeavesSoon(s: State, c: nat) returns (sched: seq<nat>)
    requires s.WellFormed() && c < s.bar.Size() && B.Leaves(s.bar, c)
    ensures B.Schedule(s.bar.Size(), sched)
    ensures Run(s, sched).bar == B.Return(s.bar, c)
  {
    var t := Step(s, c);
    B.LeavesInTwo(s.bar, c);
    assert t.bar == B.Step(s.bar, c);
    if t.bar.pc[c].Outside? {
      StepThenRun(s, c, []);
      sched := [c] + [];
    } else {
      StepThenRun(t, c, []);
      StepThenRun(s, c, [c] + []);
      sched := [c] + ([c] + []);
    }
  }

  /** A run from the start leads to this state. */
  ghost predicate Reachable(s: State) {
    exists sz, cpus, sched {:trigger Reached(sz, cpus, sched)} ::
      0 < sz <= cpus && B.Schedule(sz, sched) && s == Reached(sz, cpus, sched)
  }

  lemma {:induction false} ReachableInv(s: State)
    requires Reachable(s)
    ensures Inv(s)
  {
    var sz, cpus, sched :| 0 < sz <= cpus && B.Schedule(sz, sched) && s == Reached(sz, cpus, sched);
    InitialInv(sz, cpus);
    RunKeepsInv(Initial(sz, cpus), sched);
  }

  lemma {:induction false} ReachableRun(s: State, more: seq<nat>)
    requires s.WellFormed() && Reachable(s) && B.Schedule(s.bar.Size(), more)
    ensures Reachable(Run(s, more))
  {
    var sz, cpus, sched :| 0 < sz <= cpus && B.Schedule(sz, sched) && s == Reached(sz, cpus, sched);
    RunAppend(Initial(sz, cpus), sched, more);
    assert Run(s, more) == Reached(sz, cpus, sched + more);
  }

  /** Less is left to do: fewer calls, or as many and less work before the final loop. */
  predicate Nearer(s: B.State, t: B.State, target: nat)
    requires s.WellFormed() && t.WellFormed()
  {
    || B.CallsLeft(t.calls, target) < B.CallsLeft(s.calls, target)
    || (t.calls == s.calls && B.WorkBelow(t, target, t.Size()) < B.WorkBelow(s, target, s.Size()))
  }

  lemma Leaving(s: State, target: nat, c: nat) returns (sched: seq<nat>)
    requires s.WellFormed() && c < s.bar.Size() && B.Leaves(s.bar, c) && B.WithinTarget(s.bar, target)
    ensures B.Schedule(s.bar.Size(), sched) && B.WithinTarget(Run(s, sched).bar, target)
    ensures Nearer(s.bar, Run(s, sched).bar, target)
  {
    sched := LeavesSoon(s, c);
    B.ReturnWithinTarget(s.bar, target, c);
    assert s.bar.Started(c) <= target;
    B.CallsLeftDrops(s.bar.calls, target, c);
  }

  lemma Moving(s: State, target: nat, m: nat) returns (sched: seq<nat>)
    requires Inv(s) && m < s.bar.Size() && B.Moves(s.bar, target, m) && B.WithinTarget(s.bar, target)
    ensures B.Schedule(s.bar.Size(), sched) && B.WithinTarget(Run(s, sched).bar, target)
    ensures Nearer(s.bar, Run(s, sched).bar, target)
  {
    var c;
    sched, c := MoveHappens(s, target, m);
    B.WorkDrops(s.bar, target, c, s.bar.Size());
    B.MovesWithinTarget(s.bar, target, c);
  }

  /** While some thread has calls to complete, some accesses leave less to do. */
  lemma {:induction false} GoesOn(s: State, target: nat) returns (sched: seq<nat>)
    requires s.WellFormed() && Reachable(s) && B.WithinTarget(s.bar, target)
    requires exists i :: 0 <= i < s.bar.Size() && s.bar.calls[i] < target
    ensures B.Schedule(s.bar.Size(), sched) && B.WithinTarget(Run(s, sched).bar, target)
    ensures Nearer(s.bar, Run(s, sched).bar, target)
  {
    ReachableInv(s);
    var c := B.SomeoneMoves(s.bar, target);
    if B.Leaves(s.bar, c) {
      sched := Leaving(s, target, c);
    } else {
      sched := Moving(s, target, c);
    }
  }

  /** Every thread is outside, and has completed this number of calls. */
  predicate AllDone(bar: B.State, target: nat)
    requires bar.WellFormed()
  {
    forall i :: 0 <= i < bar.Size() ==> bar.pc[i].Outside? && bar.calls[i] == target
  }

  lemma {:induction false} AllReturn(s: State, target: nat) returns (sched: seq<nat>)
    requires s.WellFormed() && Reachable(s) && B.WithinTarget(s.bar, target)
    ensures B.Schedule(s.bar.Size(), sched) && AllDone(Run(s, sched).bar, target)
    decreases B.CallsLeft(s.bar.calls, target), B.WorkBelow(s.bar, target, s.bar.Size())
  {
    if exists i :: 0 <= i < s.bar.Size() && s.bar.calls[i] < target {
      var first := GoesOn(s, target);
      ReachableRun(s, first);
      var rest := AllReturn(Run(s, first), target);
      RunAppend(s, first, rest);
      sched := first + rest;
    } else {
      sched := [];
      forall i | 0 <= i < s.bar.Size() ensures s.bar.pc[i].Outside? && s.bar.calls[i] == target {
        assert s.bar.Started(i) <= target && !(s.bar.calls[i] < target);
      }
    }
  }

  /** The barrier over the bakery lock never deadlocks: from every reachable state, whatever the threads
    * are doing inside the lock, they can go on so that each completes any given number of calls. */
  lemma NeverDeadlocks(sz: nat, cpus: nat, before: seq<nat>, target: nat) returns (after: seq<nat>)
    requires 0 < sz <= cpus && B.Schedule(sz, before)
    requires B.WithinTarget(Reached(sz, cpus, before).bar, target)
    ensures B.Schedule(sz, after) && AllDone(Run(Reached(sz, cpus, before), after).bar, target)
  {
    after := AllReturn(Reached(sz, cpus, before), target);
  }
}
