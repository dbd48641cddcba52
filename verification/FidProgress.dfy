/** The fid table (sfilesys.go) never deadlocks: locks are held only by calls that can go on. */
module FidProgress {
  import opened Common
  import opened FidTable

  /** The converse of what a thread knows about its locks: a lock is held by a thread that is at a point
      where it holds it. */
  ghost predicate LockHeld(threads: map<nat, Pc>, x: SFid, r: nat) {
    x.lock.Some? ==> x.lock.value in threads && r in Held(threads[x.lock.value])
  }

  ghost predicate LocksHeld(s: State) {
    forall r :: 0 <= r < |s.sfids| ==> LockHeld(s.threads, s.sfids[r], r)
  }

  ghost predicate CanStep(s: State, i: nat)
    requires Bounds(s)
  {
    Step(s, i, true).Some?
  }

  /** Thread i moves to `pc` and changes only locks of its own, so that it holds exactly those of `pc`. */
  lemma LocksKeep(s: State, s': State, i: nat, pc: Pc)
    requires LocksHeld(s) && s'.threads == s.threads[i := pc] && |s.sfids| <= |s'.sfids|
    requires forall r :: 0 <= r < |s'.sfids| && s'.sfids[r].lock == Some(i) ==> r in Held(pc)
    requires forall r :: 0 <= r < |s'.sfids| && s'.sfids[r].lock.Some? && s'.sfids[r].lock != Some(i) ==>
               r < |s.sfids| && s'.sfids[r].lock == s.sfids[r].lock
    ensures LocksHeld(s')
  {
    hide Held;
    forall r | 0 <= r < |s'.sfids| ensures LockHeld(s'.threads, s'.sfids[r], r) {
      if s'.sfids[r].lock.Some? && s'.sfids[r].lock != Some(i) {
        assert LockHeld(s.threads, s.sfids[r], r);
      }
    }
  }

  /** The locks thread i holds are those its point in the call says. */
  lemma OwnLocks(s: State, i: nat)
    requires LocksHeld(s) && i in s.threads
    ensures forall r :: 0 <= r < |s.sfids| && s.sfids[r].lock == Some(i) ==> r in Held(s.threads[i])
  {
    hide Held;
    assert forall r :: 0 <= r < |s.sfids| ==> LockHeld(s.threads, s.sfids[r], r);
  }

  lemma HeldKeeps(s: State, e: Event, s': State)
    requires Inv(s) && LocksHeld(s) && Next(s, e, s')
    ensures LocksHeld(s')
  {
    hide CallsOk, Owned, Locks, StepReady, StepStart, LocksHeld;
    match e {
      case Spawn(i, op) =>
        NoLocksYet(s, i);
        LocksKeep(s, s', i, Start(op));
      case Move(i, ok) =>
        OwnLocks(s, i);
        match s.threads[i] {
          case Start(op) => HeldStart(s, i, op);
          case Ready(op, r) => HeldReady(s, i, op, r, ok);
          case Reserved(op, r, n) => HeldReserved(s, i, ok, s');
          case Done =>
          case _ => LocksKeep(s, s', i, s'.threads[i]);
        }
    }
  }

  lemma NoLocksYet(s: State, i: nat)
    requires LocksHeld(s) && i !in s.threads
    ensures forall r :: 0 <= r < |s.sfids| ==> s.sfids[r].lock != Some(i)
  {
    hide Held;
    assert forall r :: 0 <= r < |s.sfids| ==> LockHeld(s.threads, s.sfids[r], r);
  }

  lemma HeldStart(s: State, i: nat, op: Op)
    requires LocksHeld(s) && i in s.threads && s.threads[i] == Start(op)
    ensures LocksHeld(StepStart(s, i, op))
  {
    OwnLocks(s, i);
    hide LocksHeld;
    var s' := StepStart(s, i, op);
    LocksKeep(s, s', i, s'.threads[i]);
  }

  lemma HeldReady(s: State, i: nat, op: Op, r: nat, ok: bool)
    requires LocksHeld(s) && i in s.threads && s.threads[i] == Ready(op, r) && !op.OpAttach?
    requires r < |s.sfids| && s.sfids[r].ent.Some? && s.sfids[r].ent.value < |s.dirents|
    ensures LocksHeld(StepReady(s, i, op, r, s.sfids[r].ent.value, ok))
  {
    OwnLocks(s, i);
    hide LocksHeld;
    var s' := StepReady(s, i, op, r, s.sfids[r].ent.value, ok);
    LocksKeep(s, s', i, s'.threads[i]);
  }

  lemma HeldReserved(s: State, i: nat, ok: bool, s': State)
    requires Inv(s) && LocksHeld(s) && Next(s, Move(i, ok), s') && s.threads[i].Reserved?
    ensures LocksHeld(s')
  {
    hide CallsOk, Owned, StepReady, StepStart;
    OwnLocks(s, i);
    hide LocksHeld;
    LocksKeep(s, s', i, s'.threads[i]);
  }

  lemma {:induction false} RunHeld(es: seq<Event>, ss: seq<State>, n: nat)
    requires Run(es, ss) && n <= |es|
    ensures LocksHeld(ss[n])
  {
    hide Inv, Next, LocksHeld;
    if n == 0 {
      NoLocksAtFirst();
    } else {
      RunHeld(es, ss, n - 1);
      RunKeeps(es, ss, n - 1);
      assert Next(ss[n - 1], es[n - 1], ss[n]);
      HeldKeeps(ss[n - 1], es[n - 1], ss[n]);
    }
  }

  lemma NoLocksAtFirst()
    ensures LocksHeld(INIT)
  {
  }

  // ---------------------------------------------------------------- no deadlock

  /** A call that is neither over nor waiting for a lock can go on. */
  lemma GoesOn(s: State, i: nat)
    requires Inv(s) && i in s.threads && !s.threads[i].Done?
    requires s.threads[i].Loaded? ==> s.sfids[s.threads[i].ref].lock.None?
    ensures CanStep(s, i)
  {
    hide CallsOk, Owned, StepReady, StepStart;
    assert PcOk(s.threads[i], i, s.sfids) && PcBounds(s.threads[i], |s.sfids|, |s.dirents|);
  }

  /** Whoever holds a lock can go on. */
  lemma HolderGoesOn(s: State, r: nat)
    requires Inv(s) && LocksHeld(s) && r < |s.sfids| && s.sfids[r].lock.Some?
    ensures s.sfids[r].lock.value in s.threads && CanStep(s, s.sfids[r].lock.value)
  {
    hide CallsOk, Owned, Bounds, Locks, Step;
    assert LockHeld(s.threads, s.sfids[r], r);
    GoesOn(s, s.sfids[r].lock.value);
  }

  lemma SomeoneGoesOn(s: State, i: nat) returns (j: nat)
    requires Inv(s) && LocksHeld(s) && i in s.threads && !s.threads[i].Done?
    ensures j in s.threads && CanStep(s, j)
  {
    hide CallsOk, Owned, Locks, Step, LocksHeld;
    assert PcBounds(s.threads[i], |s.sfids|, |s.dirents|);
    if s.threads[i].Loaded? && s.sfids[s.threads[i].ref].lock.Some? {
      var r := s.threads[i].ref;
      HolderGoesOn(s, r);
      j := s.sfids[r].lock.value;
    } else {
      GoesOn(s, i);
      j := i;
    }
  }

  /** In every run: as long as some call is not over, some call can take a step. */
  lemma NoDeadlock(es: seq<Event>, ss: seq<State>, n: nat, i: nat) returns (j: nat)
    requires Run(es, ss) && n <= |es| && i in ss[n].threads && !ss[n].threads[i].Done?
    ensures Bounds(ss[n]) && j in ss[n].threads && CanStep(ss[n], j)
  {
    hide Next, LocksHeld, CanStep;
    RunKeeps(es, ss, n);
    RunHeld(es, ss, n);
    j := SomeoneGoesOn(ss[n], i);
  }

  // ---------------------------------------------------------------- every call can be brought to its end

  /** The most steps a call at this point can still take. */
  function StepsLeft(pc: Pc): nat {
    match pc
    case Start(_) => 7
    case Loaded(_, _) => 6
    case Locked(_, _) => 5
    case Ready(_, _) => 4
    case Reserved(_, _, _) => 3
    case Fresh(_, _) => 2
    case Moved(_, _) => 2
    case Undo(_, _) => 2
    case Leaving(_) => 1
    case Done => 0
  }

  ghost function Work(threads: map<nat, Pc>): nat
    decreases |threads|
  {
    if threads == map[] then 0
    else
      var i :| i in threads;
      StepsLeft(threads[i]) + Work(threads - {i})
  }

  lemma {:induction false} WorkOf(threads: map<nat, Pc>, j: nat)
    requires j in threads
    ensures Work(threads) == StepsLeft(threads[j]) + Work(threads - {j})
    decreases |threads|
  {
    hide StepsLeft;
    var i :| i in threads && Work(threads) == StepsLeft(threads[i]) + Work(threads - {i});
    if i != j {
      WorkOf(threads - {i}, j);
      WorkOf(threads - {j}, i);
      assert threads - {i} - {j} == threads - {j} - {i};
    }
  }

  /** Every step uses up some of the work, whoever takes it. */
  lemma WorkShrinks(s: State, i: nat, ok: bool, s': State)
    requires Next(s, Move(i, ok), s') && PcBounds(s.threads[i], |s.sfids|, |s.dirents|)
    ensures Work(s'.threads) < Work(s.threads)
  {
    OneStepLess(s, i, ok, s');
    hide StepsLeft, Next;
    WorkOf(s.threads, i);
    WorkOf(s'.threads, i);
    assert s'.threads - {i} == s.threads - {i};
  }

  lemma OneStepLess(s: State, i: nat, ok: bool, s': State)
    requires Next(s, Move(i, ok), s') && PcBounds(s.threads[i], |s.sfids|, |s.dirents|)
    ensures i in s.threads && i in s'.threads && StepsLeft(s'.threads[i]) < StepsLeft(s.threads[i])
    ensures s'.threads == s.threads[i := s'.threads[i]]
  {
    hide StepReady, StepStart;
    match s.threads[i] {
      case Start(op) => LessAfterStart(s, i, op);
      case Ready(op, r) => LessAfterReady(s, i, op, r, s.sfids[r].ent.value, ok);
      case _ =>
    }
  }

  lemma LessAfterStart(s: State, i: nat, op: Op)
    ensures var s' := StepStart(s, i, op);
            i in s'.threads && s'.threads == s.threads[i := s'.threads[i]] && StepsLeft(s'.threads[i]) < 7
  {
  }

  lemma LessAfterReady(s: State, i: nat, op: Op, r: nat, d: nat, ok: bool)
    requires r < |s.sfids| && d < |s.dirents| && !op.OpAttach?
    ensures var s' := StepReady(s, i, op, r, d, ok);
            i in s'.threads && s'.threads == s.threads[i := s'.threads[i]] && StepsLeft(s'.threads[i]) < 4
  {
  }

  ghost predicate AllDone(s: State) {
    forall i :: i in s.threads ==> s.threads[i].Done?
  }

  /** Every run can be continued, by moves of the calls it has, to one in which all of them are over,
      even if every call on the file system from then on succeeds. */
  lemma {:induction false} CanFinish(es: seq<Event>, ss: seq<State>) returns (es': seq<Event>, ss': seq<State>)
    requires Run(es, ss)
    ensures Run(es', ss') && es <= es' && ss <= ss' && AllDone(ss'[|es'|])
    ensures forall k :: |es| <= k < |es'| ==> es'[k].Move? && es'[k].ok
    decreases Work(ss[|es|].threads)
  {
    hide Inv, LocksHeld, Next, Work;
    var s := ss[|es|];
    if AllDone(s) {
      es', ss' := es, ss;
    } else {
      var i :| i in s.threads && !s.threads[i].Done?;
      var j := NoDeadlock(es, ss, |es|, i);
      RunKeeps(es, ss, |es|);
      var s1 := StepTo(s, j);
      var es1, ss1 := es + [Move(j, true)], ss + [s1];
      es', ss' := CanFinish(es1, ss1);
      forall k | |es| <= k < |es'| ensures es'[k].Move? && es'[k].ok {
        if k == |es| {
          assert es'[k] == es1[k];
        }
      }
    }
  }

  lemma StepTo(s: State, j: nat) returns (s': State)
    requires Inv(s) && j in s.threads && CanStep(s, j)
    ensures Next(s, Move(j, true), s') && Work(s'.threads) < Work(s.threads)
  {
    s' := Step(s, j, true).value;
    assert PcBounds(s.threads[j], |s.sfids|, |s.dirents|);
    WorkShrinks(s, j, true, s');
  }
}
