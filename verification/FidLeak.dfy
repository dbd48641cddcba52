/** Which Dirents the fid table (sfilesys.go) can still reach.  A failing Attach or Walk takes the
    entry it published out of the table by its fid; by then the fid may name another call's entry. */
module FidLeak {
  import opened Common
  import opened FidTable

  /** A thread at this point will give the SFid `r` a Dirent, if its call succeeds. */
  predicate Fills(pc: Pc, r: nat) {
    match pc
    case Fresh(_, n) => n == r
    case Reserved(_, _, n) => n == r
    case Moved(n, _) => n == r
    case _ => false
  }

  /** A thread at this point has taken `r` out of the table in order to clunk or remove it. */
  predicate Deletes(pc: Pc, r: nat) {
    match pc
    case Loaded(op, n) => op.OpDel? && n == r
    case Locked(op, n) => op.OpDel? && n == r
    case Ready(op, n) => op.OpDel? && n == r
    case _ => false
  }

  ghost predicate InTable(refs: map<nat, nat>, r: nat) {
    exists f :: f in refs && refs[f] == r
  }

  ghost predicate Doomed(threads: map<nat, Pc>, r: nat) {
    exists i :: i in threads && Deletes(threads[i], r)
  }

  ghost predicate Awaited(threads: map<nat, Pc>, r: nat) {
    exists i :: i in threads && Fills(threads[i], r)
  }

  /** The SFid has a Dirent or may get one. */
  ghost predicate Used(s: State, r: nat) {
    r < |s.sfids| && (s.sfids[r].ent.Some? || Awaited(s.threads, r))
  }

  /** Every SFid that has or may get a Dirent is in the table, or a call is about to delete it. */
  ghost predicate Tracked(s: State) {
    forall r: nat :: Used(s, r) ==> InTable(s.refs, r) || Doomed(s.threads, r)
  }

  /** The step is a failing Attach or Walk that takes another call's entry out of the table. */
  ghost predicate ForeignDelete(s: State, e: Event) {
    e.Move? && e.i in s.threads &&
    match s.threads[e.i]
    case Fresh(op, r) => !e.ok && op.fid in s.refs && s.refs[op.fid] != r && Used(s, s.refs[op.fid])
    case Undo(fid, r) => fid in s.refs && s.refs[fid] != r && Used(s, s.refs[fid])
    case _ => false
  }

  // ---------------------------------------------------------------- facts of every run

  ghost predicate Injective(refs: map<nat, nat>) {
    forall f, g :: f in refs && g in refs && f != g ==> refs[f] != refs[g]
  }

  /** What a thread published is in the table, if at all, under the fid it published it for. */
  predicate Under(pc: Pc, refs: map<nat, nat>, f: nat)
    requires f in refs
  {
    match pc
    case Fresh(op, r) => refs[f] == r ==> f == op.fid
    case Reserved(op, _, n) => op.OpWalk? && (refs[f] == n ==> f == op.newfid)
    case Undo(fid, n) => refs[f] == n ==> f == fid
    case _ => true
  }

  ghost predicate Published(threads: map<nat, Pc>, refs: map<nat, nat>) {
    forall i, f :: i in threads && f in refs ==> Under(threads[i], refs, f)
  }

  /** What is about to be deleted is no longer in the table. */
  ghost predicate Gone(threads: map<nat, Pc>, refs: map<nat, nat>) {
    forall i, f :: i in threads && f in refs ==> !Deletes(threads[i], refs[f])
  }

  /** A live Dirent belongs to an SFid or is on its way to one. */
  ghost predicate Placed(s: State, d: nat) {
    || (exists r :: 0 <= r < |s.sfids| && s.sfids[r].ent == Some(d))
    || (exists i :: i in s.threads && Carries(s.threads[i], d))
  }

  predicate Carries(pc: Pc, d: nat) {
    pc.Moved? && pc.d == d
  }

  ghost predicate AllPlaced(s: State) {
    forall d: nat :: d < |s.dirents| && s.dirents[d].Live? ==> Placed(s, d)
  }

  ghost predicate Base(s: State) {
    Injective(s.refs) && Published(s.threads, s.refs) && Gone(s.threads, s.refs)
  }

  /** Thread i moves to `pc` and at most one entry leaves the table. */
  lemma BaseShrink(s: State, s': State, i: nat, pc: Pc)
    requires Base(s) && s'.threads == s.threads[i := pc]
    requires forall f :: f in s'.refs ==> f in s.refs && s'.refs[f] == s.refs[f]
    requires forall f :: f in s'.refs ==> Under(pc, s'.refs, f) && !Deletes(pc, s'.refs[f])
    ensures Base(s')
  {
    hide Deletes;
    forall j, f | j in s'.threads && f in s'.refs
      ensures Under(s'.threads[j], s'.refs, f) && !Deletes(s'.threads[j], s'.refs[f])
    {
      if j != i {
        assert Under(s.threads[j], s.refs, f);
      }
    }
  }

  /** Thread i publishes a new SFid. */
  lemma BasePublish(s: State, s': State, i: nat, fid: nat, pc: Pc)
    requires Base(s) && Bounds(s) && fid !in s.refs && s' == Go(Publish(s, i, fid), i, pc)
    requires forall f :: f in s'.refs ==> Under(pc, s'.refs, f) && !Deletes(pc, s'.refs[f])
    ensures Base(s')
  {
    forall j, f | j in s'.threads && f in s'.refs
      ensures Under(s'.threads[j], s'.refs, f) && !Deletes(s'.threads[j], s'.refs[f])
    {
      if j != i {
        assert PcBounds(s.threads[j], |s.sfids|, |s.dirents|);
        if f != fid {
          assert Under(s.threads[j], s.refs, f) && !Deletes(s.threads[j], s.refs[f]);
        }
      }
    }
  }

  lemma BaseKeeps(s: State, e: Event, s': State)
    requires Inv(s) && Base(s) && Next(s, e, s')
    ensures Base(s')
  {
    hide Locks, Owned, CallsOk, StepReady, StepStart, Base;
    match e {
      case Spawn(i, op) => BaseShrink(s, s', i, Start(op));
      case Move(i, ok) =>
        match s.threads[i] {
          case Start(op) => StartBase(s, i, op);
          case Ready(op, r) => ReadyBase(s, i, op, r, ok);
          case _ => OtherBase(s, i, ok, s');
        }
    }
  }

  lemma StartBase(s: State, i: nat, op: Op)
    requires Bounds(s) && Base(s) && i in s.threads && s.threads[i] == Start(op)
    ensures Base(StepStart(s, i, op))
  {
    var s' := StepStart(s, i, op);
    if op.OpAttach? && op.fid != NOFID && op.fid !in s.refs {
      BasePublish(s, s', i, op.fid, Fresh(op, |s.sfids|));
    } else {
      BaseShrink(s, s', i, s'.threads[i]);
    }
  }

  lemma ReadyBase(s: State, i: nat, op: Op, r: nat, ok: bool)
    requires Bounds(s) && Base(s) && i in s.threads && s.threads[i] == Ready(op, r) && r < |s.sfids| &&
             s.sfids[r].ent.Some?
    ensures s.sfids[r].ent.value < |s.dirents| && Base(StepReady(s, i, op, r, s.sfids[r].ent.value, ok))
  {
    assert PcBounds(s.threads[i], |s.sfids|, |s.dirents|);
    hide Base;
    var s' := StepReady(s, i, op, r, s.sfids[r].ent.value, ok);
    if op.OpWalk? && op.newfid != op.fid && op.newfid != NOFID && op.newfid !in s.refs {
      BasePublish(s, s', i, op.newfid, Reserved(op, r, |s.sfids|));
    } else {
      BaseShrink(s, s', i, Leaving(r));
    }
  }

  lemma OtherBase(s: State, i: nat, ok: bool, s': State)
    requires Bounds(s) && Base(s) && Next(s, Move(i, ok), s') && !s.threads[i].Start? && !s.threads[i].Ready?
    ensures Base(s')
  {
    hide StepReady, StepStart, Base, Bounds;
    BaseAt(s, i);
    match s.threads[i] {
      case Loaded(op, r) => BaseShrink(s, s', i, Locked(op, r));
      case Locked(op, r) =>
        assert s'.threads[i] == Leaving(r) || s'.threads[i] == Ready(op, r);
        BaseShrink(s, s', i, s'.threads[i]);
      case Fresh(op, r) => BaseShrink(s, s', i, Leaving(r));
      case Reserved(op, r, n) => BaseShrink(s, s', i, if ok then Moved(n, |s.dirents|) else Undo(op.newfid, n));
      case Moved(n, d) => BaseShrink(s, s', i, Leaving(n));
      case Undo(fid, n) => BaseShrink(s, s', i, Leaving(n));
      case Leaving(r) => BaseShrink(s, s', i, Done);
    }
  }

  lemma BaseAt(s: State, i: nat)
    requires Base(s) && i in s.threads
    ensures forall f :: f in s.refs ==> Under(s.threads[i], s.refs, f) && !Deletes(s.threads[i], s.refs[f])
  {
    hide Under, Deletes;
  }

  lemma PlacedKeeps(s: State, e: Event, s': State)
    requires Inv(s) && AllPlaced(s) && Next(s, e, s')
    ensures AllPlaced(s')
  {
    hide Inv, Placed;
    forall d: nat | d < |s'.dirents| && s'.dirents[d].Live? ensures Placed(s', d) {
      PlacedStep(s, e, s', d);
    }
  }

  /** A Dirent stays where it is: with its SFid or its carrier. */
  lemma PlacedStays(s: State, s': State, d: nat)
    requires Placed(s, d) && |s.sfids| <= |s'.sfids|
    requires forall r :: 0 <= r < |s.sfids| && s.sfids[r].ent == Some(d) ==> s'.sfids[r].ent == Some(d)
    requires forall j :: j in s.threads && Carries(s.threads[j], d) ==> j in s'.threads && s'.threads[j] == s.threads[j]
    ensures Placed(s', d)
  {
    if r :| 0 <= r < |s.sfids| && s.sfids[r].ent == Some(d) {
      assert s'.sfids[r].ent == Some(d);
    } else {
      var j :| j in s.threads && Carries(s.threads[j], d);
      assert Carries(s'.threads[j], d);
    }
  }

  lemma PlacedStep(s: State, e: Event, s': State, d: nat)
    requires Inv(s) && Next(s, e, s') && d < |s'.dirents| && s'.dirents[d].Live?
    requires d < |s.dirents| && s.dirents[d].Live? ==> Placed(s, d)
    ensures Placed(s', d)
  {
    hide Placed, CallsOk, TransitOk, StepReady, StepStart;
    match e {
      case Spawn(i, op) => PlacedStays(s, s', d);
      case Move(i, ok) =>
        assert PcOk(s.threads[i], i, s.sfids);
        match s.threads[i] {
          case Start(op) => PlacedStart(s, i, op, d);
          case Ready(op, r) => PlacedReady(s, i, op, r, ok, d);
          case _ => PlacedOther(s, i, ok, s', d);
        }
    }
  }

  lemma PlacedStart(s: State, i: nat, op: Op, d: nat)
    requires d < |s.dirents| && s.dirents[d].Live? ==> Placed(s, d)
    requires i in s.threads && s.threads[i] == Start(op)
    requires var s' := StepStart(s, i, op); d < |s'.dirents| && s'.dirents[d].Live?
    ensures Placed(StepStart(s, i, op), d)
  {
    hide Placed;
    PlacedStays(s, StepStart(s, i, op), d);
  }

  /** The SFid now has the Dirent. */
  lemma PlacedAt(s: State, r: nat, d: nat)
    requires r < |s.sfids| && s.sfids[r].ent == Some(d)
    ensures Placed(s, d)
  {
  }

  lemma PlacedReady(s: State, i: nat, op: Op, r: nat, ok: bool, d: nat)
    requires Inv(s) && i in s.threads && s.threads[i] == Ready(op, r) && r < |s.sfids| && s.sfids[r].ent.Some?
    requires d < |s.dirents| && s.dirents[d].Live? ==> Placed(s, d)
    requires s.sfids[r].ent.value < |s.dirents|
    requires var s' := StepReady(s, i, op, r, s.sfids[r].ent.value, ok); d < |s'.dirents| && s'.dirents[d].Live?
    ensures Placed(StepReady(s, i, op, r, s.sfids[r].ent.value, ok), d)
  {
    hide Placed, CallsOk, TransitOk, Locks;
    var s' := StepReady(s, i, op, r, s.sfids[r].ent.value, ok);
    if d == |s.dirents| {
      PlacedAt(s', r, d);
    } else {
      PlacedStays(s, s', d);
    }
  }

  lemma PlacedOther(s: State, i: nat, ok: bool, s': State, d: nat)
    requires Inv(s) && Next(s, Move(i, ok), s') && !s.threads[i].Start? && !s.threads[i].Ready?
    requires d < |s'.dirents| && s'.dirents[d].Live? && (d < |s.dirents| ==> Placed(s, d))
    ensures Placed(s', d)
  {
    hide Placed, CallsOk, TransitOk, StepReady, StepStart;
    assert PcOk(s.threads[i], i, s.sfids);
    match s.threads[i] {
      case Fresh(_, r) =>
        if d == |s.dirents| {
          PlacedAt(s', r, d);
        } else {
          PlacedStays(s, s', d);
        }
      case Reserved(_, _, _) =>
        if d == |s.dirents| {
          Carried(s', i, d);
        } else {
          PlacedStays(s, s', d);
        }
      case Moved(n, d') =>
        if d == d' {
          PlacedAt(s', n, d);
        } else {
          PlacedStays(s, s', d);
        }
      case _ => PlacedStays(s, s', d);
    }
  }

  lemma Carried(s: State, i: nat, d: nat)
    requires i in s.threads && Carries(s.threads[i], d)
    ensures Placed(s, d)
  {
  }

  // ---------------------------------------------------------------- when an entry is lost

  /** Whoever leaves an SFid without a Dirent is the only one that could have filled it. */
  lemma LeftEmpty(s: State, i: nat, r: nat)
    requires Inv(s) && i in s.threads && s.threads[i] == Leaving(r) && r < |s.sfids| && s.sfids[r].ent.None?
    ensures !Used(s, r)
  {
    hide CallsOk, Owned;
    assert PcOk(s.threads[i], i, s.sfids);
    forall j | j in s.threads ensures !Fills(s.threads[j], r) {
      assert PcOk(s.threads[j], j, s.sfids);
    }
  }

  /** An SFid that is used after a step was used before, or has just been published. */
  lemma UsedBefore(s: State, e: Event, s': State, r: nat)
    requires Inv(s) && Next(s, e, s') && Used(s', r)
    ensures Used(s, r) || (r == |s.sfids| && InTable(s'.refs, r))
  {
    hide CallsOk, Owned, StepReady, StepStart;
    match e {
      case Spawn(i, op) => AwaitedBefore(s, s', i, r);
      case Move(i, ok) =>
        assert PcOk(s.threads[i], i, s.sfids);
        match s.threads[i] {
          case Start(op) => UsedStart(s, i, op, r);
          case Ready(op, q) => UsedReady(s, i, op, q, ok, r);
          case _ => UsedOther(s, i, ok, s', r);
        }
    }
  }

  lemma AwaitedBefore(s: State, s': State, i: nat, r: nat)
    requires s'.threads.Keys == s.threads.Keys + {i} &&
             (i in s'.threads ==> Fills(s'.threads[i], r) ==> i in s.threads && Fills(s.threads[i], r))
    requires forall j :: j in s.threads && j != i ==> s'.threads[j] == s.threads[j]
    ensures Awaited(s'.threads, r) ==> Awaited(s.threads, r)
  {
    if Awaited(s'.threads, r) {
      var j :| j in s'.threads && Fills(s'.threads[j], r);
      assert j in s.threads && Fills(s.threads[j], r);
    }
  }

  lemma UsedStart(s: State, i: nat, op: Op, r: nat)
    requires i in s.threads && s.threads[i] == Start(op) && Used(StepStart(s, i, op), r)
    ensures Used(s, r) || (r == |s.sfids| && InTable(StepStart(s, i, op).refs, r))
  {
    hide Awaited, InTable;
    var s' := StepStart(s, i, op);
    if r == |s.sfids| {
      PublishedIn(s'.refs, op.fid);
    } else {
      AwaitedBefore(s, s', i, r);
    }
  }

  lemma PublishedIn(refs: map<nat, nat>, f: nat)
    requires f in refs
    ensures InTable(refs, refs[f])
  {
  }

  lemma UsedReady(s: State, i: nat, op: Op, q: nat, ok: bool, r: nat)
    requires i in s.threads && s.threads[i] == Ready(op, q) && q < |s.sfids| && s.sfids[q].ent.Some?
    requires s.sfids[q].ent.value < |s.dirents|
    requires Used(StepReady(s, i, op, q, s.sfids[q].ent.value, ok), r)
    ensures Used(s, r) || (r == |s.sfids| && InTable(StepReady(s, i, op, q, s.sfids[q].ent.value, ok).refs, r))
  {
    hide Awaited, InTable;
    var s' := StepReady(s, i, op, q, s.sfids[q].ent.value, ok);
    if r == |s.sfids| {
      PublishedIn(s'.refs, op.newfid);
    } else {
      AwaitedBefore(s, s', i, r);
    }
  }

  lemma UsedOther(s: State, i: nat, ok: bool, s': State, r: nat)
    requires Inv(s) && Next(s, Move(i, ok), s') && !s.threads[i].Start? && !s.threads[i].Ready? && Used(s', r)
    ensures Used(s, r)
  {
    hide CallsOk, Owned, StepReady, StepStart, Awaited, Locks;
    AwaitedBefore(s, s', i, r);
    if r < |s.sfids| && s'.sfids[r].ent != s.sfids[r].ent {
      FillerAwaits(s, i, r);
    }
  }

  lemma FillerAwaits(s: State, i: nat, r: nat)
    requires i in s.threads && Fills(s.threads[i], r)
    ensures Awaited(s.threads, r)
  {
  }

  /** The table entry of `r` stays, or the thread that took it out is about to delete `r`, or nothing
      will come of `r`, unless it was taken out by mistake. */
  lemma EntryStays(s: State, e: Event, s': State, r: nat)
    requires Inv(s) && Inv(s') && Base(s) && Next(s, e, s') && !ForeignDelete(s, e)
    requires InTable(s.refs, r) && Used(s, r) && Used(s', r)
    ensures InTable(s'.refs, r) || Doomed(s'.threads, r)
  {
    hide Inv, Used;
    var f :| f in s.refs && s.refs[f] == r;
    if f in s'.refs && s'.refs[f] == r {
    } else {
      TakenOut(s, e, s', f, r);
    }
  }

  lemma TakenOut(s: State, e: Event, s': State, f: nat, r: nat)
    requires Inv(s) && Inv(s') && Base(s) && Next(s, e, s') && !ForeignDelete(s, e) && Used(s, r) && Used(s', r)
    requires f in s.refs && s.refs[f] == r && (f !in s'.refs || s'.refs[f] != r)
    ensures Doomed(s'.threads, r)
  {
    hide CallsOk, Owned, Base, Used, Doomed;
    var i := e.i;
    assert PcOk(s.threads[i], i, s.sfids);
    match s.threads[i] {
      case Start(op) => DoomedBy(s', i, r);
      case Fresh(op, n) => LeftEmpty(s', i, n);
      case Undo(fid, n) => LeftEmpty(s', i, n);
      case _ =>
    }
  }

  lemma DoomedBy(s: State, i: nat, r: nat)
    requires i in s.threads && Deletes(s.threads[i], r)
    ensures Doomed(s.threads, r)
  {
  }

  /** A call that is about to delete `r` goes on to do so. */
  lemma DoomStays(s: State, e: Event, s': State, r: nat)
    requires Inv(s) && Inv(s') && Next(s, e, s') && Doomed(s.threads, r) && Used(s', r)
    ensures Doomed(s'.threads, r)
  {
    hide Inv, Used, Next;
    var j :| j in s.threads && Deletes(s.threads[j], r);
    if e.Move? && e.i == j {
      DeleterSteps(s, e, s', r);
    } else {
      OthersStay(s, e, s', j);
    }
  }

  lemma OthersStay(s: State, e: Event, s': State, j: nat)
    requires Next(s, e, s') && j in s.threads && (e.Spawn? || e.i != j)
    ensures j in s'.threads && s'.threads[j] == s.threads[j]
  {
    hide Bounds, StepReady, StepStart;
    if e.Move? && s.threads[e.i].Ready? {
      OthersReady(s, e.i, e.ok, j);
    }
    if e.Move? && s.threads[e.i].Start? {
      OthersStart(s, e.i, s.threads[e.i].op, j);
    }
  }

  lemma OthersStart(s: State, i: nat, op: Op, j: nat)
    requires j in s.threads && i != j
    ensures var s' := StepStart(s, i, op); j in s'.threads && s'.threads[j] == s.threads[j]
  {
  }

  lemma OthersReady(s: State, i: nat, ok: bool, j: nat)
    requires Bounds(s) && i in s.threads && s.threads[i].Ready? && Step(s, i, ok).Some? && j in s.threads && i != j
    ensures var s' := Step(s, i, ok).value; j in s'.threads && s'.threads[j] == s.threads[j]
  {
    hide StepStart;
  }

  lemma DeleterSteps(s: State, e: Event, s': State, r: nat)
    requires Inv(s) && Inv(s') && Next(s, e, s') && e.Move? && Deletes(s.threads[e.i], r) && Used(s', r)
    ensures Doomed(s'.threads, r)
  {
    hide CallsOk, Owned, Locks, Used, Doomed, StepStart;
    var i := e.i;
    match s.threads[i] {
      case Loaded(op, n) => DoomedBy(s', i, r);
      case Locked(op, n) =>
        if s.sfids[n].ent.None? {
          LeftEmpty(s', i, n);
        } else {
          DoomedBy(s', i, r);
        }
      case Ready(op, n) => LeftEmpty(s', i, n);
    }
  }

  lemma TrackedKeeps(s: State, e: Event, s': State)
    requires Inv(s) && Base(s) && Tracked(s) && Next(s, e, s') && !ForeignDelete(s, e)
    ensures Tracked(s')
  {
    hide Inv, Base, Used, InTable, Doomed, ForeignDelete;
    NextKeeps(s, e, s');
    forall r: nat | Used(s', r) ensures InTable(s'.refs, r) || Doomed(s'.threads, r) {
      UsedBefore(s, e, s', r);
      if Used(s, r) {
        if InTable(s.refs, r) {
          EntryStays(s, e, s', r);
        } else {
          DoomStays(s, e, s', r);
        }
      }
    }
  }

  /** The SFid is used, and neither the table nor a deleting call leads to it. */
  ghost predicate Stranded(s: State, r: nat) {
    Used(s, r) && !InTable(s.refs, r) && !Doomed(s.threads, r)
  }

  lemma ForeignDeleteStrands(s: State, e: Event, s': State) returns (r: nat)
    requires Inv(s) && Base(s) && Next(s, e, s') && ForeignDelete(s, e)
    ensures Stranded(s', r) && !Tracked(s')
  {
    hide CallsOk, Owned, Locks, StepReady, StepStart;
    var i := e.i;
    var f := match s.threads[i] { case Fresh(op, _) => op.fid case Undo(fid, _) => fid };
    r := s.refs[f];
    if Awaited(s.threads, r) {
      var j :| j in s.threads && Fills(s.threads[j], r);
      assert Fills(s'.threads[j], r);
    }
  }

  /** The condition is exact: from a state in which everything is tracked, a step loses something if
      and only if it takes another call's entry out of the table. */
  lemma LosesIffForeign(s: State, e: Event, s': State)
    requires Inv(s) && Base(s) && Tracked(s) && Next(s, e, s')
    ensures Tracked(s') <==> !ForeignDelete(s, e)
  {
    hide Inv, Base, Tracked, ForeignDelete;
    if ForeignDelete(s, e) {
      var r := ForeignDeleteStrands(s, e, s');
    } else {
      TrackedKeeps(s, e, s');
    }
  }

  // ---------------------------------------------------------------- over runs

  lemma {:induction false} RunBase(es: seq<Event>, ss: seq<State>, n: nat)
    requires Run(es, ss) && n <= |es|
    ensures Inv(ss[n]) && Base(ss[n]) && AllPlaced(ss[n])
  {
    hide Inv, Base, AllPlaced, Next;
    RunKeeps(es, ss, n);
    if n == 0 {
      StartsTracked();
    } else {
      RunBase(es, ss, n - 1);
      assert Next(ss[n - 1], es[n - 1], ss[n]);
      BaseKeeps(ss[n - 1], es[n - 1], ss[n]);
      PlacedKeeps(ss[n - 1], es[n - 1], ss[n]);
    }
  }

  lemma StartsTracked()
    ensures Base(INIT) && AllPlaced(INIT) && Tracked(INIT)
  {
  }

  lemma {:induction false} RunTracked(es: seq<Event>, ss: seq<State>, n: nat)
    requires Run(es, ss) && n <= |es| && forall k :: 0 <= k < n ==> !ForeignDelete(ss[k], es[k])
    ensures Tracked(ss[n])
  {
    hide Inv, Base, Tracked, ForeignDelete, Next;
    if n == 0 {
      StartsTracked();
    } else {
      RunTracked(es, ss, n - 1);
      RunBase(es, ss, n - 1);
      assert Next(ss[n - 1], es[n - 1], ss[n]);
      TrackedKeeps(ss[n - 1], es[n - 1], ss[n]);
    }
  }

  /** Over every run: everything stays tracked if and only if no step takes another call's entry out of
      the table. */
  lemma TrackedIffNoForeign(es: seq<Event>, ss: seq<State>, n: nat)
    requires Run(es, ss) && n <= |es|
    ensures (forall k :: 0 <= k <= n ==> Tracked(ss[k])) <==> (forall k :: 0 <= k < n ==> !ForeignDelete(ss[k], es[k]))
  {
    hide Inv, Base, Tracked, ForeignDelete, Next;
    if forall k :: 0 <= k < n ==> !ForeignDelete(ss[k], es[k]) {
      forall k | 0 <= k <= n ensures Tracked(ss[k]) {
        RunTracked(es, ss, k);
      }
    } else {
      var k :| 0 <= k < n && ForeignDelete(ss[k], es[k]);
      RunBase(es, ss, k);
      assert Next(ss[k], es[k], ss[k + 1]);
      var r := ForeignDeleteStrands(ss[k], es[k], ss[k + 1]);
    }
  }

  /** The Dirent can be reached by a fid, or a call is about to link it or to give it up. */
  ghost predicate Anchored(s: State, d: nat) {
    || (exists f :: f in s.refs && HasEnt(s, s.refs[f], d))
    || (exists i :: i in s.threads && Carries(s.threads[i], d))
    || (exists i, r: nat :: i in s.threads && Deletes(s.threads[i], r) && HasEnt(s, r, d))
  }

  predicate HasEnt(s: State, r: nat, d: nat) {
    r < |s.sfids| && s.sfids[r].ent == Some(d)
  }

  /** As long as no step does so, every live Dirent is in the table or in the hands of a call. */
  lemma NothingLost(es: seq<Event>, ss: seq<State>, n: nat, d: nat)
    requires Run(es, ss) && n <= |es| && forall k :: 0 <= k < n ==> !ForeignDelete(ss[k], es[k])
    requires d < |ss[n].dirents| && ss[n].dirents[d].Live?
    ensures Anchored(ss[n], d)
  {
    hide Inv, Base, ForeignDelete, Next;
    RunBase(es, ss, n);
    RunTracked(es, ss, n);
    var s := ss[n];
    assert Placed(s, d);
    if r :| 0 <= r < |s.sfids| && s.sfids[r].ent == Some(d) {
      assert Used(s, r) && HasEnt(s, r, d);
    }
  }

  lemma LostStays(s: State, e: Event, s': State, r: nat)
    requires Inv(s) && Next(s, e, s') && r < |s.sfids| && !InTable(s.refs, r) && !Doomed(s.threads, r)
    ensures r < |s'.sfids| && !InTable(s'.refs, r) && !Doomed(s'.threads, r)
    ensures s.sfids[r].ent.Some? ==> s'.sfids[r].ent.Some?
  {
    hide CallsOk, Owned, Locks, StepReady, StepStart;
    match e {
      case Spawn(_, _) =>
      case Move(i, ok) =>
        assert !Deletes(s.threads[i], r);
        match s.threads[i] {
          case Start(op) => LostStart(s, i, op, r);
          case Ready(op, q) => LostReady(s, i, op, q, ok, r);
          case _ =>
        }
    }
  }

  lemma LostStart(s: State, i: nat, op: Op, r: nat)
    requires r < |s.sfids| && !InTable(s.refs, r) && !Doomed(s.threads, r) && i in s.threads
    ensures var s' := StepStart(s, i, op);
            r < |s'.sfids| && s'.sfids[r] == s.sfids[r] && !InTable(s'.refs, r) && !Doomed(s'.threads, r)
  {
  }

  lemma LostReady(s: State, i: nat, op: Op, q: nat, ok: bool, r: nat)
    requires r < |s.sfids| && !InTable(s.refs, r) && !Doomed(s.threads, r) && i in s.threads
    requires s.threads[i] == Ready(op, q) && q < |s.sfids| && s.sfids[q].ent.Some? && s.sfids[q].ent.value < |s.dirents|
    requires !op.OpAttach?
    ensures var s' := StepReady(s, i, op, q, s.sfids[q].ent.value, ok);
            && r < |s'.sfids| && !InTable(s'.refs, r) && !Doomed(s'.threads, r)
            && (s.sfids[r].ent.Some? ==> s'.sfids[r].ent.Some?)
  {
    assert !Deletes(s.threads[i], r);
  }

  /** And what is lost with a Dirent stays so: no fid names it and no call deletes it ever again, while
      it keeps a live Dirent. */
  lemma {:induction false} LostForever(es: seq<Event>, ss: seq<State>, m: nat, n: nat, r: nat)
    requires Run(es, ss) && m <= n <= |es| && Stranded(ss[m], r) && ss[m].sfids[r].ent.Some?
    ensures Stranded(ss[n], r) && ss[n].sfids[r].ent.Some?
    ensures var d := ss[n].sfids[r].ent.value; d < |ss[n].dirents| && ss[n].dirents[d].Live?
    decreases n
  {
    hide InTable, Doomed, Awaited, Next;
    RunKeeps(es, ss, n);
    if m < n {
      LostForever(es, ss, m, n - 1, r);
      RunKeeps(es, ss, n - 1);
      assert Next(ss[n - 1], es[n - 1], ss[n]);
      hide Inv;
      LostStays(ss[n - 1], es[n - 1], ss[n], r);
    }
  }

  // ---------------------------------------------------------------- a run that gets there

  /** Attach publishes fid 7; a Clunk takes it out and waits; a second Attach publishes fid 7 again and
      succeeds; the first fails and takes the second's entry out.  In the end every call is over, the
      table is empty, and a Dirent is still live. */
  lemma LostRun() returns (es: seq<Event>, ss: seq<State>)
    ensures Run(es, ss) && |ss| == |es| + 1
    ensures var s := ss[|es|];
            && s.refs == map[] && s.dirents == [Live] && !Anchored(s, 0)
            && forall i :: i in s.threads ==> s.threads[i] == Done
  {
    hide Run, Inv;
    var a := OpAttach(7);
    es, ss := AttachPublished(a);
    es, ss := ClunkWaits(es, ss);
    es, ss := SecondAttach(es, ss);
    es, ss := FirstFails(es, ss);
    RunLength(es, ss);
  }

  lemma RunLength(es: seq<Event>, ss: seq<State>)
    requires Run(es, ss)
    ensures |ss| == |es| + 1 && Last(ss) == ss[|es|]
  {
  }

  lemma InvBounds(s: State)
    requires Inv(s)
    ensures Bounds(s)
  {
  }

  const LOCKED0 := SFid(None, None, Some(0))

  lemma ClunkWaits(es: seq<Event>, ss: seq<State>) returns (es': seq<Event>, ss': seq<State>)
    requires Run(es, ss) && Inv(Last(ss))
    requires Last(ss) == State(map[7 := 0], [LOCKED0], [], map[0 := Fresh(OpAttach(7), 0)], [], [])
    ensures Run(es', ss') && Inv(Last(ss')) && Bounds(Last(ss'))
    ensures Last(ss') == State(map[], [LOCKED0], [], map[0 := Fresh(OpAttach(7), 0), 1 := Loaded(OpDel(7), 0)], [], [])
  {
    hide Run, Inv, Bounds, StepReady;
    var s1 := Go(Last(ss), 1, Start(OpDel(7)));
    es', ss' := Extend(es, ss, Spawn(1, OpDel(7)), s1);
    es', ss' := Extend(es', ss', Move(1, true), Go(s1.(refs := map[]), 1, Loaded(OpDel(7), 0)));
  }

  lemma SecondAttach(es: seq<Event>, ss: seq<State>) returns (es': seq<Event>, ss': seq<State>)
    requires Run(es, ss) && Inv(Last(ss))
    requires Last(ss) == State(map[], [LOCKED0], [], map[0 := Fresh(OpAttach(7), 0), 1 := Loaded(OpDel(7), 0)], [], [])
    ensures Run(es', ss') && Inv(Last(ss')) && Bounds(Last(ss'))
    ensures Last(ss') == State(map[7 := 1], [LOCKED0, SFid(Some(0), None, None)], [Live],
                               map[0 := Fresh(OpAttach(7), 0), 1 := Loaded(OpDel(7), 0), 2 := Done], [], [])
  {
    hide Run, Inv, Bounds, StepReady;
    var a := OpAttach(7);
    var s1 := Go(Last(ss), 2, Start(a));
    es', ss' := Extend(es, ss, Spawn(2, a), s1);
    var s2 := Go(Publish(s1, 2, 7), 2, Fresh(a, 1));
    es', ss' := Extend(es', ss', Move(2, true), s2);
    var s3 := Go(SetFid(NewDirent(s2), 1, SFid(Some(0), None, Some(2))), 2, Leaving(1));
    es', ss' := Extend(es', ss', Move(2, true), s3);
    es', ss' := Extend(es', ss', Move(2, true), Go(Unlock(s3, 1), 2, Done));
  }

  lemma FirstFails(es: seq<Event>, ss: seq<State>) returns (es': seq<Event>, ss': seq<State>)
    requires Run(es, ss) && Inv(Last(ss))
    requires Last(ss) == State(map[7 := 1], [LOCKED0, SFid(Some(0), None, None)], [Live],
                               map[0 := Fresh(OpAttach(7), 0), 1 := Loaded(OpDel(7), 0), 2 := Done], [], [])
    ensures Run(es', ss')
    ensures Last(ss') == State(map[], [SFid(None, None, None), SFid(Some(0), None, None)], [Live],
                               map[0 := Done, 1 := Done, 2 := Done], [], [])
  {
    hide Run, Inv, Bounds, StepReady, StepStart;
    var s := Last(ss);
    var s1 := Go(s.(refs := s.refs - {7}), 0, Leaving(0));
    assert Bounds(s) by { InvBounds(s); }
    assert s.threads[0] == Fresh(OpAttach(7), 0);
    assert Step(s, 0, false) == Some(s1);
    es', ss' := Extend(es, ss, Move(0, false), s1);
    assert s1.refs == map[];
    var s2 := Go(Unlock(s1, 0), 0, Done);
    es', ss' := Extend(es', ss', Move(0, true), s2);
    var s3 := Go(SetFid(s2, 0, SFid(None, None, Some(1))), 1, Locked(OpDel(7), 0));
    es', ss' := Extend(es', ss', Move(1, true), s3);
    var s4 := Go(s3, 1, Leaving(0));
    es', ss' := Extend(es', ss', Move(1, true), s4);
    es', ss' := Extend(es', ss', Move(1, true), Go(Unlock(s4, 0), 1, Done));
  }
}
