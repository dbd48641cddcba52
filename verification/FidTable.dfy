/** The server's fid table (sfilesys.go) under concurrent calls, before Stop.  Each call is a
    thread that takes one step at a time: look the fid up, take its lock, check that it still
    has a Dirent, act, unlock. */
module FidTable {
  import opened Common

  /** An SFid: its Dirent, the Dirent its open File came from, and who holds its lock. */
  datatype SFid = SFid(ent: Option<nat>, file: Option<nat>, lock: Option<nat>)

  datatype Use = Open | ReadWrite | Stat

  datatype Op =
    | OpAttach(fid: nat)
    | OpWalk(fid: nat, newfid: nat, names: bool)
    | OpUse(fid: nat, use: Use)
    | OpCreate(fid: nat)
    | OpDel(fid: nat)

  datatype Pc =
    | Start(op: Op)
    | Loaded(op: Op, ref: nat)                 // found in the table, lock not taken
    | Locked(op: Op, ref: nat)                 // lock taken, Ent not looked at
    | Ready(op: Op, ref: nat)                  // Ent seen
    | Fresh(op: Op, ref: nat)                  // Attach: new locked entry published
    | Reserved(op: Op, ref: nat, newref: nat)  // Walk: new locked entry published
    | Moved(newref: nat, d: nat)               // Walk: old lock released, result not linked
    | Undo(fid: nat, newref: nat)              // Walk: old lock released, entry to be deleted
    | Leaving(ref: nat)
    | Done

  datatype Status = Live | Consumed | Released

  /** A method call on a Dirent: an ordinary one, Create that hands its references over, or
      Clunk or Remove. */
  datatype Kind = Ordinary | Final

  datatype State = State(
    refs: map<nat, nat>,
    sfids: seq<SFid>,
    dirents: seq<Status>,
    threads: map<nat, Pc>,
    calls: seq<(nat, Kind)>,
    fileCalls: seq<(nat, bool)>)  // the Dirent the File came from, and whether it was live

  const INIT := State(map[], [], [], map[], [], [])

  // ---------------------------------------------------------------- the steps

  function Go(s: State, i: nat, pc: Pc): State {
    s.(threads := s.threads[i := pc])
  }

  function Call(s: State, d: nat, k: Kind): State {
    s.(calls := s.calls + [(d, k)])
  }

  function SetFid(s: State, r: nat, x: SFid): State
    requires r < |s.sfids|
  {
    s.(sfids := s.sfids[r := x])
  }

  /** Publishes a new SFid under `fid`, locked by thread i. */
  function Publish(s: State, i: nat, fid: nat): State {
    s.(refs := s.refs[fid := |s.sfids|], sfids := s.sfids + [SFid(None, None, Some(i))])
  }

  function NewDirent(s: State): State {
    s.(dirents := s.dirents + [Live])
  }

  function Retire(s: State, d: nat, st: Status): State
    requires d < |s.dirents|
  {
    Call(s.(dirents := s.dirents[d := st]), d, Final)
  }

  function Unlock(s: State, r: nat): State
    requires r < |s.sfids|
  {
    SetFid(s, r, s.sfids[r].(lock := None))
  }

  function StepStart(s: State, i: nat, op: Op): State {
    match op
    case OpAttach(fid) =>
      if fid == NOFID || fid in s.refs then Go(s, i, Done)
      else Go(Publish(s, i, fid), i, Fresh(op, |s.sfids|))
    case OpDel(fid) =>
      if fid !in s.refs then Go(s, i, Done)
      else Go(s.(refs := s.refs - {fid}), i, Loaded(op, s.refs[fid]))
    case _ =>
      if op.fid == NOFID || op.fid !in s.refs then Go(s, i, Done)
      else Go(s, i, Loaded(op, s.refs[op.fid]))
  }

  /** The part of a call that works on the Dirent `d` of the locked SFid `r`.  `ok` is whether
      the file system's method succeeds (for Walk: with all names found). */
  function StepReady(s: State, i: nat, op: Op, r: nat, d: nat, ok: bool): State
    requires r < |s.sfids| && d < |s.dirents|
  {
    var x := s.sfids[r];
    match op
    case OpUse(_, use) =>
      (match use
       case Stat => Go(Call(s, d, Ordinary), i, Leaving(r))
       case Open =>
         if x.file.Some? then Go(s, i, Leaving(r))
         else
           var s1 := Call(s, d, Ordinary);
           if ok then Go(SetFid(s1, r, x.(file := Some(d))), i, Leaving(r)) else Go(s1, i, Leaving(r))
       case ReadWrite =>
         if x.file.None? then Go(s, i, Leaving(r))
         else
           var f := x.file.value;
           var live := f < |s.dirents| && s.dirents[f].Live?;
           Go(s.(fileCalls := s.fileCalls + [(f, live)]), i, Leaving(r)))
    case OpCreate(_) =>
      if !ok then Go(Call(s, d, Ordinary), i, Leaving(r))
      else
        var n := |s.dirents|;
        Go(SetFid(NewDirent(Retire(s, d, Consumed)), r, x.(ent := Some(n), file := Some(n))), i, Leaving(r))
    case OpDel(_) =>
      Go(SetFid(Retire(s, d, Released), r, x.(ent := None)), i, Leaving(r))
    case OpWalk(fid, newfid, names) =>
      if newfid == fid then
        if !names then Go(s, i, Leaving(r))
        else
          var s1 := Call(s, d, Ordinary);
          if !ok then Go(s1, i, Leaving(r))
          else
            var n := |s.dirents|;
            // The old Dirent is clunked and the new one linked; File is left as it was.
            Go(SetFid(NewDirent(Retire(s1, d, Released)), r, x.(ent := Some(n))), i, Leaving(r))
      else if newfid == NOFID || newfid in s.refs then Go(s, i, Leaving(r))
      else Go(Publish(s, i, newfid), i, Reserved(op, r, |s.sfids|))
    case OpAttach(_) => s
  }

  /** One step of thread i; None when it cannot move. */
  function Step(s: State, i: nat, ok: bool): Option<State>
    requires Bounds(s)
  {
    if i !in s.threads then None
    else match s.threads[i]
      case Start(op) => Some(StepStart(s, i, op))
      case Loaded(op, r) =>
        if s.sfids[r].lock.Some? then None
        else Some(Go(SetFid(s, r, s.sfids[r].(lock := Some(i))), i, Locked(op, r)))
      case Locked(op, r) =>
        Some(Go(s, i, if s.sfids[r].ent.None? then Leaving(r) else Ready(op, r)))
      case Ready(op, r) =>
        if s.sfids[r].ent.None? then None
        else Some(StepReady(s, i, op, r, s.sfids[r].ent.value, ok))
      case Fresh(op, r) =>
        if ok then Some(Go(SetFid(NewDirent(s), r, s.sfids[r].(ent := Some(|s.dirents|))), i, Leaving(r)))
        else Some(Go(s.(refs := s.refs - {op.fid}), i, Leaving(r)))
      case Reserved(op, r, n) =>
        if s.sfids[r].ent.None? || !op.OpWalk? then None
        else
          var s1 := Call(s, s.sfids[r].ent.value, Ordinary);
          if ok then Some(Go(Unlock(NewDirent(s1), r), i, Moved(n, |s.dirents|)))
          else Some(Go(Unlock(s1, r), i, Undo(op.newfid, n)))
      case Moved(n, d) => Some(Go(SetFid(s, n, s.sfids[n].(ent := Some(d))), i, Leaving(n)))
      case Undo(fid, n) => Some(Go(s.(refs := s.refs - {fid}), i, Leaving(n)))
      case Leaving(r) => Some(Go(Unlock(s, r), i, Done))
      case Done => None
  }

  datatype Event = Spawn(i: nat, op: Op) | Move(i: nat, ok: bool)

  ghost predicate Next(s: State, e: Event, s': State) {
    match e
    case Spawn(i, op) => i !in s.threads && s' == Go(s, i, Start(op))
    case Move(i, ok) => Bounds(s) && Step(s, i, ok) == Some(s')
  }

  ghost predicate Run(es: seq<Event>, ss: seq<State>) {
    && |ss| == |es| + 1 && ss[0] == INIT
    && forall k :: 0 <= k < |es| ==> Next(ss[k], es[k], ss[k + 1])
  }

  // ---------------------------------------------------------------- invariant

  /** The SFids a thread at this point holds locked. */
  function Held(pc: Pc): set<nat> {
    match pc
    case Locked(_, r) => {r}
    case Ready(_, r) => {r}
    case Fresh(_, r) => {r}
    case Reserved(_, r, n) => {r, n}
    case Moved(n, _) => {n}
    case Undo(_, n) => {n}
    case Leaving(r) => {r}
    case _ => {}
  }

  /** References into the tables stay in range. */
  ghost predicate PcBounds(pc: Pc, sfids: nat, dirents: nat) {
    match pc
    case Start(_) => true
    case Loaded(op, r) => r < sfids && !op.OpAttach?
    case Locked(op, r) => r < sfids && !op.OpAttach?
    case Ready(op, r) => r < sfids && !op.OpAttach?
    case Fresh(op, r) => r < sfids && op.OpAttach?
    case Reserved(op, r, n) => r < sfids && n < sfids && r != n && op.OpWalk?
    case Moved(n, d) => n < sfids && d < dirents
    case Undo(_, n) => n < sfids
    case Leaving(r) => r < sfids
    case Done => true
  }

  ghost predicate EntBounds(sfids: seq<SFid>, dirents: nat) {
    forall r :: 0 <= r < |sfids| && sfids[r].ent.Some? ==> sfids[r].ent.value < dirents
  }

  ghost predicate RefBounds(refs: map<nat, nat>, sfids: nat) {
    forall f :: f in refs ==> refs[f] < sfids
  }

  ghost predicate ThreadBounds(threads: map<nat, Pc>, sfids: nat, dirents: nat) {
    forall i :: i in threads ==> PcBounds(threads[i], sfids, dirents)
  }

  ghost predicate Bounds(s: State) {
    && RefBounds(s.refs, |s.sfids|)
    && ThreadBounds(s.threads, |s.sfids|, |s.dirents|)
    && EntBounds(s.sfids, |s.dirents|)
  }

  predicate Blank(x: SFid) {
    x.ent.None? && x.file.None?
  }

  ghost predicate Mine(sfids: seq<SFid>, i: nat, r: nat) {
    r < |sfids| && sfids[r].lock == Some(i)
  }

  /** Whoever is past the lock holds it, and what it saw of Ent is still so. */
  ghost predicate PcOk(pc: Pc, i: nat, sfids: seq<SFid>) {
    match pc
    case Locked(_, r) => Mine(sfids, i, r)
    case Ready(_, r) => Mine(sfids, i, r) && sfids[r].ent.Some?
    case Fresh(_, n) => Mine(sfids, i, n) && Blank(sfids[n])
    case Reserved(_, r, n) => Mine(sfids, i, r) && Mine(sfids, i, n) && sfids[r].ent.Some? && Blank(sfids[n])
    case Moved(n, _) => Mine(sfids, i, n) && Blank(sfids[n])
    case Undo(_, n) => Mine(sfids, i, n) && Blank(sfids[n])
    case Leaving(r) => Mine(sfids, i, r)
    case _ => true
  }

  ghost predicate Locks(s: State) {
    forall i :: i in s.threads ==> PcOk(s.threads[i], i, s.sfids)
  }

  /** The Dirent of an SFid is live, and no other SFid has it. */
  ghost predicate EntsOk(sfids: seq<SFid>, dirents: seq<Status>) {
    && (forall r :: 0 <= r < |sfids| && sfids[r].ent.Some? ==>
          sfids[r].ent.value < |dirents| && dirents[sfids[r].ent.value].Live?)
    && (forall r, q :: 0 <= r < q < |sfids| && sfids[r].ent.Some? ==> sfids[r].ent != sfids[q].ent)
  }

  /** A Dirent on its way from a walk to its SFid is live and nobody else's. */
  ghost predicate TransitOk(threads: map<nat, Pc>, sfids: seq<SFid>, dirents: seq<Status>) {
    && (forall i :: i in threads && threads[i].Moved? ==> threads[i].d < |dirents| && dirents[threads[i].d].Live?)
    && (forall i, r :: i in threads && threads[i].Moved? && 0 <= r < |sfids| ==> sfids[r].ent != Some(threads[i].d))
    && (forall i, j :: i in threads && j in threads && i != j && threads[i].Moved? && threads[j].Moved? ==>
          threads[i].d != threads[j].d)
  }

  ghost predicate Owned(s: State) {
    EntsOk(s.sfids, s.dirents) && TransitOk(s.threads, s.sfids, s.dirents)
  }

  /** Retired Dirents are exactly the ones with a final call, and that call was the last. */
  ghost predicate CallsOk(s: State) {
    && (forall k :: 0 <= k < |s.calls| ==> s.calls[k].0 < |s.dirents|)
    && (forall k :: 0 <= k < |s.calls| && s.calls[k].1.Final? ==> !s.dirents[s.calls[k].0].Live?)
    && (forall k, m :: 0 <= k < m < |s.calls| && s.calls[k].1.Final? ==> s.calls[k].0 != s.calls[m].0)
  }

  ghost predicate Inv(s: State) {
    Bounds(s) && Locks(s) && Owned(s) && CallsOk(s)
  }

  // ---------------------------------------------------------------- each step keeps it

  /** What thread i may do to the table without disturbing the others: leave alone every SFid
      that another thread holds locked. */
  ghost predicate Respects(sfids: seq<SFid>, sfids': seq<SFid>, i: nat) {
    && |sfids| <= |sfids'|
    && forall r :: 0 <= r < |sfids| && sfids[r].lock.Some? && sfids[r].lock != Some(i) ==>
         sfids'[r] == sfids[r]
  }

  lemma OtherPc(pc: Pc, j: nat, sfids: seq<SFid>, sfids': seq<SFid>, i: nat)
    requires j != i && PcOk(pc, j, sfids) && Respects(sfids, sfids', i)
    ensures PcOk(pc, j, sfids')
  {
  }

  lemma MoreRoom(pc: Pc, a: nat, b: nat, a': nat, b': nat)
    requires PcBounds(pc, a, b) && a <= a' && b <= b'
    ensures PcBounds(pc, a', b')
  {
  }

  /** The part of the invariant about threads, after thread i moved to `pc`. */
  lemma ThreadsKeep(s: State, s': State, i: nat, pc: Pc)
    requires Bounds(s) && Locks(s) && s'.threads == s.threads[i := pc]
    requires Respects(s.sfids, s'.sfids, i) && |s.dirents| <= |s'.dirents|
    requires PcBounds(pc, |s'.sfids|, |s'.dirents|) && PcOk(pc, i, s'.sfids)
    ensures ThreadBounds(s'.threads, |s'.sfids|, |s'.dirents|) && Locks(s')
  {
    hide PcBounds, PcOk, Respects;
    forall j | j in s'.threads
      ensures PcBounds(s'.threads[j], |s'.sfids|, |s'.dirents|) && PcOk(s'.threads[j], j, s'.sfids)
    {
      if j != i {
        OtherPc(s.threads[j], j, s.sfids, s'.sfids, i);
        MoreRoom(s.threads[j], |s.sfids|, |s.dirents|, |s'.sfids|, |s'.dirents|) by {
          RespectsSize(s.sfids, s'.sfids, i);
        }
      }
    }
  }

  lemma RespectsSize(sfids: seq<SFid>, sfids': seq<SFid>, i: nat)
    requires Respects(sfids, sfids', i)
    ensures |sfids| <= |sfids'|
  {
  }

  /** A step that touches no Dirent and no Ent. */
  lemma QuietKeeps(s: State, s': State, i: nat, pc: Pc)
    requires Inv(s) && i in s.threads && !pc.Moved? && s'.threads == s.threads[i := pc]
    requires Respects(s.sfids, s'.sfids, i) && s'.dirents == s.dirents && s'.calls == s.calls
    requires |s'.sfids| == |s.sfids| && forall r :: 0 <= r < |s.sfids| ==> s'.sfids[r].ent == s.sfids[r].ent
    requires PcBounds(pc, |s'.sfids|, |s'.dirents|) && PcOk(pc, i, s'.sfids)
    requires RefBounds(s'.refs, |s'.sfids|)
    ensures Inv(s')
  {
    hide CallsOk, Respects, RefBounds, PcOk, PcBounds;
    ThreadsKeep(s, s', i, pc);
    CallsSame(s, s');
  }

  lemma CallsSame(s: State, s': State)
    requires CallsOk(s) && s'.dirents == s.dirents && s'.calls == s.calls
    ensures CallsOk(s')
  {
  }

  /** A new locked SFid without a Dirent. */
  lemma PublishKeeps(s: State, s': State, i: nat, fid: nat, pc: Pc)
    requires Inv(s) && i in s.threads && !pc.Moved? && s' == Go(Publish(s, i, fid), i, pc)
    requires PcBounds(pc, |s'.sfids|, |s'.dirents|) && PcOk(pc, i, s'.sfids)
    ensures Inv(s')
  {
    hide CallsOk, PcOk, PcBounds;
    assert Respects(s.sfids, s'.sfids, i);
    ThreadsKeep(s, s', i, pc);
    CallsSame(s, s');
  }

  /** An ordinary call on a live Dirent. */
  lemma CallKeeps(s: State, d: nat)
    requires Inv(s) && d < |s.dirents| && s.dirents[d].Live?
    ensures Inv(Call(s, d, Ordinary))
  {
    hide Bounds, Locks, Owned;
    var s' := Call(s, d, Ordinary);
    CallInv(s, s');
  }

  lemma CallInv(s: State, s': State)
    requires Bounds(s) && Locks(s) && Owned(s) && s' == s.(calls := s'.calls)
    ensures Bounds(s') && Locks(s') && Owned(s')
  {
  }

  lemma EntsFresh(sfids: seq<SFid>, dirents: seq<Status>, r: nat, x: SFid)
    requires EntsOk(sfids, dirents) && r < |sfids| && x.ent == Some(|dirents|)
    ensures EntsOk(sfids[r := x], dirents + [Live])
  {
  }

  lemma EntsDrop(sfids: seq<SFid>, dirents: seq<Status>, r: nat, x: SFid, st: Status)
    requires EntsOk(sfids, dirents) && r < |sfids| && sfids[r].ent.Some? && x.ent == None
    ensures EntsOk(sfids[r := x], dirents[sfids[r].ent.value := st])
  {
  }

  lemma TransitFresh(threads: map<nat, Pc>, sfids: seq<SFid>, dirents: seq<Status>, i: nat, pc: Pc, r: nat, x: SFid)
    requires TransitOk(threads, sfids, dirents) && !pc.Moved? && r < |sfids| && x.ent == Some(|dirents|)
    ensures TransitOk(threads[i := pc], sfids[r := x], dirents + [Live])
  {
  }

  lemma TransitDrop(threads: map<nat, Pc>, sfids: seq<SFid>, dirents: seq<Status>, i: nat, pc: Pc, r: nat, x: SFid,
                    st: Status)
    requires TransitOk(threads, sfids, dirents) && EntsOk(sfids, dirents) && !pc.Moved? && r < |sfids|
    requires sfids[r].ent.Some? && x.ent == None
    ensures TransitOk(threads[i := pc], sfids[r := x], dirents[sfids[r].ent.value := st])
  {
  }

  lemma CallsRetire(s: State, d: nat, st: Status)
    requires CallsOk(s) && d < |s.dirents| && s.dirents[d].Live? && !st.Live?
    ensures CallsOk(Retire(s, d, st))
  {
    assert forall k :: 0 <= k < |s.calls| && s.calls[k].1.Final? ==> s.calls[k].0 != d;
  }

  lemma CallsNew(s: State, s': State)
    requires CallsOk(s) && s'.calls == s.calls && s'.dirents == s.dirents + [Live]
    ensures CallsOk(s')
  {
  }

  lemma EntsBound(s: State)
    requires EntsOk(s.sfids, s.dirents)
    ensures EntBounds(s.sfids, |s.dirents|)
  {
  }

  /** A thread fills the Ent of an SFid it holds with a new Dirent, and leaves. */
  lemma FillKeeps(s: State, s': State, i: nat, r: nat, x: SFid)
    requires Inv(s) && i in s.threads && r < |s.sfids| && s.sfids[r].lock == Some(i)
    requires x.ent == Some(|s.dirents|) && x.lock == Some(i)
    requires s' == Go(SetFid(NewDirent(s), r, x), i, Leaving(r))
    ensures Inv(s')
  {
    hide CallsOk, EntsOk, TransitOk;
    assert Respects(s.sfids, s'.sfids, i);
    ThreadsKeep(s, s', i, Leaving(r));
    EntsFresh(s.sfids, s.dirents, r, x);
    TransitFresh(s.threads, s.sfids, s.dirents, i, Leaving(r), r, x);
    CallsNew(s, s');
    EntsBound(s');
  }

  /** A thread retires the Dirent of an SFid it holds. */
  lemma EmptyKeeps(s: State, s': State, i: nat, r: nat, x: SFid, st: Status)
    requires Inv(s) && i in s.threads && r < |s.sfids| && s.sfids[r].lock == Some(i) && s.sfids[r].ent.Some?
    requires x.ent == None && x.lock == Some(i) && !st.Live?
    requires s' == Go(SetFid(Retire(s, s.sfids[r].ent.value, st), r, x), i, Leaving(r))
    ensures Inv(s')
  {
    hide CallsOk, TransitOk;
    assert Respects(s.sfids, s'.sfids, i);
    ThreadsKeep(s, s', i, Leaving(r));
    EntsDrop(s.sfids, s.dirents, r, x, st);
    TransitDrop(s.threads, s.sfids, s.dirents, i, Leaving(r), r, x, st);
    var s1 := Retire(s, s.sfids[r].ent.value, st);
    CallsRetire(s, s.sfids[r].ent.value, st);
    CallsSame(s1, s');
    EntsBound(s');
  }

  /** A thread replaces the Dirent of an SFid it holds by a new one, retiring the old. */
  lemma ReplaceKeeps(s: State, s': State, i: nat, r: nat, x: SFid, st: Status)
    requires Inv(s) && i in s.threads && r < |s.sfids| && s.sfids[r].lock == Some(i) && s.sfids[r].ent.Some?
    requires x.ent == Some(|s.dirents|) && x.lock == Some(i) && !st.Live?
    requires s' == Go(SetFid(NewDirent(Retire(s, s.sfids[r].ent.value, st)), r, x), i, Leaving(r))
    ensures Inv(s')
  {
    var s1 := Go(SetFid(Retire(s, s.sfids[r].ent.value, st), r, x.(ent := None)), i, Leaving(r));
    hide Inv;
    EmptyKeeps(s, s1, i, r, x.(ent := None), st);
    FillKeeps(s1, s', i, r, x);
  }

  lemma UseKeeps(s: State, i: nat, op: Op, r: nat, ok: bool)
    requires Inv(s) && i in s.threads && s.threads[i] == Ready(op, r) && op.OpUse?
    requires r < |s.sfids| && s.sfids[r].ent.Some?
    ensures s.sfids[r].ent.value < |s.dirents| && Inv(StepReady(s, i, op, r, s.sfids[r].ent.value, ok))
  {
    hide CallsOk, TransitOk;
    var d := s.sfids[r].ent.value;
    var s' := StepReady(s, i, op, r, d, ok);
    CallKeeps(s, d);
    var s1 := if s'.calls == s.calls then s else Call(s, d, Ordinary);
    QuietKeeps(s1, s', i, Leaving(r));
  }

  lemma ReadyKeeps(s: State, i: nat, ok: bool)
    requires Inv(s) && i in s.threads && s.threads[i].Ready? && Step(s, i, ok).Some?
    ensures Inv(Step(s, i, ok).value)
  {
    hide CallsOk, TransitOk;
    var Ready(op, r) := s.threads[i];
    var d := s.sfids[r].ent.value;
    var s' := Step(s, i, ok).value;
    assert s.dirents[d].Live?;
    CallKeeps(s, d);
    match op {
      case OpUse(_, _) => UseKeeps(s, i, op, r, ok);
      case OpDel(_) => EmptyKeeps(s, s', i, r, s.sfids[r].(ent := None), Released);
      case OpCreate(_) =>
        if ok {
          ReplaceKeeps(s, s', i, r, s.sfids[r].(ent := Some(|s.dirents|), file := Some(|s.dirents|)), Consumed);
        } else {
          QuietKeeps(Call(s, d, Ordinary), s', i, Leaving(r));
        }
      case OpWalk(fid, newfid, names) => WalkKeeps(s, i, op, r, ok);
    }
  }

  lemma WalkKeeps(s: State, i: nat, op: Op, r: nat, ok: bool)
    requires Inv(s) && i in s.threads && s.threads[i] == Ready(op, r) && op.OpWalk?
    requires r < |s.sfids| && s.sfids[r].ent.Some?
    ensures s.sfids[r].ent.value < |s.dirents| && Inv(StepReady(s, i, op, r, s.sfids[r].ent.value, ok))
  {
    hide CallsOk, TransitOk;
    var d := s.sfids[r].ent.value;
    var s' := StepReady(s, i, op, r, d, ok);
    assert s.dirents[d].Live?;
    CallKeeps(s, d);
    if op.newfid != op.fid {
      if op.newfid == NOFID || op.newfid in s.refs {
        QuietKeeps(s, s', i, Leaving(r));
      } else {
        PublishKeeps(s, s', i, op.newfid, Reserved(op, r, |s.sfids|));
      }
    } else if !op.names {
      QuietKeeps(s, s', i, Leaving(r));
    } else if !ok {
      QuietKeeps(Call(s, d, Ordinary), s', i, Leaving(r));
    } else {
      ReplaceKeeps(Call(s, d, Ordinary), s', i, r, s.sfids[r].(ent := Some(|s.dirents|)), Released);
    }
  }

  lemma StartKeeps(s: State, i: nat, op: Op)
    requires Inv(s) && i in s.threads && s.threads[i] == Start(op)
    ensures Inv(StepStart(s, i, op))
  {
    hide CallsOk, TransitOk, EntsOk;
    var s' := StepStart(s, i, op);
    if op.OpAttach? && op.fid != NOFID && op.fid !in s.refs {
      PublishKeeps(s, s', i, op.fid, Fresh(op, |s.sfids|));
    } else {
      QuietKeeps(s, s', i, s'.threads[i]);
    }
  }

  lemma ReservedKeeps(s: State, i: nat, ok: bool)
    requires Inv(s) && i in s.threads && s.threads[i].Reserved? && Step(s, i, ok).Some?
    ensures Inv(Step(s, i, ok).value)
  {
    hide CallsOk, TransitOk;
    var Reserved(op, r, n) := s.threads[i];
    var d := s.sfids[r].ent.value;
    var s' := Step(s, i, ok).value;
    assert s.dirents[d].Live?;
    CallKeeps(s, d);
    var s1 := Call(s, d, Ordinary);
    if ok {
      MoveKeeps(s1, s', i, r, n);
    } else {
      QuietKeeps(s1, s', i, Undo(op.newfid, n));
    }
  }

  lemma MoveKeeps(s: State, s': State, i: nat, r: nat, n: nat)
    requires Inv(s) && i in s.threads && r < |s.sfids| && n < |s.sfids| && r != n
    requires s.sfids[r].lock == Some(i) && s.sfids[n].lock == Some(i) && Blank(s.sfids[n])
    requires s' == Go(Unlock(NewDirent(s), r), i, Moved(n, |s.dirents|))
    ensures Inv(s')
  {
    hide CallsOk;
    assert Respects(s.sfids, s'.sfids, i);
    ThreadsKeep(s, s', i, Moved(n, |s.dirents|));
    CallsNew(s, s');
    assert EntsOk(s'.sfids, s'.dirents);
    TransitMove(s.threads, s.sfids, s'.sfids, s.dirents, i, n) by { EntsBound(s); }
  }

  lemma TransitMove(threads: map<nat, Pc>, sfids: seq<SFid>, sfids': seq<SFid>, dirents: seq<Status>, i: nat, n: nat)
    requires TransitOk(threads, sfids, dirents) && EntBounds(sfids, |dirents|)
    requires |sfids'| == |sfids| && forall r :: 0 <= r < |sfids| ==> sfids'[r].ent == sfids[r].ent
    ensures TransitOk(threads[i := Moved(n, |dirents|)], sfids', dirents + [Live])
  {
  }

  lemma LinkKeeps(s: State, i: nat, ok: bool)
    requires Inv(s) && i in s.threads && s.threads[i].Moved?
    ensures Inv(Step(s, i, ok).value)
  {
    hide CallsOk;
    var Moved(n, d) := s.threads[i];
    var s' := Step(s, i, ok).value;
    assert Respects(s.sfids, s'.sfids, i);
    ThreadsKeep(s, s', i, Leaving(n));
    CallsSame(s, s');
  }

  lemma OtherKeeps(s: State, i: nat, ok: bool)
    requires Inv(s) && i in s.threads && Step(s, i, ok).Some?
    requires var pc := s.threads[i]; pc.Loaded? || pc.Locked? || pc.Undo? || pc.Leaving?
    ensures Inv(Step(s, i, ok).value)
  {
    hide CallsOk, TransitOk, EntsOk;
    var s' := Step(s, i, ok).value;
    QuietKeeps(s, s', i, s'.threads[i]);
  }

  lemma FreshKeeps(s: State, i: nat, ok: bool)
    requires Inv(s) && i in s.threads && s.threads[i].Fresh?
    ensures Inv(Step(s, i, ok).value)
  {
    hide CallsOk, TransitOk, EntsOk;
    var Fresh(op, r) := s.threads[i];
    var s' := Step(s, i, ok).value;
    if ok {
      FillKeeps(s, s', i, r, s.sfids[r].(ent := Some(|s.dirents|)));
    } else {
      QuietKeeps(s, s', i, Leaving(r));
    }
  }

  lemma NextKeeps(s: State, e: Event, s': State)
    requires Inv(s) && Next(s, e, s')
    ensures Inv(s')
  {
    match e {
      case Spawn(i, op) => SpawnKeeps(s, i, op);
      case Move(i, ok) =>
        hide Inv;
        match s.threads[i] {
          case Start(op) => StartKeeps(s, i, op);
          case Ready(_, _) => ReadyKeeps(s, i, ok);
          case Reserved(_, _, _) => ReservedKeeps(s, i, ok);
          case Moved(_, _) => LinkKeeps(s, i, ok);
          case Fresh(_, _) => FreshKeeps(s, i, ok);
          case _ => OtherKeeps(s, i, ok);
        }
    }
  }

  lemma SpawnKeeps(s: State, i: nat, op: Op)
    requires Inv(s) && i !in s.threads
    ensures Inv(Go(s, i, Start(op)))
  {
    hide CallsOk;
    CallsSame(s, Go(s, i, Start(op)));
  }

  lemma {:induction false} RunKeeps(es: seq<Event>, ss: seq<State>, n: nat)
    requires Run(es, ss) && n <= |es|
    ensures Inv(ss[n])
  {
    hide Inv, Next;
    if n == 0 {
      InitInv();
    } else {
      RunKeeps(es, ss, n - 1);
      NextKeeps(ss[n - 1], es[n - 1], ss[n]);
    }
  }

  lemma InitInv()
    ensures Inv(INIT)
  {
  }

  // ---------------------------------------------------------------- theorems

  /** The Dirent a thread is working on: it holds the lock and has seen a Dirent. */
  function InUse(s: State, i: nat): Option<nat> {
    if i !in s.threads then None
    else match s.threads[i]
      case Ready(_, r) => if r < |s.sfids| then s.sfids[r].ent else None
      case Reserved(_, r, _) => if r < |s.sfids| then s.sfids[r].ent else None
      case _ => None
  }

  /** In every interleaving, nothing is called on a Dirent after its Clunk, its Remove, or the
      Create that took over its references. */
  lemma NoCallAfterFinal(es: seq<Event>, ss: seq<State>, n: nat, k: nat, m: nat)
    requires Run(es, ss) && n <= |es|
    requires k < m < |ss[n].calls| && ss[n].calls[k].1.Final?
    ensures ss[n].calls[m].0 != ss[n].calls[k].0
  {
    RunKeeps(es, ss, n);
  }

  /** No two calls work on one Dirent at once, and a Dirent in use is live. */
  lemma ExclusiveUse(es: seq<Event>, ss: seq<State>, n: nat, i: nat, j: nat)
    requires Run(es, ss) && n <= |es|
    requires i != j && InUse(ss[n], i).Some?
    ensures InUse(ss[n], i) != InUse(ss[n], j)
    ensures var d := InUse(ss[n], i).value; d < |ss[n].dirents| && ss[n].dirents[d].Live?
  {
    RunKeeps(es, ss, n);
    hide TransitOk, CallsOk;
    var s := ss[n];
    assert PcOk(s.threads[i], i, s.sfids);
    if InUse(s, j).Some? {
      assert PcOk(s.threads[j], j, s.sfids);
    }
  }

  // ---------------------------------------------------------------- open files

  /** The step is an in-place walk that succeeds on a fid that is open. */
  ghost predicate WalksOpenFid(s: State, e: Event) {
    e.Move? && e.ok && e.i in s.threads &&
    match s.threads[e.i]
    case Ready(op, r) => op.OpWalk? && op.newfid == op.fid && op.names && r < |s.sfids| && s.sfids[r].file.Some?
    case _ => false
  }

  /** The File of a fid was opened from the Dirent the fid has now. */
  ghost predicate FileOk(x: SFid) {
    x.ent.Some? && x.file.Some? ==> x.file == x.ent
  }

  ghost predicate FilesOk(s: State) {
    && (forall r :: 0 <= r < |s.sfids| ==> FileOk(s.sfids[r]))
    && (forall c <- s.fileCalls :: c.1)
  }

  lemma FilesKeepReady(s: State, i: nat, op: Op, r: nat, ok: bool)
    requires Inv(s) && FilesOk(s) && i in s.threads && s.threads[i] == Ready(op, r) && r < |s.sfids| &&
             s.sfids[r].ent.Some?
    requires !WalksOpenFid(s, Move(i, ok))
    ensures s.sfids[r].ent.value < |s.dirents| && FilesOk(StepReady(s, i, op, r, s.sfids[r].ent.value, ok))
  {
    hide Locks, CallsOk, TransitOk;
  }

  lemma FilesKeep(s: State, e: Event, s': State)
    requires Inv(s) && FilesOk(s) && Next(s, e, s') && !WalksOpenFid(s, e)
    ensures FilesOk(s')
  {
    hide CallsOk, TransitOk, EntsOk;
    match e {
      case Spawn(_, _) =>
      case Move(i, ok) =>
        assert PcOk(s.threads[i], i, s.sfids);
        match s.threads[i] {
          case Ready(op, r) => FilesKeepReady(s, i, op, r, ok);
          case Start(op) => hide Locks, Bounds;
          case _ => hide StepReady, Bounds;
        }
    }
  }

  lemma {:induction false} FilesRun(es: seq<Event>, ss: seq<State>, n: nat)
    requires Run(es, ss) && n <= |es| && forall k :: 0 <= k < n ==> !WalksOpenFid(ss[k], es[k])
    ensures FilesOk(ss[n])
  {
    hide Inv, Next, FilesOk, WalksOpenFid;
    if n == 0 {
      FilesInit();
    } else {
      FilesRun(es, ss, n - 1);
      RunKeeps(es, ss, n - 1);
      FilesKeep(ss[n - 1], es[n - 1], ss[n]);
    }
  }

  lemma FilesInit()
    ensures FilesOk(INIT)
  {
  }

  /** As long as no open fid is walked in place, every Read and Write goes to a File whose
      Dirent has not been given up. */
  lemma FileCallsLive(es: seq<Event>, ss: seq<State>, n: nat)
    requires Run(es, ss) && n <= |es| && forall k :: 0 <= k < n ==> !WalksOpenFid(ss[k], es[k])
    ensures forall c <- ss[n].fileCalls :: c.1
  {
    FilesRun(es, ss, n);
  }

  /** At one step: an in-place walk leaves the fid with the File of the Dirent it has just clunked if
      and only if the fid was open. */
  lemma StaleIffOpen(s: State, i: nat, op: Op, r: nat)
    requires Inv(s) && i in s.threads && s.threads[i] == Ready(op, r) && r < |s.sfids| && FileOk(s.sfids[r])
    requires op.OpWalk? && op.newfid == op.fid && op.names
    ensures Step(s, i, true).Some?
    ensures var s' := Step(s, i, true).value;
            FileOk(s'.sfids[r]) <==> s.sfids[r].file.None?
    ensures s.sfids[r].file.Some? ==>
              var s' := Step(s, i, true).value;
              s'.sfids[r].file == s.sfids[r].file && s'.dirents[s'.sfids[r].file.value] == Released
  {
    hide CallsOk, TransitOk;
    assert PcOk(s.threads[i], i, s.sfids);
    assert FileOk(s.sfids[r]);
  }

  /** Over every run: every open fid has the File of its own Dirent, all along, if and only if no open
      fid is walked in place. */
  lemma StaleIffWalkedOpen(es: seq<Event>, ss: seq<State>, n: nat)
    requires Run(es, ss) && n <= |es|
    ensures (forall k :: 0 <= k <= n ==> OwnFiles(ss[k])) <==> (forall k :: 0 <= k < n ==> !WalksOpenFid(ss[k], es[k]))
  {
    hide Inv, Next, WalksOpenFid, OwnFiles;
    if forall k :: 0 <= k < n ==> !WalksOpenFid(ss[k], es[k]) {
      forall k | 0 <= k <= n ensures OwnFiles(ss[k]) {
        FilesRun(es, ss, k);
        FilesAreOwn(ss[k]);
      }
    } else {
      var k :| 0 <= k < n && WalksOpenFid(ss[k], es[k]);
      RunKeeps(es, ss, k);
      assert Next(ss[k], es[k], ss[k + 1]);
      WalkMakesStale(ss[k], es[k], ss[k + 1]);
    }
  }

  ghost predicate OwnFiles(s: State) {
    forall r :: 0 <= r < |s.sfids| ==> FileOk(s.sfids[r])
  }

  lemma FilesAreOwn(s: State)
    requires FilesOk(s)
    ensures OwnFiles(s)
  {
  }

  lemma WalkMakesStale(s: State, e: Event, s': State)
    requires Inv(s) && Next(s, e, s') && WalksOpenFid(s, e)
    ensures !OwnFiles(s) || !OwnFiles(s')
  {
    hide StepReady, CallsOk, Owned, Locks;
    var Ready(op, r) := s.threads[e.i];
    if OwnFiles(s) {
      StaleIffOpen(s, e.i, op, r);
      WalkKeepsFids(s, e.i, op, r);
      assert !FileOk(s'.sfids[r]);
    }
  }

  lemma WalkKeepsFids(s: State, i: nat, op: Op, r: nat)
    requires r < |s.sfids| && s.sfids[r].ent.Some? && s.sfids[r].ent.value < |s.dirents|
    requires op.OpWalk? && op.newfid == op.fid
    ensures |StepReady(s, i, op, r, s.sfids[r].ent.value, true).sfids| == |s.sfids|
  {
  }

  // ---------------------------------------------------------------- what Files a fid has, and who calls them

  /** The call that acts on SFid `r` in this step, if one does. */
  ghost predicate Acts(s: State, e: Event, r: nat) {
    && e.Move? && e.i in s.threads && s.threads[e.i].Ready? && s.threads[e.i].ref == r
    && r < |s.sfids| && s.sfids[r].ent.Some?
  }

  ghost predicate Opens(s: State, e: Event, r: nat) {
    && Acts(s, e, r) && s.threads[e.i].op.OpUse? && s.threads[e.i].op.use.Open? && e.ok
    && s.sfids[r].file.None?
  }

  ghost predicate Creates(s: State, e: Event, r: nat) {
    Acts(s, e, r) && s.threads[e.i].op.OpCreate? && e.ok
  }

  ghost predicate ReadsWrites(s: State, e: Event, r: nat) {
    && Acts(s, e, r) && s.threads[e.i].op.OpUse? && s.threads[e.i].op.use.ReadWrite?
    && s.sfids[r].file.Some?
  }

  /** The Files of the table after one step. */
  ghost predicate FilesAfter(s: State, e: Event, s': State, r: nat) {
    && |s.sfids| <= |s'.sfids|
    && (r < |s'.sfids| ==>
          s'.sfids[r].file ==
          if r >= |s.sfids| then None
          else if Opens(s, e, r) then s.sfids[r].ent
          else if Creates(s, e, r) then Some(|s.dirents|)
          else s.sfids[r].file)
  }

  lemma ReadyFiles(s: State, i: nat, ok: bool, r: nat)
    requires Bounds(s) && i in s.threads && s.threads[i].Ready? && Step(s, i, ok).Some?
    ensures FilesAfter(s, Move(i, ok), Step(s, i, ok).value, r)
  {
    hide RefBounds;
  }

  lemma OtherFiles(s: State, i: nat, ok: bool, r: nat)
    requires Bounds(s) && i in s.threads && !s.threads[i].Ready? && Step(s, i, ok).Some?
    ensures FilesAfter(s, Move(i, ok), Step(s, i, ok).value, r)
  {
    hide StepReady, RefBounds;
  }

  /** The File of a fid is the one its Dirent gave when it was opened, or that of the Dirent a create put
      there; nothing else changes it, in particular no walk. */
  lemma FileStep(es: seq<Event>, ss: seq<State>, k: nat, r: nat)
    requires Run(es, ss) && k < |es|
    ensures FilesAfter(ss[k], es[k], ss[k + 1], r)
  {
    var s, e := ss[k], es[k];
    assert Next(s, e, ss[k + 1]);
    if e.Move? {
      hide FilesAfter, Run, Bounds, Step;
      if s.threads[e.i].Ready? {
        ReadyFiles(s, e.i, e.ok, r);
      } else {
        OtherFiles(s, e.i, e.ok, r);
      }
    }
  }

  ghost predicate Gives(s: State, e: Event, r: nat, d: nat) {
    (Opens(s, e, r) && s.sfids[r].ent == Some(d)) || (Creates(s, e, r) && |s.dirents| == d)
  }

  ghost predicate NoCreate(es: seq<Event>, ss: seq<State>, i: nat, n: nat, r: nat) {
    forall k :: i <= k < n && k < |es| && k < |ss| ==> !Creates(ss[k], es[k], r)
  }

  ghost predicate GivenBefore(es: seq<Event>, ss: seq<State>, n: nat, r: nat, d: nat)
    requires n <= |es| && n <= |ss|
  {
    exists k :: 0 <= k < n && Gives(ss[k], es[k], r, d) && NoCreate(es, ss, k + 1, n, r)
  }

  ghost predicate HasFile(s: State, r: nat, d: nat) {
    r < |s.sfids| && s.sfids[r].file == Some(d)
  }

  /** Over every run: a fid has the File of Dirent `d` if and only if it was opened when it had that Dirent, or
      a create put that Dirent there, and no create has followed. */
  lemma {:induction false} FileHistory(es: seq<Event>, ss: seq<State>, n: nat, r: nat, d: nat)
    requires Run(es, ss) && n <= |es|
    ensures HasFile(ss[n], r, d) <==> GivenBefore(es, ss, n, r, d)
  {
    hide Next, Gives, Creates, HasFile;
    if n == 0 {
      NoFileYet(r, d);
    } else {
      FileHistory(es, ss, n - 1, r, d);
      FileStep(es, ss, n - 1, r);
      HasFileStep(ss[n - 1], es[n - 1], ss[n], r, d);
      GivenStep(es, ss, n, r, d);
    }
  }

  lemma NoFileYet(r: nat, d: nat)
    ensures !HasFile(INIT, r, d)
  {
  }

  lemma HasFileStep(s: State, e: Event, s': State, r: nat, d: nat)
    requires FilesAfter(s, e, s', r)
    ensures HasFile(s', r, d) <==> Gives(s, e, r, d) || (HasFile(s, r, d) && !Creates(s, e, r))
  {
  }

  lemma GivenStep(es: seq<Event>, ss: seq<State>, n: nat, r: nat, d: nat)
    requires 0 < n <= |es| && n <= |ss|
    ensures GivenBefore(es, ss, n, r, d) <==>
            Gives(ss[n - 1], es[n - 1], r, d) ||
            (GivenBefore(es, ss, n - 1, r, d) && !Creates(ss[n - 1], es[n - 1], r))
  {
    hide Gives, Creates;
    if k :| 0 <= k < n && Gives(ss[k], es[k], r, d) && NoCreate(es, ss, k + 1, n, r) {
      assert k < n - 1 ==> NoCreate(es, ss, k + 1, n - 1, r) && !Creates(ss[n - 1], es[n - 1], r);
    }
    if Gives(ss[n - 1], es[n - 1], r, d) {
      assert NoCreate(es, ss, n, n, r);
    }
    if k :| 0 <= k < n - 1 && Gives(ss[k], es[k], r, d) && NoCreate(es, ss, k + 1, n - 1, r) {
      assert !Creates(ss[n - 1], es[n - 1], r) ==> NoCreate(es, ss, k + 1, n, r);
    }
  }

  /** A File is called exactly when a read or write gets through on an open fid, and it is that fid's. */
  lemma FileCallStep(es: seq<Event>, ss: seq<State>, k: nat)
    requires Run(es, ss) && k < |es|
    ensures ss[k + 1].fileCalls != ss[k].fileCalls <==> exists r: nat :: ReadsWrites(ss[k], es[k], r)
    ensures forall r: nat :: ReadsWrites(ss[k], es[k], r) ==>
              var d := ss[k].sfids[r].file.value;
              ss[k + 1].fileCalls == ss[k].fileCalls + [(d, d < |ss[k].dirents| && ss[k].dirents[d].Live?)]
  {
    var s, e, s' := ss[k], es[k], ss[k + 1];
    assert Next(s, e, s');
    hide Run;
    if e.Move? {
      CallsFile(s, e.i, e.ok);
      if s.threads[e.i].Ready? {
        assert Acts(s, e, s.threads[e.i].ref);
      }
    }
  }

  lemma CallsFile(s: State, i: nat, ok: bool)
    requires Bounds(s) && i in s.threads && Step(s, i, ok).Some?
    ensures var s' := Step(s, i, ok).value;
            var pc := s.threads[i];
            if pc.Ready? && ReadsWrites(s, Move(i, ok), pc.ref) then
              var d := s.sfids[pc.ref].file.value;
              s'.fileCalls == s.fileCalls + [(d, d < |s.dirents| && s.dirents[d].Live?)]
            else s'.fileCalls == s.fileCalls
  {
    hide RefBounds;
  }

  /** A run that gets there: attach, open, walk in place, read.  The Read is served by the File
      of a Dirent that has been clunked. */
  lemma ReadAfterWalk() returns (es: seq<Event>, ss: seq<State>)
    ensures Run(es, ss) && ss[|es|].fileCalls == [(0, false)]
  {
    hide Run, Inv;
    es, ss := AttachAlone();
    es, ss := Solo(es, ss, 1, OpUse(7, Open), true);
    es, ss := Solo(es, ss, 2, OpWalk(7, 7, true), true);
    es, ss := Solo(es, ss, 3, OpUse(7, ReadWrite), true);
  }

  /** The last state of a run. */
  ghost function Last(ss: seq<State>): State {
    if ss == [] then INIT else ss[|ss| - 1]
  }

  lemma Extend(es: seq<Event>, ss: seq<State>, e: Event, s': State) returns (es': seq<Event>, ss': seq<State>)
    requires Run(es, ss) && Inv(Last(ss)) && Next(Last(ss), e, s')
    ensures Run(es', ss') && Last(ss') == s' && Inv(s') && Bounds(s') && |ss'| == |es'| + 1
  {
    NextKeeps(Last(ss), e, s');
    es', ss' := es + [e], ss + [s'];
  }

  lemma AttachAlone() returns (es: seq<Event>, ss: seq<State>)
    ensures Run(es, ss) && |ss| == |es| + 1 && Inv(Last(ss))
    ensures Last(ss) == State(map[7 := 0], [SFid(Some(0), None, None)], [Live], map[0 := Done], [], [])
  {
    hide Inv, Run, Bounds, StepReady, StepStart;
    var op := OpAttach(7);
    es, ss := AttachPublished(op);
    var s2 := Last(ss);
    var s3 := Go(SetFid(NewDirent(s2), 0, SFid(Some(0), None, Some(0))), 0, Leaving(0));
    es, ss := Extend(es, ss, Move(0, true), s3);
    es, ss := Extend(es, ss, Move(0, true), Go(Unlock(s3, 0), 0, Done));
  }

  lemma AttachPublished(op: Op) returns (es: seq<Event>, ss: seq<State>)
    requires op == OpAttach(7)
    ensures Run(es, ss) && Inv(Last(ss)) && Bounds(Last(ss))
    ensures Last(ss) == State(map[7 := 0], [SFid(None, None, Some(0))], [], map[0 := Fresh(op, 0)], [], [])
  {
    InitInv();
    var s1 := Go(INIT, 0, Start(op));
    es, ss := [], [INIT];
    assert Run(es, ss) && Last(ss) == INIT;
    hide Inv, Run, Bounds, StepReady;
    es, ss := Extend(es, ss, Spawn(0, op), s1);
    es, ss := Extend(es, ss, Move(0, true), Go(Publish(s1, 0, 7), 0, Fresh(op, 0)));
  }

  /** Fid 7 is the only one, is not locked and has a Dirent. */
  ghost predicate OnlyFid(s: State) {
    && s.refs == map[7 := 0] && |s.sfids| == 1
    && s.sfids[0].lock.None? && s.sfids[0].ent.Some? && s.sfids[0].ent.value < |s.dirents|
  }

  /** Thread i enters a call on fid 7 and gets as far as seeing its Dirent. */
  lemma Enter(es: seq<Event>, ss: seq<State>, i: nat, op: Op, ok: bool) returns (es': seq<Event>, ss': seq<State>)
    requires Run(es, ss) && Inv(Last(ss)) && OnlyFid(Last(ss)) && i !in Last(ss).threads
    requires op.fid == 7 && (op.OpUse? || op.OpWalk?)
    ensures Run(es', ss') && Inv(Last(ss')) && Bounds(Last(ss'))
    ensures var s := Last(ss);
            Last(ss') == Go(SetFid(s, 0, s.sfids[0].(lock := Some(i))), i, Ready(op, 0))
  {
    hide Inv, Bounds, Run, StepReady;
    var s := Last(ss);
    var s1 := Go(s, i, Start(op));
    var s2 := Go(s1, i, Loaded(op, 0));
    var s3 := Go(SetFid(s2, 0, s.sfids[0].(lock := Some(i))), i, Locked(op, 0));
    es', ss' := Extend(es, ss, Spawn(i, op), s1);
    es', ss' := Extend(es', ss', Move(i, ok), s2);
    es', ss' := Extend(es', ss', Move(i, ok), s3);
    es', ss' := Extend(es', ss', Move(i, ok), Go(s3, i, Ready(op, 0)));
  }

  /** Thread i runs one call on fid 7 from start to end while nobody else moves. */
  lemma Solo(es: seq<Event>, ss: seq<State>, i: nat, op: Op, ok: bool) returns (es': seq<Event>, ss': seq<State>)
    requires Run(es, ss) && Inv(Last(ss)) && OnlyFid(Last(ss)) && i !in Last(ss).threads
    requires op.fid == 7 && (op.OpUse? || (op.OpWalk? && op.newfid == 7))
    ensures Run(es', ss') && |ss'| == |es'| + 1 && Inv(Last(ss'))
    ensures Last(ss') == AfterSolo(Last(ss), i, op, ok)
  {
    hide Inv, Bounds, Run, StepReady, StepStart;
    es', ss' := Enter(es, ss, i, op, ok);
    var s4 := Last(ss');
    var s5 := StepReady(s4, i, op, 0, s4.sfids[0].ent.value, ok);
    SoloStep(s4, i, op, ok);
    es', ss' := Extend(es', ss', Move(i, ok), s5);
    es', ss' := Extend(es', ss', Move(i, ok), Go(Unlock(s5, 0), i, Done));
  }

  /** With nothing else to touch, the call ends in one step. */
  lemma SoloStep(s: State, i: nat, op: Op, ok: bool)
    requires |s.sfids| == 1 && s.sfids[0].ent.Some? && s.sfids[0].ent.value < |s.dirents|
    requires op.OpUse? || (op.OpWalk? && op.newfid == op.fid)
    ensures var s' := StepReady(s, i, op, 0, s.sfids[0].ent.value, ok);
            s'.threads == s.threads[i := Leaving(0)] && |s'.sfids| == 1
  {
  }

  ghost function AfterSolo(s: State, i: nat, op: Op, ok: bool): State
    requires OnlyFid(s) && (op.OpUse? || (op.OpWalk? && op.newfid == op.fid))
  {
    var s4 := Go(SetFid(s, 0, s.sfids[0].(lock := Some(i))), i, Ready(op, 0));
    Go(Unlock(StepReady(s4, i, op, 0, s4.sfids[0].ent.value, ok), 0), i, Done)
  }
}
