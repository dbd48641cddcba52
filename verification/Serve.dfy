/** The server side of tag multiplexing (serveconn.go): the main loop with its table of active
    tags, one goroutine per request, and the reader and writer goroutines. */
module Serve {
  import opened Common
  import opened Transport

  /** A request's goroutine: inside the handler, or offering its response to the main loop. */
  datatype Handler = Running(req: Fcall) | Offering(req: Fcall, resp: Fcall)

  /** Where the main loop stands: in its select; sending a response that is not tied to an
      active tag; sending a completed response; past that send but before the tag is deleted;
      or out of the loop. */
  datatype Pc = Idle | Bypass(resp: Fcall) | Replying(resp: Fcall) | Deleting(tag: Tag) | Stopped

  /** `tags` maps an active tag to the number of its request in `log`, the accepted requests in
      order.  `replied`, `flushed` and `dropped` record how table entries were given up, and
      `out` the frames written. */
  datatype Server = Server(
    tags: map<Tag, nat>,
    handlers: map<nat, Handler>,
    pc: Pc,
    reading: Option<Fcall>,
    writing: Option<Fcall>,
    ctxDone: bool,
    closed: bool,
    log: seq<Fcall>,
    replied: set<nat>,
    flushed: set<nat>,
    dropped: set<nat>,
    out: seq<Fcall>)

  const INIT_SERVER := Server(map[], map[], Idle, None, None, false, false, [], {}, {}, {}, [])

  datatype Event =
    | Read(f: Fcall)             // the reader takes a frame off the wire
    | Accept                     // the main loop takes the reader's request
    | Finish(id: nat, body: nat) // a handler returns
    | Complete(id: nat)          // the main loop takes a completed response
    | Exit(id: nat)              // a goroutine gives up offering its response
    | Hand                       // the writer takes the main loop's response
    | Drop                       // the request's context is done: no response
    | Delete                     // the tag of a completed request is deleted
    | Write                      // the writer puts its response on the wire
    | Lose                       // a write fails for now and the response is lost
    | Abort                      // the main loop returns
    | CancelCtx
    | Close

  /** The main loop's treatment of one request. */
  function OnRequest(s: Server, f: Fcall): Server {
    if f.tag in s.tags then
      s.(pc := Bypass(Fcall(f.tag, DupTag, f.origin)))
    else if f.msg.Tflush? then
      if f.msg.oldtag in s.tags then
        s.(tags := s.tags - {f.msg.oldtag},
           flushed := s.flushed + {s.tags[f.msg.oldtag]},
           pc := Bypass(Fcall(f.tag, Rflush, f.origin)))
      else
        s.(pc := Bypass(Fcall(f.tag, UnknownTag, f.origin)))
    else
      s.(tags := s.tags[f.tag := |s.log|],
         handlers := s.handlers[|s.log| := Running(f)],
         log := s.log + [f])
  }

  /** The main loop's treatment of one completed response: matched by tag alone. */
  function OnCompleted(s: Server, resp: Fcall): Server {
    if resp.tag in s.tags then s.(pc := Replying(resp)) else s
  }

  /** One step of some goroutine; None when the step cannot be taken. */
  function Next(s: Server, e: Event): Option<Server> {
    match e
    case Read(f) =>
      if s.reading.None? then Some(s.(reading := Some(f))) else None
    case Accept =>
      if s.pc.Idle? && s.reading.Some? then Some(OnRequest(s.(reading := None), s.reading.value)) else None
    case Finish(id, body) =>
      if id in s.handlers && s.handlers[id].Running? then
        var req := s.handlers[id].req;
        Some(s.(handlers := s.handlers[id := Offering(req, Fcall(req.tag, Answer(body), id))]))
      else None
    case Complete(id) =>
      if s.pc.Idle? && id in s.handlers && s.handlers[id].Offering? then
        Some(OnCompleted(s.(handlers := s.handlers - {id}), s.handlers[id].resp))
      else None
    case Exit(id) =>
      if id in s.handlers && s.handlers[id].Offering? &&
         (id in s.flushed || s.ctxDone || s.closed || s.pc.Stopped?) then
        Some(s.(handlers := s.handlers - {id}))
      else None
    case Hand =>
      if s.writing.Some? then None
      else if s.pc.Bypass? then Some(s.(writing := Some(s.pc.resp), pc := Idle))
      else if s.pc.Replying? && s.pc.resp.tag in s.tags then
        Some(s.(writing := Some(s.pc.resp), pc := Deleting(s.pc.resp.tag),
                replied := s.replied + {s.tags[s.pc.resp.tag]}))
      else None
    case Drop =>
      if s.pc.Replying? && s.pc.resp.tag in s.tags &&
         (s.ctxDone || s.tags[s.pc.resp.tag] in s.flushed) then
        Some(s.(pc := Deleting(s.pc.resp.tag), dropped := s.dropped + {s.tags[s.pc.resp.tag]}))
      else None
    case Delete =>
      if s.pc.Deleting? then Some(s.(tags := s.tags - {s.pc.tag}, pc := Idle)) else None
    case Write =>
      if s.writing.Some? then Some(s.(writing := None, out := s.out + [s.writing.value])) else None
    case Lose =>
      if s.writing.Some? then Some(s.(writing := None)) else None
    case Abort =>
      if (s.pc.Idle? || s.pc.Bypass?) && (s.ctxDone || s.closed) then Some(s.(pc := Stopped)) else None
    case CancelCtx => Some(s.(ctxDone := true))
    case Close => Some(s.(closed := true))
  }

  /** The state owned by the main loop, updated in place as serve does. */
  class Conn {
    var tags: map<Tag, nat>
    var handlers: map<nat, Handler>
    var pc: Pc
    var log: seq<Fcall>
    var flushed: set<nat>

    /** This loop's state, with what the other goroutines own taken from `env`. */
    ghost function State(env: Server): Server
      reads this
    {
      env.(tags := tags, handlers := handlers, pc := pc, log := log, flushed := flushed)
    }

    constructor ()
      ensures State(INIT_SERVER) == INIT_SERVER
    {
      tags, handlers, pc, log, flushed := map[], map[], Idle, [], {};
    }

    /** Cancels and forgets the request under `t`, if there is one. */
    method Remove(t: Tag) returns (ok: bool)
      modifies this`tags, this`flushed
      ensures ok <==> t in old(tags)
      ensures tags == old(tags) - {t}
      ensures flushed == if ok then old(flushed) + {old(tags)[t]} else old(flushed)
    {
      ok := t in tags;
      if ok {
        flushed := flushed + {tags[t]};
      }
      tags := tags - {t};
    }

    method HandleRequest(f: Fcall)
      modifies this
      ensures forall env :: State(env) == OnRequest(old(State(env)), f)
    {
      if f.tag in tags {
        pc := Bypass(Fcall(f.tag, DupTag, f.origin));
        return;
      }
      match f.msg {
        case Tflush(oldtag) =>
          var ok := Remove(oldtag);
          if ok {
            pc := Bypass(Fcall(f.tag, Rflush, f.origin));
          } else {
            assert tags == old(tags);
            pc := Bypass(Fcall(f.tag, UnknownTag, f.origin));
          }
        case _ =>
          var id := |log|;
          tags := tags[f.tag := id];
          handlers := handlers[id := Running(f)];
          log := log + [f];
      }
    }

    method HandleCompleted(resp: Fcall)
      modifies this
      ensures forall env :: State(env) == OnCompleted(old(State(env)), resp)
    {
      if resp.tag !in tags {
        return;
      }
      pc := Replying(resp);
    }
  }

  /** A run: the states passed through by the events taken. */
  ghost predicate Run(es: seq<Event>, ss: seq<Server>) {
    && |ss| == |es| + 1 && ss[0] == INIT_SERVER
    && forall i :: 0 <= i < |es| ==> Next(ss[i], es[i]) == Some(ss[i + 1])
  }

  // ---------------------------------------------------------------- conservation

  /** The table entries not given up yet (the entry about to be deleted counts as given up),
      and how the others were. */
  datatype Book = Book(log: seq<Fcall>, active: map<Tag, nat>, replied: set<nat>, flushed: set<nat>, dropped: set<nat>)

  function Active(s: Server): map<Tag, nat> {
    if s.pc.Deleting? then s.tags - {s.pc.tag} else s.tags
  }

  function BookOf(s: Server): Book {
    Book(s.log, Active(s), s.replied, s.flushed, s.dropped)
  }

  ghost predicate IsActive(b: Book, id: nat)
    requires id < |b.log|
  {
    b.log[id].tag in b.active && b.active[b.log[id].tag] == id
  }

  /** A request is active, replied, flushed or dropped, and only one of these. */
  ghost predicate OneFate(b: Book, id: nat)
    requires id < |b.log|
  {
    1 == (if IsActive(b, id) then 1 else 0) + (if id in b.replied then 1 else 0)
       + (if id in b.flushed then 1 else 0) + (if id in b.dropped then 1 else 0)
  }

  ghost predicate Entries(tags: map<Tag, nat>, log: seq<Fcall>) {
    forall t :: t in tags ==> tags[t] < |log| && log[tags[t]].tag == t
  }

  ghost predicate Ledger(b: Book) {
    && Entries(b.active, b.log)
    && (forall id: nat :: id < |b.log| ==> OneFate(b, id))
    && (forall id :: id in b.replied ==> id < |b.log|)
    && (forall id :: id in b.flushed ==> id < |b.log|)
    && (forall id :: id in b.dropped ==> id < |b.log|)
  }

  ghost predicate PcOk(s: Server) {
    && (s.pc.Replying? ==> s.pc.resp.tag in s.tags)
    && (s.pc.Deleting? ==> s.pc.tag in s.tags)
  }

  ghost predicate HandlersOk(handlers: map<nat, Handler>, log: seq<Fcall>) {
    forall id :: id in handlers ==>
      && id < |log| && handlers[id].req == log[id]
      && (handlers[id].Offering? ==> Answers(handlers[id].resp, log[id].tag, id))
  }

  ghost predicate Answers(f: Fcall, tag: Tag, id: nat) {
    f.msg.Answer? && f.tag == tag && f.origin == id
  }

  ghost predicate Inv(s: Server) {
    PcOk(s) && Entries(s.tags, s.log) && HandlersOk(s.handlers, s.log) && Ledger(BookOf(s))
  }

  lemma LedgerAccept(b: Book, f: Fcall)
    requires Ledger(b) && f.tag !in b.active
    ensures Ledger(b.(log := b.log + [f], active := b.active[f.tag := |b.log|]))
  {
    var b' := b.(log := b.log + [f], active := b.active[f.tag := |b.log|]);
    forall id: nat | id < |b'.log| ensures OneFate(b', id) {
      assert id < |b.log| ==> OneFate(b, id);
    }
  }

  /** An entry leaves the active ones for exactly one of the other three. */
  lemma LedgerMove(b: Book, t: Tag, b': Book)
    requires Ledger(b) && t in b.active
    requires var id := b.active[t];
             var left := b.(active := b.active - {t});
             || b' == left.(replied := b.replied + {id})
             || b' == left.(flushed := b.flushed + {id})
             || b' == left.(dropped := b.dropped + {id})
    ensures Ledger(b')
  {
    forall id: nat | id < |b'.log| ensures OneFate(b', id) {
      assert OneFate(b, id);
    }
  }

  lemma InvRequest(s: Server, f: Fcall)
    requires Inv(s) && s.pc.Idle?
    ensures Inv(OnRequest(s, f))
  {
    hide Ledger, Entries, HandlersOk;
    var s' := OnRequest(s, f);
    if f.tag in s.tags {
      assert BookOf(s') == BookOf(s);
    } else if !f.msg.Tflush? {
      LedgerAccept(BookOf(s), f);
      InvAccept(s, f);
    } else if f.msg.oldtag in s.tags {
      LedgerMove(BookOf(s), f.msg.oldtag, BookOf(s'));
      EntriesDrop(s.tags, s.log, f.msg.oldtag);
    } else {
      assert BookOf(s') == BookOf(s);
    }
  }

  lemma InvAccept(s: Server, f: Fcall)
    requires Entries(s.tags, s.log) && HandlersOk(s.handlers, s.log)
    ensures Entries(s.tags[f.tag := |s.log|], s.log + [f])
    ensures HandlersOk(s.handlers[|s.log| := Running(f)], s.log + [f])
  {
  }

  lemma EntriesDrop(tags: map<Tag, nat>, log: seq<Fcall>, t: Tag)
    requires Entries(tags, log)
    ensures Entries(tags - {t}, log)
  {
  }

  lemma InvStep(s: Server, e: Event)
    requires Inv(s) && Next(s, e).Some?
    ensures Inv(Next(s, e).value)
  {
    hide OnRequest, Ledger, Entries;
    var s' := Next(s, e).value;
    if e.Delete? {
      EntriesDrop(s.tags, s.log, s.pc.tag);
    }
    if e.Accept? {
      InvRequest(s.(reading := None), s.reading.value);
    } else if e.Drop? || (e.Hand? && s.pc.Replying?) {
      LedgerMove(BookOf(s), s.pc.resp.tag, BookOf(s'));
    } else {
      assert BookOf(s') == BookOf(s);
    }
  }

  lemma InvInit()
    ensures Inv(INIT_SERVER)
  {
  }

  lemma {:induction false} InvRun(es: seq<Event>, ss: seq<Server>, n: nat)
    requires Run(es, ss) && n <= |es|
    ensures Inv(ss[n])
  {
    hide Inv;
    if n == 0 {
      InvInit();
    } else {
      InvRun(es, ss, n - 1);
      assert Next(ss[n - 1], es[n - 1]) == Some(ss[n]);
      InvStep(ss[n - 1], es[n - 1]);
    }
  }

  ghost function Ids(n: nat): (r: set<nat>)
    ensures |r| == n && forall i: nat :: i in r <==> i < n
  {
    if n == 0 then {} else Ids(n - 1) + {n - 1}
  }

  lemma {:induction false} ValuesSize(m: map<Tag, nat>, ids: set<nat>)
    requires forall t, u :: t in m && u in m && t != u ==> m[t] != m[u]
    requires forall id :: id in ids <==> exists t :: t in m && m[t] == id
    ensures |ids| == |m|
    decreases |m|
  {
    if m == map[] {
      assert ids == {};
    } else {
      var t :| t in m;
      var m', ids' := m - {t}, ids - {m[t]};
      forall id: nat ensures id in ids' <==> exists u :: u in m' && m'[u] == id {
        if id in ids' {
          var u :| u in m && m[u] == id;
          assert u in m' && m'[u] == id;
        }
      }
      ValuesSize(m', ids');
    }
  }

  ghost function ActiveIds(b: Book): set<nat> {
    set id | id in Ids(|b.log|) && IsActive(b, id)
  }

  lemma ActiveSize(b: Book)
    requires Entries(b.active, b.log)
    ensures |ActiveIds(b)| == |b.active|
  {
    forall id: nat ensures id in ActiveIds(b) <==> exists t :: t in b.active && b.active[t] == id {
      if id in ActiveIds(b) {
        assert b.active[b.log[id].tag] == id;
      }
    }
    ValuesSize(b.active, ActiveIds(b));
  }

  lemma Fates(b: Book)
    requires Ledger(b)
    ensures ActiveIds(b) !! b.replied !! b.flushed !! b.dropped
    ensures ActiveIds(b) + b.replied + b.flushed + b.dropped == Ids(|b.log|)
  {
    forall id: nat | id < |b.log|
      ensures OneFate(b, id) && (id in ActiveIds(b) <==> IsActive(b, id))
    {
    }
  }

  lemma LedgerSize(b: Book)
    requires Ledger(b)
    ensures |b.log| == |b.active| + |b.replied| + |b.flushed| + |b.dropped|
  {
    hide OneFate, ActiveIds;
    ActiveSize(b);
    Fates(b);
    Sizes(ActiveIds(b), b.replied, b.flushed, b.dropped);
  }

  lemma Sizes(a: set<nat>, b: set<nat>, c: set<nat>, d: set<nat>)
    requires a !! b !! c !! d
    ensures |a + b + c + d| == |a| + |b| + |c| + |d|
  {
    assert |a + b| == |a| + |b|;
    assert |a + b + c| == |a + b| + |c|;
  }

  /** In every run, accepted requests = active tags + replies sent + flushed + dropped, where a
      tag whose response is handed over but which is not deleted yet is not active. */
  lemma Conservation(es: seq<Event>, ss: seq<Server>, n: nat)
    requires Run(es, ss) && n <= |es|
    ensures var s := ss[n];
            |s.log| == |Active(s)| + |s.replied| + |s.flushed| + |s.dropped|
  {
    hide Ledger;
    InvRun(es, ss, n);
    LedgerSize(BookOf(ss[n]));
  }

  // ---------------------------------------------------------------- flush

  /** The step accepts a new request under the tag of request `id` while id's goroutine is still
      around.  A request that is rejected as a duplicate is not accepted. */
  ghost predicate Reuses(s: Server, e: Event, id: nat) {
    && e.Accept? && s.reading.Some? && !s.reading.value.msg.Tflush? && s.reading.value.tag !in s.tags
    && id in s.handlers && s.handlers[id].req.tag == s.reading.value.tag
  }

  /** The frame answers request `id`. */
  ghost predicate AnswerTo(f: Fcall, id: nat) {
    f.msg.Answer? && f.origin == id
  }

  ghost predicate Sending(s: Server, id: nat) {
    s.pc.Replying? && AnswerTo(s.pc.resp, id)
  }

  /** If id's goroutine finds its tag in the table, the entry is its own. */
  ghost predicate OwnHandler(handlers: map<nat, Handler>, tags: map<Tag, nat>, id: nat) {
    id in handlers && handlers[id].req.tag in tags ==> tags[handlers[id].req.tag] == id
  }

  ghost predicate OwnPc(s: Server, id: nat) {
    && (Sending(s, id) ==> s.pc.resp.tag in s.tags && s.tags[s.pc.resp.tag] == id)
    && (s.pc.Bypass? ==> !s.pc.resp.msg.Answer?)
  }

  ghost predicate OwnFrames(out: seq<Fcall>, writing: Option<Fcall>, replied: set<nat>, id: nat) {
    && (forall f <- out :: AnswerTo(f, id) ==> id in replied)
    && (writing.Some? && AnswerTo(writing.value, id) ==> id in replied)
  }

  /** The goroutine of `id` and the answers to it belong to id's own table entry. */
  ghost predicate Own(s: Server, id: nat) {
    && OwnHandler(s.handlers, s.tags, id) && OwnPc(s, id)
    && OwnFrames(s.out, s.writing, s.replied, id)
  }

  lemma OwnRequest(s: Server, f: Fcall, id: nat)
    requires Inv(s) && Own(s, id) && s.pc.Idle? && !Reuses(s.(reading := Some(f)), Accept, id)
    ensures Own(OnRequest(s, f), id)
  {
    hide Ledger, OwnFrames;
  }

  lemma OwnLoop(s: Server, e: Event, id: nat)
    requires PcOk(s) && HandlersOk(s.handlers, s.log) && Own(s, id) && Next(s, e).Some? && !e.Accept?
    ensures var s' := Next(s, e).value; OwnHandler(s'.handlers, s'.tags, id) && OwnPc(s', id)
  {
    hide OwnFrames, OnRequest;
  }

  lemma OwnStep(s: Server, e: Event, id: nat)
    requires Inv(s) && Own(s, id) && Next(s, e).Some? && !Reuses(s, e, id)
    ensures Own(Next(s, e).value, id)
  {
    if e.Accept? {
      hide Ledger, OnRequest, Entries, OwnFrames, OwnHandler;
      OwnRequest(s.(reading := None), s.reading.value, id);
    } else {
      hide Ledger, Entries, OwnFrames, OwnPc, OwnHandler, HandlersOk;
      OwnLoop(s, e, id);
      FramesStep(s, e, id);
    }
  }

  lemma FramesStep(s: Server, e: Event, id: nat)
    requires Own(s, id) && Next(s, e).Some? && !e.Accept?
    ensures var s' := Next(s, e).value; OwnFrames(s'.out, s'.writing, s'.replied, id)
  {
    hide OwnHandler, OnRequest;
  }

  lemma {:induction false} OwnRun(es: seq<Event>, ss: seq<Server>, n: nat, id: nat)
    requires Run(es, ss) && n <= |es|
    requires forall i :: 0 <= i < n ==> !Reuses(ss[i], es[i], id)
    ensures Own(ss[n], id)
  {
    hide Own, Reuses, Inv;
    if n == 0 {
      OwnInit(id);
    } else {
      OwnRun(es, ss, n - 1, id);
      InvRun(es, ss, n - 1);
      assert Next(ss[n - 1], es[n - 1]) == Some(ss[n]);
      OwnStep(ss[n - 1], es[n - 1], id);
    }
  }

  lemma OwnInit(id: nat)
    ensures Own(INIT_SERVER, id)
  {
  }

  /** As flush(5) asks: once a request is flushed no answer to it follows, provided its own tag is
      not taken again before its handler has ended.  Indeed, none is ever sent, because a flush
      only succeeds while the answer has not been handed over. */
  lemma FlushSafety(es: seq<Event>, ss: seq<Server>, n: nat, id: nat)
    requires Run(es, ss) && n <= |es| && id in ss[n].flushed
    requires forall i :: 0 <= i < n ==> !Reuses(ss[i], es[i], id)
    ensures forall f <- ss[n].out :: !AnswerTo(f, id)
    ensures ss[n].writing.Some? ==> !AnswerTo(ss[n].writing.value, id)
    ensures !Sending(ss[n], id)
  {
    OwnRun(es, ss, n, id);
    InvRun(es, ss, n);
    var s := ss[n];
    assert OneFate(BookOf(s), id);
  }

  // ---------------------------------------------------------------- flush: the exact condition

  /** The main loop takes up the response of request `id` and finds its tag in the table. */
  ghost predicate TakesUp(s: Server, e: Event, id: nat) {
    e == Complete(id) && id < |s.log| && s.log[id].tag in s.tags
  }

  /** And the entry found is another request's. */
  ghost predicate TakesUpForOther(s: Server, e: Event, id: nat) {
    TakesUp(s, e, id) && s.tags[s.log[id].tag] != id
  }

  /** Nothing between steps i and k takes the main loop out of its send. */
  ghost predicate StillSending(es: seq<Event>, i: nat, k: nat) {
    k <= |es| && forall j :: i < j < k ==> !es[j].Hand? && !es[j].Drop?
  }

  lemma TakenUp(s: Server, e: Event, id: nat)
    requires Inv(s) && Next(s, e).Some? && TakesUp(s, e, id)
    ensures var s' := Next(s, e).value;
            Sending(s', id) && s'.pc.resp.tag == s.log[id].tag && s'.tags == s.tags && s'.log == s.log
  {
    hide Ledger;
  }

  /** A response being sent was taken up, and the loop has been sending it since. */
  lemma {:induction false} ReplyingSince(es: seq<Event>, ss: seq<Server>, k: nat, id: nat) returns (i: nat)
    requires Run(es, ss) && k <= |es| && Sending(ss[k], id)
    ensures i < k && TakesUp(ss[i], es[i], id) && StillSending(es, i, k)
  {
    hide Inv, Next, Sending, TakesUp;
    NotSendingFirst(es, ss, k, id);
    InvRun(es, ss, k - 1);
    var s, e := ss[k - 1], es[k - 1];
    assert Next(s, e) == Some(ss[k]);
    if s.pc.Replying? {
      WasSending(s, e, id);
      i := ReplyingSince(es, ss, k - 1, id);
    } else {
      StartsReplying(s, e, id);
      i := k - 1;
    }
  }

  lemma NotSendingFirst(es: seq<Event>, ss: seq<Server>, k: nat, id: nat)
    requires Run(es, ss) && k <= |es| && Sending(ss[k], id)
    ensures k > 0
  {
  }

  lemma WasSending(s: Server, e: Event, id: nat)
    requires Next(s, e).Some? && s.pc.Replying? && Sending(Next(s, e).value, id)
    ensures Sending(s, id) && !e.Hand? && !e.Drop?
  {
    hide OnRequest, OnCompleted;
  }

  lemma StartsReplying(s: Server, e: Event, id: nat)
    requires Inv(s) && Next(s, e).Some? && !s.pc.Replying? && Sending(Next(s, e).value, id)
    ensures TakesUp(s, e, id)
  {
    hide Ledger;
  }

  /** Once its own entry is being answered, a request is never flushed. */
  ghost predicate Settled(s: Server, id: nat) {
    || id in s.replied || id in s.dropped
    || (s.pc.Replying? && s.pc.resp.tag in s.tags && s.tags[s.pc.resp.tag] == id)
  }

  lemma SettledStep(s: Server, e: Event, id: nat)
    requires Settled(s, id) && Next(s, e).Some?
    ensures Settled(Next(s, e).value, id)
  {
  }

  lemma SettledNotFlushed(s: Server, id: nat)
    requires Inv(s) && Settled(s, id)
    ensures id !in s.flushed
  {
    if id < |s.log| {
      assert OneFate(BookOf(s), id);
    }
  }

  lemma {:induction false} SettledRun(es: seq<Event>, ss: seq<Server>, i: nat, n: nat, id: nat)
    requires Run(es, ss) && i <= n <= |es| && Settled(ss[i], id)
    ensures Settled(ss[n], id)
    decreases n
  {
    hide Settled;
    if i < n {
      SettledRun(es, ss, i, n - 1, id);
      assert Next(ss[n - 1], es[n - 1]) == Some(ss[n]);
      SettledStep(ss[n - 1], es[n - 1], id);
    }
  }

  /** A request that is flushed in the end was taken up, if at all, for another request. */
  lemma TakenForOther(es: seq<Event>, ss: seq<Server>, i: nat, n: nat, id: nat)
    requires Run(es, ss) && i < n <= |es| && id in ss[n].flushed && TakesUp(ss[i], es[i], id)
    ensures TakesUpForOther(ss[i], es[i], id)
  {
    InvRun(es, ss, i);
    InvRun(es, ss, n);
    hide Inv;
    assert Next(ss[i], es[i]) == Some(ss[i + 1]);
    TakenUp(ss[i], es[i], id);
    if ss[i].tags[ss[i].log[id].tag] == id {
      SettledRun(es, ss, i + 1, n, id);
      SettledNotFlushed(ss[n], id);
    }
  }

  /** The exact condition, over every run: the loop comes to send the answer of a flushed request
      if and only if it took that answer up when the tag had been taken by another request. */
  lemma FlushedAnsweredIffReused(es: seq<Event>, ss: seq<Server>, n: nat, id: nat)
    requires Run(es, ss) && n <= |es| && id in ss[n].flushed
    ensures (exists k :: 0 <= k <= n && Sending(ss[k], id)) <==>
            (exists i :: 0 <= i < n && TakesUpForOther(ss[i], es[i], id))
  {
    hide Inv, TakesUp, TakesUpForOther;
    if k :| 0 <= k <= n && Sending(ss[k], id) {
      var i := ReplyingSince(es, ss, k, id);
      TakenForOther(es, ss, i, n, id);
    }
    if i :| 0 <= i < n && TakesUpForOther(ss[i], es[i], id) {
      InvRun(es, ss, i);
      TakesUpWeaker(ss[i], es[i], id);
      assert Next(ss[i], es[i]) == Some(ss[i + 1]);
      TakenUp(ss[i], es[i], id);
    }
  }

  lemma TakesUpWeaker(s: Server, e: Event, id: nat)
    requires TakesUpForOther(s, e, id)
    ensures TakesUp(s, e, id)
  {
  }

  /** Step j hands an answer to request `id` to the writer. */
  ghost predicate HandsAnswer(es: seq<Event>, ss: seq<Server>, j: nat, id: nat)
    requires j < |es| < |ss|
  {
    es[j].Hand? && ss[j + 1].writing.Some? && AnswerTo(ss[j + 1].writing.value, id)
  }

  /** And it is handed to the writer if and only if the send that began then was not dropped. */
  lemma FlushedSentIffReused(es: seq<Event>, ss: seq<Server>, n: nat, id: nat)
    requires Run(es, ss) && n <= |es| && id in ss[n].flushed
    ensures (exists j :: 0 <= j < n && HandsAnswer(es, ss, j, id)) <==>
            (exists i, j :: 0 <= i < j < n && es[j].Hand? && StillSending(es, i, j) &&
                            TakesUpForOther(ss[i], es[i], id))
  {
    hide Inv, TakesUp, TakesUpForOther, StillSending;
    if j :| 0 <= j < n && HandsAnswer(es, ss, j, id) {
      HandedWasReplying(es, ss, j, id);
      var i := ReplyingSince(es, ss, j, id);
      TakenForOther(es, ss, i, n, id);
      assert TakesUpForOther(ss[i], es[i], id) && StillSending(es, i, j) && es[j].Hand?;
    }
    if i, j :| 0 <= i < j < n && TakesUpForOther(ss[i], es[i], id) && StillSending(es, i, j) && es[j].Hand? {
      TakesUpWeaker(ss[i], es[i], id);
      SendGoesOn(es, ss, i, j, id);
      assert Next(ss[j], es[j]) == Some(ss[j + 1]);
      assert HandsAnswer(es, ss, j, id);
    }
  }

  /** What the loop sends past the table is never an answer. */
  lemma {:induction false} BypassNoAnswer(es: seq<Event>, ss: seq<Server>, n: nat)
    requires Run(es, ss) && n <= |es| && ss[n].pc.Bypass?
    ensures !ss[n].pc.resp.msg.Answer?
  {
    hide Next;
    if n > 0 {
      assert Next(ss[n - 1], es[n - 1]) == Some(ss[n]);
      BypassStep(ss[n - 1], es[n - 1]);
      if ss[n - 1].pc.Bypass? {
        BypassNoAnswer(es, ss, n - 1);
      }
    }
  }

  lemma BypassStep(s: Server, e: Event)
    requires Next(s, e).Some? && Next(s, e).value.pc.Bypass?
    ensures if s.pc.Bypass? then Next(s, e).value.pc == s.pc else !Next(s, e).value.pc.resp.msg.Answer?
  {
  }

  lemma HandedWasReplying(es: seq<Event>, ss: seq<Server>, j: nat, id: nat)
    requires Run(es, ss) && j < |es| && HandsAnswer(es, ss, j, id)
    ensures Sending(ss[j], id)
  {
    assert Next(ss[j], es[j]) == Some(ss[j + 1]);
    if ss[j].pc.Bypass? {
      BypassNoAnswer(es, ss, j);
    }
  }

  /** The loop stays with the send until Hand or Drop. */
  lemma {:induction false} SendGoesOn(es: seq<Event>, ss: seq<Server>, i: nat, k: nat, id: nat)
    requires Run(es, ss) && i < k <= |es| && TakesUp(ss[i], es[i], id) && StillSending(es, i, k)
    ensures Sending(ss[k], id)
    decreases k
  {
    assert Next(ss[k - 1], es[k - 1]) == Some(ss[k]);
    if k == i + 1 {
      InvRun(es, ss, i);
      TakenUp(ss[i], es[i], id);
    } else {
      SendGoesOn(es, ss, i, k - 1, id);
      assert !es[k - 1].Hand? && !es[k - 1].Drop?;
    }
  }

  /** Without the condition the promise fails: request 0 under tag 1 is flushed and Rflush is
      written, the client reuses tag 1, and the late completion of request 0 is written as the
      answer to it. */
  lemma EarlyReuseAnswersFlushed() returns (es: seq<Event>, ss: seq<Server>)
    ensures Run(es, ss) && 0 in ss[|es|].flushed
    ensures ss[|es|].out == [Fcall(2, Rflush, 0), Fcall(1, Answer(8), 0)]
  {
    hide Run;
    var q0, a0 := Fcall(1, Call(7), 0), Fcall(1, Answer(8), 0);
    var s1 := INIT_SERVER.(tags := map[1 := 0], handlers := map[0 := Offering(q0, a0)], log := [q0]);
    es, ss := Empty();
    es, ss := Extend(es, ss, INIT_SERVER, Read(q0));
    es, ss := Extend(es, ss, INIT_SERVER.(reading := Some(q0)), Accept);
    es, ss := Extend(es, ss, s1.(handlers := map[0 := Running(q0)]), Finish(0, 8));
    es, ss := Extend(es, ss, s1, Read(Fcall(2, Tflush(1), 0)));
    es, ss := Extend(es, ss, s1.(reading := Some(Fcall(2, Tflush(1), 0))), Accept);
    var s2 := s1.(tags := map[], flushed := {0});
    es, ss := Extend(es, ss, s2.(pc := Bypass(Fcall(2, Rflush, 0))), Hand);
    es, ss := Extend(es, ss, s2.(writing := Some(Fcall(2, Rflush, 0))), Write);
    es, ss := ReuseTag(es, ss, s2.(out := [Fcall(2, Rflush, 0)]), a0);
  }

  lemma Empty() returns (es: seq<Event>, ss: seq<Server>)
    ensures Run(es, ss) && ss[|es|] == INIT_SERVER
  {
    es, ss := [], [INIT_SERVER];
  }

  lemma Extend(es: seq<Event>, ss: seq<Server>, s: Server, e: Event) returns (es': seq<Event>, ss': seq<Server>)
    requires Run(es, ss) && ss[|es|] == s && Next(s, e).Some?
    ensures Run(es', ss') && ss'[|es'|] == Next(s, e).value
  {
    es', ss' := es + [e], ss + [Next(s, e).value];
  }

  /** A new request under tag 1, and then the completion of the old one. */
  lemma ReuseTag(es: seq<Event>, ss: seq<Server>, s: Server, a0: Fcall) returns (es': seq<Event>, ss': seq<Server>)
    requires Run(es, ss) && ss[|es|] == s && a0.tag == 1
    requires s.tags == map[] && s.pc.Idle? && s.reading.None? && s.writing.None?
    requires |s.log| == 1 && s.handlers.Keys == {0} && s.handlers[0].Offering? && s.handlers[0].resp == a0
    ensures Run(es', ss') && ss'[|es'|].out == s.out + [a0] && ss'[|es'|].flushed == s.flushed
  {
    hide Run;
    var q1 := Fcall(1, Call(9), 0);
    es', ss' := Extend(es, ss, s, Read(q1));
    es', ss' := Extend(es', ss', s.(reading := Some(q1)), Accept);
    var s1 := s.(tags := map[1 := 1], handlers := s.handlers[1 := Running(q1)], log := s.log + [q1]);
    es', ss' := Extend(es', ss', s1, Complete(0));
    var s2 := s1.(handlers := s1.handlers - {0});
    es', ss' := Extend(es', ss', s2.(pc := Replying(a0)), Hand);
    es', ss' := Extend(es', ss', s2.(pc := Deleting(1), writing := Some(a0), replied := s2.replied + {1}), Write);
  }

  // ---------------------------------------------------------------- which frame follows which request

  /** Accepted, and neither answered nor given up. */
  ghost predicate Open(s: Server, id: nat) {
    id < |s.log| && id !in s.replied && id !in s.flushed && id !in s.dropped
  }

  ghost predicate OpenUnder(s: Server, t: Tag, id: nat) {
    Open(s, id) && s.log[id].tag == t
  }

  /** The table holds the open requests by their tags. */
  lemma TableIsOpen(s: Server, t: Tag, id: nat)
    requires Inv(s) && !s.pc.Deleting?
    ensures OpenUnder(s, t, id) <==> t in s.tags && s.tags[t] == id
  {
    hide PcOk, HandlersOk;
    if id < |s.log| {
      assert OneFate(BookOf(s), id);
    }
  }

  /** What a request is answered at once, from the fates of the requests before it; None when a handler is
      started for it. */
  ghost function AtOnce(s: Server, f: Fcall): Option<Fcall> {
    if exists id :: OpenUnder(s, f.tag, id) then Some(Fcall(f.tag, DupTag, f.origin))
    else if !f.msg.Tflush? then None
    else if exists id :: OpenUnder(s, f.msg.oldtag, id) then Some(Fcall(f.tag, Rflush, f.origin))
    else Some(Fcall(f.tag, UnknownTag, f.origin))
  }

  /** Whether the request under `id` is given up for this one. */
  ghost predicate Flushes(s: Server, f: Fcall, id: nat) {
    f.msg.Tflush? && OpenUnder(s, f.msg.oldtag, id) && !exists x :: OpenUnder(s, f.tag, x)
  }

  /** A duplicate and a flush get their reply as the next frame to be sent, the flush giving up exactly the
      open request it names, if there is one; any other request becomes open under the next number,
      with its own handler. */
  ghost predicate Outcome(s: Server, f: Fcall, s': Server) {
    match AtOnce(s, f)
    case Some(g) =>
      && s'.pc == Bypass(g) && s'.log == s.log && s'.handlers == s.handlers
      && (forall id :: id in s'.flushed <==> id in s.flushed || Flushes(s, f, id))
    case None =>
      && s'.pc == Idle && s'.log == s.log + [f] && s'.flushed == s.flushed
      && s'.handlers == s.handlers[|s.log| := Running(f)] && OpenUnder(s', f.tag, |s.log|)
  }

  lemma OutcomeStep(s: Server, s': Server)
    requires Inv(s) && Inv(s') && Next(s, Accept) == Some(s')
    ensures Outcome(s, s.reading.value, s')
  {
    hide Inv, OpenUnder;
    var f := s.reading.value;
    forall id ensures OpenUnder(s, f.tag, id) <==> f.tag in s.tags && s.tags[f.tag] == id {
      TableIsOpen(s, f.tag, id);
    }
    if f.tag in s.tags {
      assert OpenUnder(s, f.tag, s.tags[f.tag]);
    } else if f.msg.Tflush? {
      var t := f.msg.oldtag;
      forall id ensures OpenUnder(s, t, id) <==> t in s.tags && s.tags[t] == id {
        TableIsOpen(s, t, id);
      }
      if t in s.tags {
        assert OpenUnder(s, t, s.tags[t]);
      }
    } else {
      TableIsOpen(s', f.tag, |s.log|);
    }
  }

  /** So it is for every request accepted in every run. */
  lemma OutcomeRun(es: seq<Event>, ss: seq<Server>, i: nat)
    requires Run(es, ss) && i < |es| && es[i].Accept?
    ensures ss[i].reading.Some? && Outcome(ss[i], ss[i].reading.value, ss[i + 1])
  {
    InvRun(es, ss, i);
    InvRun(es, ss, i + 1);
    assert Next(ss[i], es[i]) == Some(ss[i + 1]);
    hide Run, Inv, Outcome;
    OutcomeStep(ss[i], ss[i + 1]);
  }

  ghost predicate StillOffered(es: seq<Event>, i: nat, j: nat, id: nat) {
    forall k :: i < k < j && k < |es| ==> es[k] != Complete(id) && es[k] != Exit(id)
  }

  lemma OfferStep(s: Server, e: Event, s': Server, id: nat)
    requires Next(s, e) == Some(s') && id in s.handlers && s.handlers[id].Offering?
    requires e != Complete(id) && e != Exit(id) && id < |s.log|
    ensures id in s'.handlers && s'.handlers[id] == s.handlers[id]
  {
  }

  /** What a handler returned is what its goroutine goes on offering, under the tag of its request. */
  lemma {:induction false} OfferStays(es: seq<Event>, ss: seq<Server>, i: nat, j: nat, id: nat)
    requires Run(es, ss) && i < j <= |es| && es[i].Finish? && es[i].id == id && StillOffered(es, i, j, id)
    ensures id < |ss[j].log|
    ensures id in ss[j].handlers
    ensures ss[j].handlers[id] == Offering(ss[j].log[id], Fcall(ss[j].log[id].tag, Answer(es[i].body), id))
    decreases j
  {
    InvRun(es, ss, j - 1);
    InvRun(es, ss, j);
    assert Next(ss[j - 1], es[j - 1]) == Some(ss[j]);
    hide Run, Ledger, PcOk, Entries;
    if i < j - 1 {
      OfferStays(es, ss, i, j - 1, id);
      hide Next;
      OfferStep(ss[j - 1], es[j - 1], ss[j], id);
    }
  }

  /** When the loop takes a completed response it goes on to send it, with the handler's body, under the
      request's own tag, if any request is open under that tag; otherwise it forgets it. */
  lemma CompleteOutcome(es: seq<Event>, ss: seq<Server>, i: nat, j: nat, id: nat)
    requires Run(es, ss) && i < j < |es| && es[i].Finish? && es[i].id == id && StillOffered(es, i, j, id)
    requires es[j] == Complete(id)
    ensures id < |ss[j].log|
    ensures var t := ss[j].log[id].tag;
            if exists x :: OpenUnder(ss[j], t, x) then ss[j + 1].pc == Replying(Fcall(t, Answer(es[i].body), id))
            else ss[j + 1].pc == Idle
  {
    OfferStays(es, ss, i, j, id);
    InvRun(es, ss, j);
    assert Next(ss[j], es[j]) == Some(ss[j + 1]);
    hide Run, Inv, OpenUnder;
    var t := ss[j].log[id].tag;
    forall x ensures OpenUnder(ss[j], t, x) <==> t in ss[j].tags && ss[j].tags[t] == x {
      TableIsOpen(ss[j], t, x);
    }
    if t in ss[j].tags {
      assert OpenUnder(ss[j], t, ss[j].tags[t]);
    }
  }

  ghost predicate NoHand(es: seq<Event>, i: nat, j: nat) {
    forall k :: i <= k < j && k < |es| ==> !es[k].Hand?
  }

  ghost predicate NoWrite(es: seq<Event>, i: nat, j: nat) {
    forall k :: i <= k < j && k < |es| ==> !es[k].Write? && !es[k].Lose?
  }

  /** That reply is the next frame the writer is handed, if the loop is not ended first. */
  lemma {:induction false} BypassIsNext(es: seq<Event>, ss: seq<Server>, i: nat, j: nat, g: Fcall)
    requires Run(es, ss) && i <= j < |es| && ss[i].pc == Bypass(g) && NoHand(es, i, j)
    ensures ss[j].pc == Bypass(g) || ss[j].pc == Stopped
    ensures es[j].Hand? ==> ss[j + 1].writing == Some(g)
    decreases j
  {
    assert Next(ss[j], es[j]) == Some(ss[j + 1]);
    if i < j {
      BypassIsNext(es, ss, i, j - 1, g);
      assert Next(ss[j - 1], es[j - 1]) == Some(ss[j]);
    }
  }

  lemma WriterStep(s: Server, e: Event, s': Server, g: Fcall)
    requires Next(s, e) == Some(s') && s.writing == Some(g)
    ensures e.Write? ==> s'.out == s.out + [g]
    ensures !e.Write? ==> s'.out == s.out
    ensures !e.Write? && !e.Lose? ==> s'.writing == s.writing
  {
  }

  /** What the writer is handed is the next frame it writes, unless that write fails. */
  lemma {:induction false} HandedIsNext(es: seq<Event>, ss: seq<Server>, i: nat, j: nat, g: Fcall)
    requires Run(es, ss) && i <= j < |es| && ss[i].writing == Some(g) && NoWrite(es, i, j)
    ensures ss[j].writing == Some(g) && ss[j].out == ss[i].out
    ensures ss[j + 1].out == if es[j].Write? then ss[j].out + [g] else ss[j].out
    decreases j
  {
    hide Next;
    if i < j {
      HandedIsNext(es, ss, i, j - 1, g);
      WriterStep(ss[j - 1], es[j - 1], ss[j], g);
    }
    WriterStep(ss[j], es[j], ss[j + 1], g);
  }
}
