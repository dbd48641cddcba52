/** The client loop, the two wires and the server put together: whose answer reaches whom.
    Callers send no flush themselves (the session interface has none). */
module Mux {
  import opened Common
  import opened Transport
  import Serve

  /** `held` is the response the client's reading goroutine is handing to the loop.  `asked`
      records the body of each request and `answers` what the handler returned for each
      accepted request. */
  datatype World = World(
    c: Client,
    c2s: seq<Fcall>,
    s: Serve.Server,
    s2c: seq<Fcall>,
    held: Option<Fcall>,
    asked: map<nat, nat>,
    answers: map<nat, nat>)

  const INIT_WORLD := World(INIT_CLIENT, [], Serve.INIT_SERVER, [], None, map[], map[])

  datatype Step =
    | Ask(r: nat, body: nat, writeOk: bool)  // the client loop takes a new request
    | ServerRead                             // the server's reader takes a frame
    | ServerWrite                            // the server's writer sends its response
    | ServerMove(e: Serve.Event)             // any other step of the server
    | ClientRead                             // the client's reader takes a frame
    | Deliver                                // the client loop takes that frame

  ghost predicate Next(w: World, x: Step, w': World) {
    !w.c.panicked &&
    match x
    case Ask(r, body, ok) =>
      r !in w.asked &&
      (exists sent :: Submit(w.c, w'.c, r, ok, sent) &&
         w' == w.(c := w'.c, asked := w.asked[r := body],
                  c2s := w.c2s + if sent.Some? then [Fcall(sent.value, Call(body), r)] else []))
    case ServerRead =>
      |w.c2s| > 0 && Serve.Next(w.s, Serve.Read(w.c2s[0])) == Some(w'.s) &&
      w' == w.(c2s := w.c2s[1..], s := w'.s)
    case ServerWrite =>
      w.s.writing.Some? && Serve.Next(w.s, Serve.Write) == Some(w'.s) &&
      w' == w.(s := w'.s, s2c := w.s2c + [w.s.writing.value])
    case ServerMove(e) =>
      !e.Read? && !e.Write? && Serve.Next(w.s, e) == Some(w'.s) &&
      w' == w.(s := w'.s, answers := if e.Finish? then w.answers[e.id := e.body] else w.answers)
    case ClientRead =>
      w.held.None? && |w.s2c| > 0 && w' == w.(held := Some(w.s2c[0]), s2c := w.s2c[1..])
    case Deliver =>
      w.held.Some? && w' == w.(c := Receive(w.c, w.held.value), held := None)
  }

  ghost predicate Run(xs: seq<Step>, ws: seq<World>) {
    && |ws| == |xs| + 1 && ws[0] == INIT_WORLD
    && forall i :: 0 <= i < |xs| ==> Next(ws[i], xs[i], ws[i + 1])
  }

  // ---------------------------------------------------------------- the three places

  function Opt(o: Option<Fcall>): seq<Fcall> {
    if o.Some? then [o.value] else []
  }

  /** Requests in flight, oldest first. */
  function Reqs(w: World): seq<Fcall> {
    Opt(w.s.reading) + w.c2s
  }

  /** Replies in flight, oldest first. */
  function Reps(w: World): seq<Fcall> {
    Opt(w.held) + w.s2c + Opt(w.s.writing)
  }

  ghost predicate Distinct(fs: seq<Fcall>) {
    forall i, j :: 0 <= i < j < |fs| ==> fs[i].tag != fs[j].tag
  }

  ghost predicate ReqOk(f: Fcall, outstanding: map<Tag, nat>, asked: map<nat, nat>) {
    && f.tag in outstanding && outstanding[f.tag] == f.origin
    && f.origin in asked && f.msg == Call(asked[f.origin])
  }

  /** The frame is the handler's answer to an accepted request with this tag. */
  ghost predicate Genuine(f: Fcall, log: seq<Fcall>, answers: map<nat, nat>) {
    && f.origin < |log| && log[f.origin].tag == f.tag
    && f.origin in answers && f.msg == Answer(answers[f.origin])
  }

  ghost predicate RepOk(f: Fcall, outstanding: map<Tag, nat>, log: seq<Fcall>, answers: map<nat, nat>) {
    && Genuine(f, log, answers)
    && f.tag in outstanding && outstanding[f.tag] == log[f.origin].origin
  }

  ghost predicate ActiveOk(active: map<Tag, nat>, outstanding: map<Tag, nat>, log: seq<Fcall>) {
    forall t :: t in active ==>
      active[t] < |log| && log[active[t]].tag == t && t in outstanding && outstanding[t] == log[active[t]].origin
  }

  ghost predicate LogOk(log: seq<Fcall>, asked: map<nat, nat>) {
    forall i :: 0 <= i < |log| ==> log[i].origin in asked && log[i].msg == Call(asked[log[i].origin])
  }

  /** A goroutine's request is the active entry of its tag, and has an answer once it offers one. */
  ghost predicate HandlersIn(handlers: map<nat, Serve.Handler>, active: map<Tag, nat>, log: seq<Fcall>,
                             answers: map<nat, nat>) {
    forall id :: id in handlers ==>
      && id < |log| && handlers[id].req == log[id]
      && log[id].tag in active && active[log[id].tag] == id
      && (if handlers[id].Running? then id !in answers
          else Genuine(handlers[id].resp, log, answers) && handlers[id].resp.origin == id)
  }

  ghost predicate PcIn(s: Serve.Server, answers: map<nat, nat>) {
    && !s.pc.Bypass?
    && (s.pc.Deleting? ==> s.pc.tag in s.tags)
    && (s.pc.Replying? ==>
          && Genuine(s.pc.resp, s.log, answers) && s.pc.resp.tag in s.tags
          && s.tags[s.pc.resp.tag] == s.pc.resp.origin && s.pc.resp.origin !in s.handlers)
  }

  ghost predicate Apart(reqs: seq<Fcall>, active: map<Tag, nat>, reps: seq<Fcall>) {
    && (forall f <- reqs :: f.tag !in active)
    && (forall f <- reps :: f.tag !in active)
    && (forall f <- reqs, g <- reps :: f.tag != g.tag)
  }

  ghost predicate ValueOk(v: (nat, Value), log: seq<Fcall>, asked: map<nat, nat>, answers: map<nat, nat>) {
    v.1.Response? ==>
      && Genuine(v.1.f, log, answers) && log[v.1.f.origin].origin == v.0
      && v.0 in asked && log[v.1.f.origin].msg == Call(asked[v.0])
  }

  ghost predicate Flights(w: World) {
    && Distinct(Reqs(w)) && Distinct(Reps(w))
    && (forall f <- Reqs(w) :: ReqOk(f, w.c.outstanding, w.asked))
    && (forall f <- Reps(w) :: RepOk(f, w.c.outstanding, w.s.log, w.answers))
    && Apart(Reqs(w), Serve.Active(w.s), Reps(w))
  }

  ghost predicate Inside(w: World) {
    && ActiveOk(Serve.Active(w.s), w.c.outstanding, w.s.log)
    && LogOk(w.s.log, w.asked)
    && HandlersIn(w.s.handlers, Serve.Active(w.s), w.s.log, w.answers)
    && PcIn(w.s, w.answers)
    && (forall id :: id in w.answers ==> id < |w.s.log|)
    && (forall f <- w.s.out :: f.msg.Answer?)
  }

  /** Every outstanding tag is in at most one place, each place knows whose it is, and what
      was delivered was the handler's answer to the caller's own request. */
  ghost predicate Inv(w: World) {
    && Flights(w) && Inside(w) && !w.c.panicked
    && (forall v <- w.c.values :: ValueOk(v, w.s.log, w.asked, w.answers))
  }

  // ---------------------------------------------------------------- each step keeps it

  lemma DistinctPop(f: Fcall, rest: seq<Fcall>)
    requires Distinct([f] + rest)
    ensures Distinct(rest) && forall g <- rest :: g.tag != f.tag
  {
    var fs := [f] + rest;
    forall i | 0 <= i < |rest| ensures rest[i].tag != f.tag {
      assert fs[0] == f && fs[i + 1] == rest[i];
    }
    forall i, j | 0 <= i < j < |rest| ensures rest[i].tag != rest[j].tag {
      assert fs[i + 1] == rest[i] && fs[j + 1] == rest[j];
    }
  }

  lemma DistinctPush(fs: seq<Fcall>, f: Fcall)
    requires Distinct(fs) && forall g <- fs :: g.tag != f.tag
    ensures Distinct(fs + [f])
  {
    assert forall i :: 0 <= i < |fs| ==> fs[i] in fs;
  }

  lemma AskKeeps(w: World, r: nat, body: nat, ok: bool, w': World)
    requires Inv(w) && Next(w, Ask(r, body, ok), w')
    ensures Inv(w')
  {
    var sent :| Submit(w.c, w'.c, r, ok, sent) &&
         w' == w.(c := w'.c, asked := w.asked[r := body],
                  c2s := w.c2s + if sent.Some? then [Fcall(sent.value, Call(body), r)] else []);
    hide Submit, Flights, Inside, Genuine;
    SubmitFresh(w.c, w'.c, r, ok, sent);
    AskInside(w, r, body, w', sent);
    AskFlights(w, r, body, w', sent);
  }

  lemma AskInside(w: World, r: nat, body: nat, w': World, sent: Option<Tag>)
    requires Inside(w) && r !in w.asked && w'.s == w.s && w'.answers == w.answers && w'.asked == w.asked[r := body]
    requires sent.Some? ==> sent.value !in w.c.outstanding
    requires w'.c.outstanding == if sent.Some? then w.c.outstanding[sent.value := r] else w.c.outstanding
    ensures Inside(w')
  {
    hide HandlersIn, PcIn;
  }

  lemma AskFlights(w: World, r: nat, body: nat, w': World, sent: Option<Tag>)
    requires Flights(w) && Inside(w) && r !in w.asked && w'.s == w.s && w'.answers == w.answers
    requires w'.asked == w.asked[r := body] && w'.held == w.held && w'.s2c == w.s2c
    requires sent.Some? ==> sent.value !in w.c.outstanding
    requires w'.c.outstanding == if sent.Some? then w.c.outstanding[sent.value := r] else w.c.outstanding
    requires w'.c2s == w.c2s + if sent.Some? then [Fcall(sent.value, Call(body), r)] else []
    ensures Flights(w')
  {
    SameReps(w, w');
    var f := if sent.Some? then [Fcall(sent.value, Call(body), r)] else [];
    assert Reqs(w') == Reqs(w) + f;
    hide Distinct, Reqs, Reps, HandlersIn, PcIn, Genuine, LogOk, Apart, ReqOk, RepOk, ActiveOk;
    OldStillOk(w, w', r, body, sent);
    if sent.Some? {
      NewRequest(w, w', f[0]);
    } else {
      assert Reqs(w) + [] == Reqs(w);
    }
  }

  /** A new outstanding tag leaves what is known about the others alone. */
  lemma OldStillOk(w: World, w': World, r: nat, body: nat, sent: Option<Tag>)
    requires Flights(w) && r !in w.asked && w'.s == w.s && w'.answers == w.answers
    requires w'.asked == w.asked[r := body]
    requires sent.Some? ==> sent.value !in w.c.outstanding
    requires w'.c.outstanding == if sent.Some? then w.c.outstanding[sent.value := r] else w.c.outstanding
    ensures forall f <- Reqs(w) :: ReqOk(f, w'.c.outstanding, w'.asked)
    ensures forall f <- Reps(w) :: RepOk(f, w'.c.outstanding, w'.s.log, w'.answers)
  {
    hide Distinct, Reqs, Reps, Genuine, Apart;
  }

  /** Nothing outstanding has the new request's tag. */
  lemma NewRequest(w: World, w': World, f: Fcall)
    requires Flights(w) && Inside(w) && f.tag !in w.c.outstanding && w'.s == w.s
    requires f.origin in w'.asked && f.msg == Call(w'.asked[f.origin])
    requires w'.c.outstanding == w.c.outstanding[f.tag := f.origin]
    ensures Distinct(Reqs(w) + [f]) && ReqOk(f, w'.c.outstanding, w'.asked)
    ensures Apart(Reqs(w) + [f], Serve.Active(w'.s), Reps(w))
  {
    hide Distinct, Reqs, Reps, HandlersIn, PcIn, Genuine, LogOk;
    DistinctPush(Reqs(w), f);
  }

  lemma SubmitFresh(c: Client, c': Client, r: nat, ok: bool, sent: Option<Tag>)
    requires Submit(c, c', r, ok, sent)
    ensures sent.Some? ==> sent.value !in c.outstanding && c'.outstanding == c.outstanding[sent.value := r]
    ensures sent.None? ==> c'.outstanding == c.outstanding
    ensures c'.panicked == c.panicked
    ensures forall v <- c'.values :: v in c.values || !v.1.Response?
  {
  }

  lemma SameReps(w: World, w': World)
    requires w'.held == w.held && w'.s2c == w.s2c && w'.s.writing == w.s.writing
    ensures Reps(w') == Reps(w)
  {
  }

  lemma ReadKeeps(w: World, w': World)
    requires Inv(w) && Next(w, ServerRead, w')
    ensures Inv(w')
  {
    assert Reqs(w') == Reqs(w) && Reps(w') == Reps(w);
  }

  lemma WriteKeeps(w: World, w': World)
    requires Inv(w) && Next(w, ServerWrite, w')
    ensures Inv(w')
  {
    assert Reqs(w') == Reqs(w) && Reps(w') == Reps(w);
    assert w.s.writing.value in Reps(w);
  }

  lemma ClientReadKeeps(w: World, w': World)
    requires Inv(w) && Next(w, ClientRead, w')
    ensures Inv(w')
  {
    assert Reqs(w') == Reqs(w) && Reps(w') == Reps(w);
  }

  lemma DeliverKeeps(w: World, w': World)
    requires Inv(w) && Next(w, Deliver, w')
    ensures Inv(w')
  {
    var f := w.held.value;
    assert Reqs(w') == Reqs(w) && Reps(w) == [f] + Reps(w') && f in Reps(w);
    assert RepOk(f, w.c.outstanding, w.s.log, w.answers);
    hide Distinct, Reqs, Reps, Genuine;
    DeliverFlights(w, f, w');
    DeliverInside(w, f, w');
    assert ValueOk((w.c.outstanding[f.tag], Response(f)), w.s.log, w.asked, w.answers);
  }

  lemma DeliverFlights(w: World, f: Fcall, w': World)
    requires Flights(w) && Reqs(w') == Reqs(w) && Reps(w) == [f] + Reps(w') && w'.s == w.s
    requires w'.asked == w.asked && w'.answers == w.answers && w'.c.outstanding == w.c.outstanding - {f.tag}
    ensures Flights(w')
  {
    hide Distinct, Reqs, Reps, Genuine;
    DistinctPop(f, Reps(w'));
    assert f in Reps(w) && forall g <- Reps(w') :: g in Reps(w);
  }

  lemma DeliverInside(w: World, f: Fcall, w': World)
    requires Inside(w) && f.tag !in Serve.Active(w.s) && w'.s == w.s
    requires w'.asked == w.asked && w'.answers == w.answers && w'.c.outstanding == w.c.outstanding - {f.tag}
    ensures Inside(w')
  {
    hide HandlersIn, PcIn, LogOk;
  }

  /** No request meets an active entry of its tag: when the loop is back in its select, the
      entry whose reply went out has been deleted. */
  lemma AcceptKeeps(w: World, w': World)
    requires Inv(w) && Next(w, ServerMove(Serve.Accept), w')
    ensures Inv(w')
  {
    hide Distinct, Reps, HandlersIn, PcIn, Genuine, LogOk, ActiveOk, RepOk;
    var f := w.s.reading.value;
    SameReps(w, w');
    assert Reqs(w) == [f] + Reqs(w') && f in Reqs(w);
    assert ReqOk(f, w.c.outstanding, w.asked);
    DistinctPop(f, Reqs(w'));
    AcceptInside(w, f, w');
    AcceptFlights(w, f, w');
    forall v <- w.c.values ensures ValueOk(v, w'.s.log, w.asked, w.answers) {
      LogGrows(v, w.s.log, w'.s.log, w.asked, w.answers);
    }
  }

  lemma LogGrows(v: (nat, Value), log: seq<Fcall>, log': seq<Fcall>, asked: map<nat, nat>, answers: map<nat, nat>)
    requires ValueOk(v, log, asked, answers) && log <= log'
    ensures ValueOk(v, log', asked, answers)
  {
  }

  lemma AcceptInside(w: World, f: Fcall, w': World)
    requires Inside(w) && w.s.pc.Idle? && ReqOk(f, w.c.outstanding, w.asked) && f.tag !in w.s.tags
    requires w' == w.(s := Serve.OnRequest(w.s.(reading := None), f))
    ensures Inside(w')
  {
  }

  lemma AcceptFlights(w: World, f: Fcall, w': World)
    requires Flights(w) && w.s.pc.Idle? && f.tag !in w.s.tags && f.msg.Call?
    requires w' == w.(s := Serve.OnRequest(w.s.(reading := None), f))
    requires Reqs(w) == [f] + Reqs(w') && Reps(w') == Reps(w)
    ensures Flights(w')
  {
    hide Reqs, Reps;
    DistinctPop(f, Reqs(w'));
    assert f in Reqs(w) && forall g <- Reqs(w') :: g in Reqs(w);
  }

  lemma FinishKeeps(w: World, id: nat, body: nat, w': World)
    requires Inv(w) && Next(w, ServerMove(Serve.Finish(id, body)), w')
    ensures Inv(w')
  {
    hide Distinct, Reqs, Reps, Apart, Genuine;
    SamePlaces(w, w');
    AnswersGrow(w, id, body);
    FinishInside(w, id, body, w');
  }

  lemma FinishInside(w: World, id: nat, body: nat, w': World)
    requires Inside(w) && Next(w, ServerMove(Serve.Finish(id, body)), w')
    ensures Inside(w')
  {
    hide ActiveOk, LogOk, Genuine;
    AnswersGrow(w, id, body);
    FreshAnswer(w.s.log, id, body, w.answers);
    assert Serve.Active(w'.s) == Serve.Active(w.s);
  }

  lemma FreshAnswer(log: seq<Fcall>, id: nat, body: nat, answers: map<nat, nat>)
    requires id < |log|
    ensures Genuine(Fcall(log[id].tag, Answer(body), id), log, answers[id := body])
  {
  }

  lemma SamePlaces(w: World, w': World)
    requires w'.held == w.held && w'.s2c == w.s2c && w'.c2s == w.c2s
    requires w'.s.writing == w.s.writing && w'.s.reading == w.s.reading
    ensures Reps(w') == Reps(w) && Reqs(w') == Reqs(w)
  {
  }

  lemma AnswersGrow(w: World, id: nat, body: nat)
    requires id !in w.answers
    ensures forall f, log :: Genuine(f, log, w.answers) ==> Genuine(f, log, w.answers[id := body])
  {
  }

  lemma CompleteKeeps(w: World, id: nat, w': World)
    requires Inv(w) && Next(w, ServerMove(Serve.Complete(id)), w')
    ensures Inv(w')
  {
    hide Distinct, Reqs, Reps, Apart, RepOk, ReqOk;
    SamePlaces(w, w');
  }

  lemma HandKeeps(w: World, w': World)
    requires Inv(w) && Next(w, ServerMove(Serve.Hand), w')
    ensures Inv(w')
  {
    hide Genuine, Distinct, ActiveOk, Apart;
    var f := w.s.pc.resp;
    assert Reqs(w') == Reqs(w) && Reps(w') == Reps(w) + [f];
    HandInside(w, w');
    HandFlights(w, f, w');
  }

  lemma HandInside(w: World, w': World)
    requires Inside(w) && Next(w, ServerMove(Serve.Hand), w')
    ensures Inside(w')
  {
    hide LogOk;
  }

  lemma HandFlights(w: World, f: Fcall, w': World)
    requires Flights(w) && Inside(w) && w.s.pc == Serve.Replying(f) && w'.s.log == w.s.log
    requires w'.c == w.c && w'.asked == w.asked && w'.answers == w.answers
    requires w'.s.tags == w.s.tags && w'.s.pc == Serve.Deleting(f.tag)
    requires Reqs(w') == Reqs(w) && Reps(w') == Reps(w) + [f]
    ensures Flights(w')
  {
    hide Distinct, Reqs, Reps, LogOk, HandlersIn;
    DistinctPush(Reps(w), f);
  }

  lemma LoseKeeps(w: World, w': World)
    requires Inv(w) && Next(w, ServerMove(Serve.Lose), w')
    ensures Inv(w')
  {
    assert Reqs(w') == Reqs(w) && Reps(w) == Reps(w') + [w.s.writing.value];
    assert forall i :: 0 <= i < |Reps(w')| ==> Reps(w')[i] == Reps(w)[i];
  }

  lemma DropKeeps(w: World, w': World)
    requires Inv(w) && Next(w, ServerMove(Serve.Drop), w')
    ensures Inv(w')
  {
    hide Distinct, Reqs, Reps, RepOk, ReqOk;
    SamePlaces(w, w');
  }

  lemma DeleteKeeps(w: World, w': World)
    requires Inv(w) && Next(w, ServerMove(Serve.Delete), w')
    ensures Inv(w')
  {
    hide Distinct, Genuine, Reqs, Reps, RepOk, ReqOk, Apart, ActiveOk, HandlersIn;
    SamePlaces(w, w');
    assert Serve.Active(w'.s) == Serve.Active(w.s);
  }

  /** A goroutine leaves, the loop stops, the context ends or the connection closes. */
  lemma OtherKeeps(w: World, e: Serve.Event, w': World)
    requires Inv(w) && Next(w, ServerMove(e), w')
    requires e.Exit? || e.Abort? || e.CancelCtx? || e.Close?
    ensures Inv(w')
  {
    hide Distinct, Genuine, Reqs, Reps, RepOk, ReqOk, Apart, ActiveOk;
    SamePlaces(w, w');
    assert Serve.Active(w'.s) == Serve.Active(w.s);
  }

  lemma NotServerMove(w: World, e: Serve.Event, w': World)
    requires Next(w, ServerMove(e), w')
    ensures !e.Read? && !e.Write?
  {
  }

  lemma StepKeeps(w: World, x: Step, w': World)
    requires Inv(w) && Next(w, x, w')
    ensures Inv(w')
  {
    hide Inv, Next;
    match x {
      case Ask(r, body, ok) => AskKeeps(w, r, body, ok, w');
      case ServerRead => ReadKeeps(w, w');
      case ServerWrite => WriteKeeps(w, w');
      case ClientRead => ClientReadKeeps(w, w');
      case Deliver => DeliverKeeps(w, w');
      case ServerMove(e) =>
        match e {
          case Accept => AcceptKeeps(w, w');
          case Finish(id, body) => FinishKeeps(w, id, body, w');
          case Complete(id) => CompleteKeeps(w, id, w');
          case Hand => HandKeeps(w, w');
          case Lose => LoseKeeps(w, w');
          case Drop => DropKeeps(w, w');
          case Delete => DeleteKeeps(w, w');
          case Exit(_) => OtherKeeps(w, e, w');
          case Abort => OtherKeeps(w, e, w');
          case CancelCtx => OtherKeeps(w, e, w');
          case Close => OtherKeeps(w, e, w');
          case _ => NotServerMove(w, e, w');
        }
    }
  }

  lemma InitInv()
    ensures Inv(INIT_WORLD)
  {
  }

  lemma {:induction false} RunKeeps(xs: seq<Step>, ws: seq<World>, n: nat)
    requires Run(xs, ws) && n <= |xs|
    ensures Inv(ws[n])
  {
    hide Inv, Next;
    if n == 0 {
      InitInv();
    } else {
      RunKeeps(xs, ws, n - 1);
      StepKeeps(ws[n - 1], xs[n - 1], ws[n]);
    }
  }

  // ---------------------------------------------------------------- theorems

  /** The panic for an unknown tag is never reached. */
  lemma NoPanic(xs: seq<Step>, ws: seq<World>, n: nat)
    requires Run(xs, ws) && n <= |xs|
    ensures !ws[n].c.panicked
  {
    RunKeeps(xs, ws, n);
  }

  /** The server never answers that a tag is a duplicate: no such response is ever being sent,
      waiting for the writer, or written. */
  lemma NeverDupTag(xs: seq<Step>, ws: seq<World>, n: nat)
    requires Run(xs, ws) && n <= |xs|
    ensures var s := ws[n].s;
            && !s.pc.Bypass?
            && (s.writing.Some? ==> !s.writing.value.msg.DupTag?)
            && (forall f <- s.out :: !f.msg.DupTag?)
  {
    RunKeeps(xs, ws, n);
    if ws[n].s.writing.Some? {
      assert ws[n].s.writing.value in Reps(ws[n]);
    }
  }

  /** How often a tag occurs over the three places. */
  ghost predicate AtMostOnePlace(w: World, t: Tag) {
    var i := exists f <- Reqs(w) :: f.tag == t;
    var a := t in Serve.Active(w.s);
    var o := exists f <- Reps(w) :: f.tag == t;
    !(i && a) && !(i && o) && !(a && o)
  }

  lemma OnePlace(xs: seq<Step>, ws: seq<World>, n: nat, t: Tag)
    requires Run(xs, ws) && n <= |xs|
    ensures AtMostOnePlace(ws[n], t) && Distinct(Reqs(ws[n])) && Distinct(Reps(ws[n]))
  {
    RunKeeps(xs, ws, n);
  }

  /** A response delivered to caller `r` is what the handler returned for the request that
      carried r's own message. */
  lemma OwnAnswer(xs: seq<Step>, ws: seq<World>, n: nat, v: (nat, Value))
    requires Run(xs, ws) && n <= |xs| && v in ws[n].c.values && v.1.Response?
    ensures var w := ws[n];
            var id := v.1.f.origin;
            && id < |w.s.log| && v.0 in w.asked && id in w.answers
            && w.s.log[id].origin == v.0 && w.s.log[id].msg == Call(w.asked[v.0])
            && v.1.f.msg == Answer(w.answers[id])
  {
    RunKeeps(xs, ws, n);
    assert ValueOk(v, ws[n].s.log, ws[n].asked, ws[n].answers);
  }

  /** Taking a frame off the wire into the loop hands it to the caller whose request it answers, as the
      next value and the only new one. */
  lemma DeliveryReaches(xs: seq<Step>, ws: seq<World>, n: nat)
    requires Run(xs, ws) && n < |xs| && xs[n] == Deliver
    ensures ws[n].held.Some?
    ensures var f := ws[n].held.value;
            && f.origin < |ws[n].s.log|
            && ws[n + 1].c.values == ws[n].c.values + [(ws[n].s.log[f.origin].origin, Response(f))]
            && ws[n + 1].held == None
  {
    RunKeeps(xs, ws, n);
    assert Next(ws[n], xs[n], ws[n + 1]);
    var f := ws[n].held.value;
    assert f in Reps(ws[n]);
    assert RepOk(f, ws[n].c.outstanding, ws[n].s.log, ws[n].answers);
  }

  /** Every caller that asked is waiting or has its value. */
  ghost predicate Accounted(w: World) {
    forall r :: r in w.asked ==> r in w.c.outstanding.Values || HasValue(w.c, r)
  }

  lemma AccountedStep(w: World, x: Step, w': World)
    requires Accounted(w) && Next(w, x, w')
    ensures Accounted(w')
  {
    forall r | r in w'.asked ensures r in w'.c.outstanding.Values || HasValue(w'.c, r) {
      match x {
        case Ask(q, body, ok) =>
          var sent :| Submit(w.c, w'.c, q, ok, sent);
          hide Next;
          if r == q {
            Taken(w.c, w'.c, q, ok, sent);
          } else {
            StaysOrServed(w.c, Requested(q, ok, sent), w'.c, r);
          }
        case Deliver =>
          hide HasValue;
          StaysOrServed(w.c, Responded(w.held.value), w'.c, r);
        case _ => hide HasValue;
      }
    }
  }

  /** No request is forgotten: over every run, each caller that asked is still waiting under a tag or has
      been handed a value. */
  lemma {:induction false} NoneForgotten(xs: seq<Step>, ws: seq<World>, n: nat)
    requires Run(xs, ws) && n <= |xs|
    ensures Accounted(ws[n])
  {
    hide Next, Accounted;
    if n == 0 {
      NobodyAsked();
    } else {
      NoneForgotten(xs, ws, n - 1);
      assert Next(ws[n - 1], xs[n - 1], ws[n]);
      AccountedStep(ws[n - 1], xs[n - 1], ws[n]);
    }
  }

  lemma NobodyAsked()
    ensures Accounted(INIT_WORLD)
  {
  }
}
