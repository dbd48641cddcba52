/** The client side of tag multiplexing (transport.go): tag allocation and the loop that hands
    requests to the wire and responses to the callers that wait for them. */
module Transport {
  import opened Common

  type Tag = t: int | 0 <= t < 0x1_0000

  const NOTAG: Tag := 0xFFFF
  const POOL := 0xFFFF  // the tags other than NOTAG

  // ---------------------------------------------------------------- tag allocation

  /** The tag after `hint`: one up, wrapping, and skipping NOTAG. */
  function Succ(hint: Tag): Tag {
    var h := (hint + 1) % 0x1_0000;
    if h == NOTAG then 0 else h
  }

  /** The i-th tag in cyclic order after `hint`. */
  function Nth(hint: Tag, i: nat): (t: Tag)
    ensures i > 0 ==> t != NOTAG
  {
    if i == 0 then hint else Succ(Nth(hint, i - 1))
  }

  /** Cyclic order is addition modulo the size of the pool. */
  lemma {:induction false} NthIsModular(hint: Tag, i: nat)
    requires i > 0
    ensures Nth(hint, i) == ((if hint == NOTAG then POOL - 1 else hint) + i) % POOL
  {
    hide Succ;
    var b := if hint == NOTAG then POOL - 1 else hint;
    if i == 1 {
      assert Nth(hint, 1) == Succ(Nth(hint, 0));
      FirstSucc(hint);
    } else {
      NthIsModular(hint, i - 1);
      SuccIsModular(b + i - 1);
    }
  }

  lemma FirstSucc(hint: Tag)
    ensures Succ(hint) == ((if hint == NOTAG then POOL - 1 else hint) + 1) % POOL
  {
  }

  lemma SuccIsModular(a: nat)
    ensures Succ(a % POOL) == (a + 1) % POOL
  {
    var q, r := a / POOL, a % POOL;
    assert a + 1 == POOL * q + (r + 1);
    if r + 1 == POOL {
      assert a + 1 == POOL * (q + 1);
    }
  }

  /** Within one round no tag repeats. */
  lemma NthDistinct(hint: Tag, i: nat, j: nat)
    requires 0 < i < j <= POOL
    ensures Nth(hint, i) != Nth(hint, j)
  {
    hide Nth, Succ;
    NthIsModular(hint, i);
    NthIsModular(hint, j);
    var b := if hint == NOTAG then POOL - 1 else hint;
    ModDiffers(b + i, b + j);
  }

  lemma ModDiffers(a: int, b: int)
    requires 0 < b - a < POOL
    ensures a % POOL != b % POOL
  {
    assert a == POOL * (a / POOL) + a % POOL && b == POOL * (b / POOL) + b % POOL;
  }

  /** What allocation returns: the first tag after `hint`, in cyclic order, that is not taken. */
  ghost predicate FirstFree<R>(m: map<Tag, R>, hint: Tag, t: Tag) {
    exists i :: 0 < i <= POOL && t == Nth(hint, i) && t !in m && AllTaken(m, hint, i)
  }

  ghost predicate AllTaken<R>(m: map<Tag, R>, hint: Tag, i: nat) {
    forall j :: 0 < j < i ==> Nth(hint, j) in m
  }

  /** Fails exactly when the pool is used up; the search itself never comes back empty. */
  method AllocateTag<R>(m: map<Tag, R>, hint: Tag) returns (r: Option<Tag>)
    ensures r.None? <==> |m| >= POOL
    ensures r.Some? ==> r.value != NOTAG && FirstFree(m, hint, r.value)
  {
    if |m| >= POOL {
      return None;
    }
    var h := hint;
    ghost var seen: set<Tag> := {};
    for i := 0 to POOL
      invariant h == Nth(hint, i)
      invariant AllTaken(m, hint, i + 1)
      invariant seen <= m.Keys && |seen| == i
      invariant forall t :: t in seen ==> exists j :: 0 < j <= i && t == Nth(hint, j)
    {
      h := Succ(h);
      assert h == Nth(hint, i + 1);
      if h !in m {
        return Some(h);
      }
      forall j | 0 < j <= i ensures Nth(hint, j) != h {
        NthDistinct(hint, j, i + 1);
      }
      seen := seen + {h};
    }
    CardMono(seen, m.Keys);
    assert false;
    return None;
  }

  /** There is only one first free tag. */
  lemma FirstFreeUnique<R>(m: map<Tag, R>, hint: Tag, t: Tag, u: Tag)
    requires FirstFree(m, hint, t) && FirstFree(m, hint, u)
    ensures t == u
  {
    var i :| 0 < i <= POOL && t == Nth(hint, i) && t !in m && AllTaken(m, hint, i);
    var j :| 0 < j <= POOL && u == Nth(hint, j) && u !in m && AllTaken(m, hint, j);
    assert !(i < j) && !(j < i);
  }

  // ---------------------------------------------------------------- frames

  /** A message, with its body left uninterpreted. */
  datatype Msg =
    | Call(body: nat)
    | Tflush(oldtag: Tag)
    | Answer(body: nat)
    | Rflush
    | DupTag
    | UnknownTag

  /** A frame.  `origin` says which request it belongs to: it is there for the statements
      below, is not on the wire, and no step looks at it. */
  datatype Fcall = Fcall(tag: Tag, msg: Msg, origin: nat)

  // ---------------------------------------------------------------- the client loop

  /** What the loop puts into a request's response or err channel. */
  datatype Value = Response(f: Fcall) | PoolDepleted | WriteFailed

  /** `values` logs each send into a request's channels, as (request, value). */
  datatype Client = Client(
    outstanding: map<Tag, nat>, selected: Tag, values: seq<(nat, Value)>, panicked: bool)

  const INIT_CLIENT := Client(map[], 0, [], false)

  /** The loop takes request `r`; `sent` is the tag of the frame put on the wire, if any. */
  ghost predicate Submit(c: Client, c': Client, r: nat, writeOk: bool, sent: Option<Tag>) {
    if |c.outstanding| >= POOL then
      sent == None && c' == c.(selected := 0, values := c.values + [(r, PoolDepleted)])
    else
      && FirstFree(c.outstanding, c.selected, c'.selected) && c'.selected != NOTAG
      && if writeOk then
           sent == Some(c'.selected) &&
           c' == c.(selected := c'.selected, outstanding := c.outstanding[c'.selected := r])
         else
           sent == None &&
           c' == c.(selected := c'.selected, values := c.values + [(r, WriteFailed)])
  }

  /** The loop takes a response off the wire. */
  function Receive(c: Client, f: Fcall): Client {
    if f.tag in c.outstanding then
      c.(outstanding := c.outstanding - {f.tag}, values := c.values + [(c.outstanding[f.tag], Response(f))])
    else
      c.(panicked := true)
  }

  class Transporter {
    var outstanding: map<Tag, nat>
    var selected: Tag
    var values: seq<(nat, Value)>
    var panicked: bool

    ghost function State(): Client
      reads this
    {
      Client(outstanding, selected, values, panicked)
    }

    constructor ()
      ensures State() == INIT_CLIENT
    {
      outstanding, selected, values, panicked := map[], 0, [], false;
    }

    /** The loop body for a request; `writeOk` is how the write of its frame ends. */
    method OnRequest(r: nat, writeOk: bool) returns (sent: Option<Tag>)
      modifies this
      ensures Submit(old(State()), State(), r, writeOk, sent)
    {
      var t := AllocateTag(outstanding, selected);
      if t.None? {
        selected := 0;
        values := values + [(r, PoolDepleted)];
        return None;
      }
      selected := t.value;
      assert selected !in outstanding;
      outstanding := outstanding[selected := r];
      if !writeOk {
        outstanding := outstanding - {selected};
        assert outstanding == old(outstanding);
        values := values + [(r, WriteFailed)];
        return None;
      }
      return Some(selected);
    }

    /** The loop body for a response. */
    method OnResponse(f: Fcall)
      modifies this
      ensures State() == Receive(old(State()), f)
    {
      if f.tag !in outstanding {
        panicked := true;
        return;
      }
      var r := outstanding[f.tag];
      outstanding := outstanding - {f.tag};
      values := values + [(r, Response(f))];
    }
  }

  // ---------------------------------------------------------------- any server at all

  /** The loop takes a request, whose frame goes out under the tag `sent` if it goes out at all, or a
      response. */
  datatype Event = Requested(r: nat, writeOk: bool, sent: Option<Tag>) | Responded(f: Fcall)

  ghost predicate ClientStep(c: Client, e: Event, c': Client) {
    && !c.panicked
    && match e
       case Requested(r, ok, sent) => Submit(c, c', r, ok, sent)
       case Responded(f) => c' == Receive(c, f)
  }

  /** A run of the loop: the states in order.  Each request is submitted once (it is a new
      object per call of send); the responses are whatever the server makes up. */
  ghost predicate ClientRun(es: seq<Event>, cs: seq<Client>) {
    && |cs| == |es| + 1 && cs[0] == INIT_CLIENT
    && (forall i :: 0 <= i < |es| ==> ClientStep(cs[i], es[i], cs[i + 1]))
    && (forall i, j :: 0 <= i < j < |es| && es[i].Requested? && es[j].Requested? ==> es[i].r != es[j].r)
  }

  /** The requests still waiting and those already served are all different. */
  ghost predicate ClientInv(c: Client, used: set<nat>) {
    && NOTAG !in c.outstanding
    && c.outstanding.Values <= used
    && (forall v <- c.values :: v.0 in used && v.0 !in c.outstanding.Values)
    && (forall t, u :: t in c.outstanding && u in c.outstanding && t != u ==> c.outstanding[t] != c.outstanding[u])
    && (forall i, j :: 0 <= i < j < |c.values| ==> c.values[i].0 != c.values[j].0)
  }

  lemma SubmitInv(c: Client, c': Client, r: nat, ok: bool, sent: Option<Tag>, used: set<nat>)
    requires ClientInv(c, used) && r !in used && Submit(c, c', r, ok, sent)
    ensures ClientInv(c', used + {r})
  {
    if c'.outstanding != c.outstanding {
      assert c'.outstanding.Values <= c.outstanding.Values + {r};
    }
  }

  lemma ReceiveInv(c: Client, f: Fcall, used: set<nat>)
    requires ClientInv(c, used)
    ensures ClientInv(Receive(c, f), used)
  {
    if f.tag in c.outstanding {
      var r := c.outstanding[f.tag];
      assert r in c.outstanding.Values;
      assert (c.outstanding - {f.tag}).Values <= c.outstanding.Values - {r};
    }
  }

  ghost function UsedIds(es: seq<Event>): set<nat> {
    set e | e in es && e.Requested? :: e.r
  }

  lemma {:induction false} RunInv(es: seq<Event>, cs: seq<Client>, n: nat)
    requires ClientRun(es, cs) && n <= |es|
    ensures ClientInv(cs[n], UsedIds(es[..n]))
  {
    if n > 0 {
      RunInv(es, cs, n - 1);
      var e := es[n - 1];
      assert ClientStep(cs[n - 1], e, cs[n]);
      assert es[..n] == es[..n - 1] + [e];
      var used := UsedIds(es[..n - 1]);
      match e {
        case Requested(r, ok, sent) =>
          assert UsedIds(es[..n]) == used + {r};
          SubmitInv(cs[n - 1], cs[n], r, ok, sent, used);
        case Responded(f) =>
          assert UsedIds(es[..n]) == used;
          ReceiveInv(cs[n - 1], f, used);
      }
    }
  }

  /** Whatever the server sends, a request never receives a second value, over its response
      and its err channel together: the sends into those one-place channels cannot block. */
  lemma AtMostOneValue(es: seq<Event>, cs: seq<Client>, n: nat, i: nat, j: nat)
    requires ClientRun(es, cs) && n <= |es|
    requires i < |cs[n].values| && j < |cs[n].values| && cs[n].values[i].0 == cs[n].values[j].0
    ensures i == j
    ensures NOTAG !in cs[n].outstanding && cs[n].values[i].0 !in cs[n].outstanding.Values
  {
    RunInv(es, cs, n);
  }

  // ---------------------------------------------------------------- who gets what, from the events alone

  predicate SentFor(e: Event, t: Tag, r: nat) {
    e.Requested? && e.sent == Some(t) && e.r == r
  }

  predicate AnswersTag(e: Event, t: Tag) {
    e.Responded? && e.f.tag == t
  }

  /** Request `r` went out under `t` and no response with that tag has come since. */
  ghost predicate Awaits(es: seq<Event>, n: nat, t: Tag, r: nat)
    requires n <= |es|
  {
    exists i :: 0 <= i < n && SentFor(es[i], t, r) && Unanswered(es, i, n, t)
  }

  ghost predicate Unanswered(es: seq<Event>, i: nat, n: nat, t: Tag)
    requires n <= |es|
  {
    forall j :: i < j < n ==> !AnswersTag(es[j], t)
  }

  /** The loop's map says exactly that. */
  lemma {:induction false} OutstandingIffAwaits(es: seq<Event>, cs: seq<Client>, n: nat, t: Tag, r: nat)
    requires ClientRun(es, cs) && n <= |es|
    ensures (t in cs[n].outstanding && cs[n].outstanding[t] == r) <==> Awaits(es, n, t, r)
  {
    if n > 0 {
      OutstandingIffAwaits(es, cs, n - 1, t, r);
      assert ClientStep(cs[n - 1], es[n - 1], cs[n]);
      hide ClientRun;
      OneMoreEvent(es, n, t, r);
      if es[n - 1].Requested? {
        SubmitTable(cs[n - 1], cs[n], es[n - 1].r, es[n - 1].writeOk, es[n - 1].sent);
        if es[n - 1].sent == Some(t) && Awaits(es, n - 1, t, r) {
          assert t in cs[n - 1].outstanding;
        }
      }
    }
  }

  lemma OneMoreEvent(es: seq<Event>, n: nat, t: Tag, r: nat)
    requires 0 < n <= |es|
    ensures Awaits(es, n, t, r) <==>
            SentFor(es[n - 1], t, r) || (Awaits(es, n - 1, t, r) && !AnswersTag(es[n - 1], t))
  {
    hide SentFor, AnswersTag;
    if i :| 0 <= i < n && SentFor(es[i], t, r) && Unanswered(es, i, n, t) {
      assert i < n - 1 ==> Unanswered(es, i, n - 1, t) && !AnswersTag(es[n - 1], t);
    }
    if SentFor(es[n - 1], t, r) {
      assert Unanswered(es, n - 1, n, t);
    }
    if i :| 0 <= i < n - 1 && SentFor(es[i], t, r) && Unanswered(es, i, n - 1, t) {
      assert !AnswersTag(es[n - 1], t) ==> Unanswered(es, i, n, t);
    }
  }

  lemma SubmitTable(c: Client, c': Client, r: nat, ok: bool, sent: Option<Tag>)
    requires Submit(c, c', r, ok, sent)
    ensures sent.Some? ==> sent.value !in c.outstanding && c'.outstanding == c.outstanding[sent.value := r]
    ensures sent.None? ==> c'.outstanding == c.outstanding
  {
  }

  /** A response goes to the request that awaits its tag, as the next value and the only new one; that
      request awaits nothing any more.  A response nobody awaits panics and does nothing else. */
  lemma ResponseReaches(es: seq<Event>, cs: seq<Client>, n: nat)
    requires ClientRun(es, cs) && n < |es| && es[n].Responded?
    ensures forall r :: Awaits(es, n, es[n].f.tag, r) ==>
              && cs[n + 1].values == cs[n].values + [(r, Response(es[n].f))] && !cs[n + 1].panicked
              && r !in cs[n + 1].outstanding.Values
    ensures (forall r :: !Awaits(es, n, es[n].f.tag, r)) ==>
              && cs[n + 1].panicked && cs[n + 1].values == cs[n].values && cs[n + 1].outstanding == cs[n].outstanding
  {
    var t := es[n].f.tag;
    assert ClientStep(cs[n], es[n], cs[n + 1]);
    RunInv(es, cs, n + 1);
    forall r ensures Awaits(es, n, t, r) <==> t in cs[n].outstanding && cs[n].outstanding[t] == r {
      OutstandingIffAwaits(es, cs, n, t, r);
    }
    hide ClientRun, Awaits;
    forall r | Awaits(es, n, t, r) ensures r !in cs[n + 1].outstanding.Values {
      assert cs[n + 1].values[|cs[n].values|].0 == r;
      assert cs[n + 1].values[|cs[n].values|] in cs[n + 1].values;
    }
    if t in cs[n].outstanding {
      assert Awaits(es, n, t, cs[n].outstanding[t]);
    }
  }

  /** A request either goes out under a tag nobody awaits, or gets its error at once: that the pool is
      used up, with the search to start over, or that the write failed. */
  lemma RequestOutcome(es: seq<Event>, cs: seq<Client>, n: nat)
    requires ClientRun(es, cs) && n < |es| && es[n].Requested?
    ensures var c, c', e := cs[n], cs[n + 1], es[n];
            if |c.outstanding| >= POOL then
              e.sent == None && c'.values == c.values + [(e.r, PoolDepleted)] && c'.selected == 0
            else if !e.writeOk then
              e.sent == None && c'.values == c.values + [(e.r, WriteFailed)]
            else
              && e.sent == Some(c'.selected) && c'.values == c.values && c'.selected != NOTAG
              && forall r :: !Awaits(es, n, c'.selected, r)
  {
    var t := cs[n + 1].selected;
    assert ClientStep(cs[n], es[n], cs[n + 1]);
    forall r ensures Awaits(es, n, t, r) <==> t in cs[n].outstanding && cs[n].outstanding[t] == r {
      OutstandingIffAwaits(es, cs, n, t, r);
    }
    hide ClientRun, Awaits;
  }

  ghost predicate HasValue(c: Client, r: nat) {
    exists v <- c.values :: v.0 == r
  }

  lemma NotBoth(c: Client, used: set<nat>, r: nat)
    requires ClientInv(c, used)
    ensures !HasValue(c, r) || r !in c.outstanding.Values
  {
  }

  lemma Taken(c: Client, c': Client, r: nat, ok: bool, sent: Option<Tag>)
    requires Submit(c, c', r, ok, sent)
    ensures r in c'.outstanding.Values || HasValue(c', r)
  {
    if sent.Some? {
      assert c'.outstanding[sent.value] == r;
    } else {
      assert c'.values[|c.values|].0 == r && c'.values[|c.values|] in c'.values;
    }
  }

  lemma StaysOrServed(c: Client, e: Event, c': Client, r: nat)
    requires ClientStep(c, e, c') && (r in c.outstanding.Values || HasValue(c, r))
    ensures r in c'.outstanding.Values || HasValue(c', r)
  {
    if v :| v in c.values && v.0 == r {
      assert v in c'.values;
    } else {
      var t :| t in c.outstanding && c.outstanding[t] == r;
      match e {
        case Requested(q, ok, sent) =>
          SubmitTable(c, c', q, ok, sent);
          assert c'.outstanding[t] == r;
        case Responded(f) =>
          if f.tag == t {
            assert c'.values[|c.values|].0 == r && c'.values[|c.values|] in c'.values;
          } else if f.tag in c.outstanding {
            assert c'.outstanding[t] == r;
          }
      }
    }
  }

  lemma {:induction false} WaitsOrServed(es: seq<Event>, cs: seq<Client>, i: nat, n: nat)
    requires ClientRun(es, cs) && i < n <= |es| && es[i].Requested?
    ensures es[i].r in cs[n].outstanding.Values || HasValue(cs[n], es[i].r)
    decreases n
  {
    assert ClientStep(cs[n - 1], es[n - 1], cs[n]);
    if i == n - 1 {
      Taken(cs[n - 1], cs[n], es[i].r, es[i].writeOk, es[i].sent);
    } else {
      hide ClientStep, HasValue;
      WaitsOrServed(es, cs, i, n - 1);
      StaysOrServed(cs[n - 1], es[n - 1], cs[n], es[i].r);
    }
  }

  /** Every request taken by the loop is either waiting or has its value, and never both. */
  lemma WaitingXorServed(es: seq<Event>, cs: seq<Client>, i: nat, n: nat)
    requires ClientRun(es, cs) && i < n <= |es| && es[i].Requested?
    ensures es[i].r in cs[n].outstanding.Values <==> !HasValue(cs[n], es[i].r)
  {
    WaitsOrServed(es, cs, i, n);
    RunInv(es, cs, n);
    hide ClientInv, HasValue, ClientRun;
    NotBoth(cs[n], UsedIds(es[..n]), es[i].r);
  }
}
