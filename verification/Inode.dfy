/** Reference-counted nodes of the in-memory file tree (ramfs/inode.go). */
module Inode {
  import opened Incidence

  type Links = Table<FileEnt, string, FileEnt>
  type Bias = map<FileEnt, int>
  type Refs = map<FileEnt, int>

  /** What a set of nodes holds at one moment: counts, directory entries, and the nodes whose
      children map exists. */
  datatype Snap = Snap(refs: Refs, links: Links, dirs: set<FileEnt>)

  ghost predicate Matches(nodes: set<FileEnt>, s: Snap)
    reads nodes
  {
    && s.refs.Keys == s.links.Keys == nodes && s.dirs <= nodes
    && forall n :: n in nodes ==> n.nref == s.refs[n] && n.children == s.links[n] && (n.hasChildren <==> n in s.dirs)
  }

  ghost predicate Closed(s: Snap) {
    && s.refs.Keys == s.links.Keys && s.dirs <= s.refs.Keys
    && (forall n :: n in s.links ==> s.links[n].Values <= s.refs.Keys)
    && (forall n :: n in s.links && n !in s.dirs ==> s.links[n] == map[])
  }

  /** Every count equals the links to the node plus what `bias` says is held elsewhere. */
  ghost predicate Balanced(refs: Refs, links: Links, bias: Bias) {
    && refs.Keys == bias.Keys
    && forall n :: n in refs ==> refs[n] == Count(links, n) + bias[n]
  }

  ghost predicate NonPositive(refs: Refs, dead: set<FileEnt>) {
    forall d :: d in dead && d in refs ==> refs[d] <= 0
  }

  /** Balanced, with the directories in `dead` being in the middle of their release. */
  ghost predicate Ok(s: Snap, dead: set<FileEnt>, bias: Bias) {
    && Closed(s) && NonPositive(s.refs, dead)
    && bias.Keys == s.refs.Keys && Balanced(s.refs, s.links - dead, bias)
  }

  ghost predicate ReleasedAt(s: Snap, s': Snap, n: FileEnt)
    requires n in s.refs && n in s'.refs && n in s.links && n in s'.links
  {
    var crossed := s.refs[n] > 0 && s'.refs[n] <= 0;
    && s'.refs[n] <= s.refs[n]
    && s'.links[n] == (if crossed then map[] else s.links[n])
    && (n in s'.dirs <==> n in s.dirs && !crossed)
  }

  /** Counts only fell, and children were released exactly at the nodes whose count left the
      positive range. */
  ghost predicate Released(s: Snap, s': Snap) {
    && s.refs.Keys == s'.refs.Keys == s.links.Keys == s'.links.Keys
    && s.dirs <= s.refs.Keys && s'.dirs <= s.refs.Keys
    && forall n :: n in s.refs ==> ReleasedAt(s, s', n)
  }

  ghost function Restrict(links: Links, K: set<FileEnt>): Links {
    map p | p in links && p in K :: links[p]
  }

  /** Each node of K is held from outside or linked from inside K: no release of references
      outside K can bring it to zero. */
  ghost predicate Supported(links: Links, bias: Bias, K: set<FileEnt>) {
    && K <= links.Keys && K <= bias.Keys
    && forall n :: n in K ==> Count(Restrict(links, K), n) + bias[n] >= 1
  }

  ghost predicate AllPositive(refs: Refs, K: set<FileEnt>) {
    forall n :: n in K ==> n in refs && refs[n] > 0
  }

  /** No supported set lost a node. */
  ghost predicate Spares(links: Links, bias: Bias, refs: Refs) {
    forall K | K <= links.Keys :: Supported(links, bias, K) ==> AllPositive(refs, K)
  }

  ghost predicate SupportMoves(links: Links, links': Links, bias: Bias) {
    forall K | K <= links.Keys :: Supported(links, bias, K) ==> Supported(links', bias, K)
  }

  /** The children map of `f` dropped. */
  ghost function Clear(s: Snap, f: FileEnt): Snap {
    Snap(s.refs, s.links[f := map[]], s.dirs - {f})
  }

  ghost function Positive(refs: Refs): set<FileEnt> {
    set n | n in refs && refs[n] > 0
  }

  /** The bias after `f` gains `d` outside references. */
  ghost function Shift(bias: Bias, f: FileEnt, d: int): Bias
    requires f in bias
  {
    bias[f := bias[f] + d]
  }

  /** The bias while the entries in `todo` still wait for their decrement. */
  ghost function Pending(bias: Bias, todo: map<string, FileEnt>): (b: Bias)
    ensures b.Keys == bias.Keys
  {
    map n | n in bias :: bias[n] + RowCount(todo, n)
  }

  class FileEnt {
    const name: string
    const isDir: bool
    const qid: nat
    ghost const level: nat  // how far below the root it was created
    ghost const serial: nat  // how many numbers were drawn when it got its own
    var nref: int
    var children: map<string, FileEnt>
    var hasChildren: bool  // whether the children map exists (is not nil)

    constructor (name: string, isDir: bool, qid: nat, ghost level: nat, ghost serial: nat)
      ensures this.name == name && this.isDir == isDir && this.qid == qid
      ensures this.level == level && this.serial == serial
      ensures nref == 1 && children == map[] && hasChildren == isDir
    {
      this.name, this.isDir, this.qid, this.level, this.serial := name, isDir, qid, level, serial;
      nref, children, hasChildren := 1, map[], isDir;
    }

    /** Only ever called on a node that is still referenced. */
    method Incref(ghost nodes: set<FileEnt>, ghost s: Snap) returns (fname: string)
      requires this in nodes && Matches(nodes, s) && s.refs[this] > 0
      modifies this`nref
      ensures Matches(nodes, s.(refs := s.refs[this := s.refs[this] + 1]))
      ensures fname == name
    {
      var _ := AddRef(nodes, s, 1);
      fname := name;
    }

    /** Fails when this is not a directory or the name is taken. */
    method LinkChild(fname: string, c: FileEnt) returns (ok: bool)
      modifies this`children
      ensures ok <==> old(hasChildren) && fname !in old(children)
      ensures children == if ok then old(children)[fname := c] else old(children)
    {
      if !hasChildren {
        return false;
      }
      if fname in children {
        return false;
      }
      children := children[fname := c];
      ok := true;
    }

    /** Fails when this is not a directory or the name is absent. */
    method UnlinkChild(fname: string) returns (ok: bool)
      modifies this`children
      ensures ok <==> old(hasChildren) && fname in old(children)
      ensures children == if ok then old(children) - {fname} else old(children)
    {
      if !hasChildren {
        return false;
      }
      if fname !in children {
        return false;
      }
      children := children - {fname};
      ok := true;
    }

    method AddRef(ghost nodes: set<FileEnt>, ghost s: Snap, d: int) returns (n: int)
      requires this in nodes && Matches(nodes, s)
      modifies this`nref
      ensures n == s.refs[this] + d
      ensures Matches(nodes, s.(refs := s.refs[this := n]))
    {
      nref := nref + d;
      n := nref;
    }

    method DropKids(ghost nodes: set<FileEnt>, ghost s: Snap)
      requires this in nodes && Matches(nodes, s)
      modifies this`children, this`hasChildren
      ensures Matches(nodes, Clear(s, this))
    {
      children, hasChildren := map[], false;
    }

    /** Drops one reference.  When the count reaches zero the children lose their link, which
        may cascade.  No assumption on the shape of the graph: it may be cyclic, and counts may
        be off by any bias.  The bias of this node drops by one and every other bias is kept. */
    method Decref(ghost nodes: set<FileEnt>, ghost s: Snap, ghost dead: set<FileEnt>, ghost bias: Bias)
      returns (n: int, ghost s': Snap)
      requires this in nodes && Matches(nodes, s) && Ok(s, dead, bias)
      modifies nodes`nref, nodes`children, nodes`hasChildren
      ensures n == s.refs[this] - 1
      ensures Matches(nodes, s') && Ok(s', dead, Shift(bias, this, -1))
      ensures Released(s, s')
      ensures Spares(s.links - dead, Shift(bias, this, -1), s'.refs)
      decreases Positive(s.refs), 1
    {
      hide Count, Supported, AllPositive, Spares, Balanced, Released, Positive, NonPositive;
      ghost var bias1 := Shift(bias, this, -1);
      n := AddRef(nodes, s, -1);
      s' := Less(s, this);
      FirstStep(s, dead, bias, this);
      if n == 0 && hasChildren {
        BeginRelease(s', dead, bias1, this);
        s' := ReleaseKids(children, nodes, s', dead + {this}, bias1);
        EndRelease(s, s', dead, bias1, this);
        DropKids(nodes, s');
        s' := Clear(s', this);
      }
    }

    /** The loop of Decref over the children of this node, in any order. */
    method ReleaseKids(kids: map<string, FileEnt>, ghost nodes: set<FileEnt>, ghost s: Snap,
                       ghost dead: set<FileEnt>, ghost bias: Bias)
      returns (ghost s': Snap)
      requires kids.Values <= nodes && Matches(nodes, s)
      requires Ok(s, dead, Pending(bias, kids))
      modifies nodes`nref, nodes`children, nodes`hasChildren
      ensures Matches(nodes, s') && Ok(s', dead, bias)
      ensures Released(s, s')
      ensures Spares(s.links - dead, bias, s'.refs)
      decreases Positive(s.refs), 2
    {
      hide Count, RowCount, Supported, AllPositive, Spares, Ok, Released, SupportMoves, Positive, Matches, Pending;
      BeforeKids(s, dead, Pending(bias, kids), bias);
      var todo := kids;
      s' := s;
      while todo != map[]
        invariant todo.Values <= nodes
        invariant Matches(nodes, s') && Ok(s', dead, Pending(bias, todo))
        invariant Released(s, s')
        invariant SupportMoves(s.links - dead, s'.links - dead, bias)
        decreases todo.Keys
      {
        var fname :| fname in todo;
        assert todo[fname] in todo.Values;
        ghost var s1 := s';
        OkNodes(nodes, s1, dead, Pending(bias, todo));
        PendingDrop(bias, todo, fname);
        PositiveShrinks(s, s1);
        var _, s2 := todo[fname].Decref(nodes, s1, dead, Pending(bias, todo));
        todo, s' := todo - {fname}, s2;
        NextKid(s, s1, s', dead, bias, todo);
      }
      LastKid(s, s', dead, bias, todo);
    }
  }

  // The lemmas below are one per step of the cascade, over snapshots only.

  lemma BalancedSpares(refs: Refs, links: Links, bias: Bias)
    requires Balanced(refs, links, bias)
    ensures Spares(links, bias, refs)
  {
    forall K, n | K <= links.Keys && Supported(links, bias, K) && n in K
      ensures refs[n] > 0
    {
      CountMono(Restrict(links, K), links, n);
    }
  }

  ghost function Less(s: Snap, f: FileEnt): Snap
    requires f in s.refs
  {
    s.(refs := s.refs[f := s.refs[f] - 1])
  }

  lemma FirstStep(s: Snap, dead: set<FileEnt>, bias: Bias, f: FileEnt)
    requires f in s.refs && Ok(s, dead, bias)
    ensures Ok(Less(s, f), dead, Shift(bias, f, -1))
    ensures Spares(s.links - dead, Shift(bias, f, -1), Less(s, f).refs)
    ensures s.refs[f] != 1 || f !in s.dirs ==> Released(s, Less(s, f))
    ensures s.refs[f] == 1 ==> f !in dead && Positive(Less(s, f).refs) < Positive(s.refs)
  {
    hide Count, Supported, AllPositive, Released, Spares;
    FirstReleased(s, f);
    BalancedSpares(Less(s, f).refs, s.links - dead, Shift(bias, f, -1));
  }

  lemma FirstReleased(s: Snap, f: FileEnt)
    requires f in s.refs && Closed(s)
    ensures s.refs[f] != 1 || f !in s.dirs ==> Released(s, Less(s, f))
    ensures s.refs[f] == 1 ==> Positive(Less(s, f).refs) < Positive(s.refs)
  {
    assert s.refs[f] == 1 ==> Positive(Less(s, f).refs) == Positive(s.refs) - {f};
  }

  lemma BeginRelease(s: Snap, dead: set<FileEnt>, bias: Bias, f: FileEnt)
    requires Ok(s, dead, bias) && f in s.refs && f !in dead && s.refs[f] == 0
    ensures Ok(s, dead + {f}, Pending(bias, s.links[f]))
  {
    hide Cells, RowSlots, Count, RowCount;
    assert s.links - dead - {f} == s.links - (dead + {f});
    forall n | n in s.refs
      ensures s.refs[n] == Count(s.links - (dead + {f}), n) + Pending(bias, s.links[f])[n]
    {
      CountRow(s.links - dead, f, n);
    }
  }

  lemma PendingDrop(bias: Bias, todo: map<string, FileEnt>, x: string)
    requires x in todo && todo[x] in bias
    ensures Shift(Pending(bias, todo), todo[x], -1) == Pending(bias, todo - {x})
  {
    forall n | n in bias
      ensures Shift(Pending(bias, todo), todo[x], -1)[n] == Pending(bias, todo - {x})[n]
    {
      RowCountDrop(todo, x, n);
    }
  }

  lemma PositiveShrinks(s: Snap, s': Snap)
    requires Released(s, s')
    ensures Positive(s'.refs) <= Positive(s.refs)
  {
  }

  lemma SupportedKept(links: Links, bias: Bias, links': Links, bias': Bias, K: set<FileEnt>)
    requires Supported(links, bias, K)
    requires forall n :: n in K ==> n in links' && links'[n] == links[n]
    requires forall n :: n in K ==> n in bias' && bias'[n] >= bias[n]
    ensures Supported(links', bias', K)
  {
    assert Restrict(links', K) == Restrict(links, K);
  }

  /** Where the loop over the children starts. */
  lemma BeforeKids(s: Snap, dead: set<FileEnt>, pending: Bias, bias: Bias)
    requires Ok(s, dead, pending)
    ensures Released(s, s) && SupportMoves(s.links - dead, s.links - dead, bias)
  {
  }

  lemma OkNodes(nodes: set<FileEnt>, s: Snap, dead: set<FileEnt>, bias: Bias)
    requires Matches(nodes, s) && Ok(s, dead, bias)
    ensures nodes == bias.Keys
  {
  }

  lemma NextKid(s0: Snap, s1: Snap, s2: Snap, dead: set<FileEnt>, bias: Bias, rest: map<string, FileEnt>)
    requires Released(s0, s1) && Released(s1, s2)
    requires SupportMoves(s0.links - dead, s1.links - dead, bias)
    requires Spares(s1.links - dead, Pending(bias, rest), s2.refs)
    ensures Released(s0, s2)
    ensures SupportMoves(s0.links - dead, s2.links - dead, bias)
  {
    forall K | K <= (s0.links - dead).Keys && Supported(s0.links - dead, bias, K)
      ensures Supported(s2.links - dead, bias, K)
    {
      SupportedKept(s1.links - dead, bias, s1.links - dead, Pending(bias, rest), K);
      SupportedKept(s1.links - dead, bias, s2.links - dead, bias, K);
    }
  }

  lemma LastKid(s0: Snap, s: Snap, dead: set<FileEnt>, bias: Bias, rest: map<string, FileEnt>)
    requires rest == map[] && Ok(s, dead, Pending(bias, rest))
    requires SupportMoves(s0.links - dead, s.links - dead, bias)
    ensures Ok(s, dead, bias) && Spares(s0.links - dead, bias, s.refs)
  {
    assert Pending(bias, map[]) == bias;
    BalancedSpares(s.refs, s.links - dead, bias);
  }

  /** s: the count of f is zero and its children are decremented.  Clearing f's children
      completes the release. */
  lemma EndRelease(s0: Snap, s: Snap, dead: set<FileEnt>, bias: Bias, f: FileEnt)
    requires f in s0.refs && f !in dead && s0.refs[f] == 1
    requires Released(Less(s0, f), s) && Ok(s, dead + {f}, bias)
    requires Spares(s0.links - dead, bias, Less(s0, f).refs)
    requires Spares(s0.links - (dead + {f}), bias, s.refs)
    ensures Ok(Clear(s, f), dead, bias)
    ensures Released(s0, Clear(s, f))
    ensures Spares(s0.links - dead, bias, s.refs)
  {
    hide Count, Balanced, Supported, Spares, Closed, NonPositive;
    EndReleased(s0, s, f);
    EndOk(s, dead, bias, f);
    EndSpares(s0, s, dead, bias, f);
  }

  lemma EndReleased(s0: Snap, s: Snap, f: FileEnt)
    requires f in s0.refs && s0.refs[f] == 1 && Released(Less(s0, f), s)
    ensures Released(s0, Clear(s, f)) && f in s.refs && s.refs[f] <= 0
  {
  }

  lemma EndOk(s: Snap, dead: set<FileEnt>, bias: Bias, f: FileEnt)
    requires f in s.refs && Ok(s, dead + {f}, bias)
    ensures Ok(Clear(s, f), dead, bias)
  {
    hide Cells, Count;
    forall n | n in s.refs
      ensures Count(s.links[f := map[]] - dead, n) == Count(s.links - (dead + {f}), n)
    {
      EndCount(s.links, dead, f, n);
    }
  }

  lemma EndCount(links: Links, dead: set<FileEnt>, f: FileEnt, n: FileEnt)
    ensures Count(links[f := map[]] - dead, n) == Count(links - (dead + {f}), n)
  {
    assert Cells(links[f := map[]] - dead, n) == Cells(links - (dead + {f}), n);
  }

  lemma EndSpares(s0: Snap, s: Snap, dead: set<FileEnt>, bias: Bias, f: FileEnt)
    requires f in s0.refs && s0.refs[f] == 1 && f in s.refs && s.refs[f] <= 0
    requires Spares(s0.links - dead, bias, Less(s0, f).refs)
    requires Spares(s0.links - (dead + {f}), bias, s.refs)
    ensures Spares(s0.links - dead, bias, s.refs)
  {
    hide Count;
    forall K | K <= (s0.links - dead).Keys && Supported(s0.links - dead, bias, K)
      ensures AllPositive(s.refs, K)
    {
      assert f !in K;
      SupportedKept(s0.links - dead, bias, s0.links - (dead + {f}), bias, K);
    }
  }

  ghost predicate DeadEmpty(s: Snap) {
    forall n :: n in s.refs && n in s.links && s.refs[n] <= 0 ==> s.links[n] == map[]
  }

  /** The cascade keeps exactly what must be kept: the nodes still counted are the greatest
      set whose every node is held from outside or linked from inside the set.  The right
      side does not mention the cascade, so the outcome does not depend on the order in which
      children are visited. */
  lemma LiveIsGreatestSupported(s: Snap, s': Snap, bias: Bias)
    requires Closed(s) && Released(s, s') && Ok(s', {}, bias) && DeadEmpty(s')
    requires Spares(s.links, bias, s'.refs)
    ensures Supported(s.links, bias, Positive(s'.refs))
    ensures forall K | K <= s.links.Keys :: Supported(s.links, bias, K) ==> K <= Positive(s'.refs)
  {
    hide Count;
    var live := Positive(s'.refs);
    assert s'.links - {} == s'.links;
    assert Restrict(s.links, live) == Restrict(s'.links, live);
    forall n | n in live
      ensures Count(Restrict(s.links, live), n) + bias[n] >= 1
    {
      LiveCount(s', n);
    }
  }

  /** Hence two cascades from one snapshot to one bias, in whatever order they visit children, end in
      the same snapshot: the same counts, entries and directories. */
  lemma CascadeUnique(s: Snap, s1: Snap, s2: Snap, bias: Bias)
    requires Closed(s)
    requires Released(s, s1) && Ok(s1, {}, bias) && DeadEmpty(s1) && Spares(s.links, bias, s1.refs)
    requires Released(s, s2) && Ok(s2, {}, bias) && DeadEmpty(s2) && Spares(s.links, bias, s2.refs)
    ensures s1 == s2
  {
    LiveIsGreatestSupported(s, s1, bias);
    LiveIsGreatestSupported(s, s2, bias);
    hide Supported, Spares;
    assert Positive(s1.refs) <= s.links.Keys && Positive(s2.refs) <= s.links.Keys;
    assert Positive(s1.refs) == Positive(s2.refs);
    SameLiveSame(s, s1, s2, bias);
  }

  lemma SameLiveSame(s: Snap, s1: Snap, s2: Snap, bias: Bias)
    requires Released(s, s1) && Ok(s1, {}, bias) && Released(s, s2) && Ok(s2, {}, bias)
    requires Positive(s1.refs) == Positive(s2.refs)
    ensures s1 == s2
  {
    hide Count;
    forall n | n in s.refs ensures s1.links[n] == s2.links[n] && (n in s1.dirs <==> n in s2.dirs) {
      assert ReleasedAt(s, s1, n) && ReleasedAt(s, s2, n);
      assert n in Positive(s1.refs) <==> n in Positive(s2.refs);
    }
    assert s1.links == s2.links && s1.dirs == s2.dirs;
    assert s1.links - {} == s1.links && s2.links - {} == s2.links;
    assert s1.refs == s2.refs;
  }

  lemma LiveCount(s: Snap, n: FileEnt)
    requires Closed(s) && DeadEmpty(s)
    ensures Count(s.links, n) == Count(Restrict(s.links, Positive(s.refs)), n)
  {
    assert Cells(s.links, n) == Cells(Restrict(s.links, Positive(s.refs)), n);
  }

  /** Counts determine the bias: a snapshot is balanced for at most one. */
  lemma BiasUnique(refs: Refs, links: Links, b: Bias, b': Bias)
    requires Balanced(refs, links, b)
    ensures Balanced(refs, links, b') <==> b' == b
  {
    if Balanced(refs, links, b') {
      assert forall n :: n in refs ==> b[n] == b'[n];
    }
  }
}
