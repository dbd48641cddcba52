/** The in-memory file server and the fid tables of its sessions (ramfs/dirent.go,
    ramfs/filesys.go, and sfilesys.go run one call at a time). */
module Ramfs {
  import opened Common
  import opened Incidence
  import opened Inode
  import opened Path

  /** A fid of one session. */
  datatype Key = Key(sess: nat, fid: nat)

  /** A handle owns one reference on its node and one on every ancestor it came through. */
  datatype FileHandle = FileHandle(path: seq<string>, ent: FileEnt, parents: seq<FileEnt>)
  {
    function Chain(): seq<FileEnt> {
      parents + [ent]
    }
  }

  type Fids = map<Key, FileHandle>

  ghost function Handles(refs: Fids): Table<Key, int, FileEnt> {
    map k | k in refs :: Row(refs[k].Chain())
  }

  /** What is held outside the tree: one reference per occurrence in a handle, one for the root. */
  ghost function Outside(nodes: set<FileEnt>, refs: Fids, root: FileEnt): (b: Bias)
    ensures b.Keys == nodes
  {
    map n | n in nodes :: Count(Handles(refs), n) + if n == root then 1 else 0
  }

  /** `bias` plus one reference per occurrence in `c`. */
  ghost function Held(bias: Bias, c: seq<FileEnt>): (b: Bias)
    ensures b.Keys == bias.Keys
  {
    map n | n in bias :: bias[n] + RowCount(Row(c), n)
  }

  /** Path components are the names of the nodes on the parent chain, which starts at the root. */
  ghost predicate HandleOk(h: FileHandle, nodes: set<FileEnt>, root: FileEnt) {
    var c := h.Chain();
    && c[0] == root && |h.path| == |h.parents|
    && (forall i :: 0 <= i < |c| ==> c[i] in nodes)
    && (forall i :: 0 <= i < |h.path| ==> h.path[i] == c[i + 1].name)
  }

  ghost predicate HandlesOk(refs: Fids, nodes: set<FileEnt>, root: FileEnt) {
    forall k :: k in refs ==> HandleOk(refs[k], nodes, root)
  }

  ghost predicate Named(s: Snap) {
    forall n, x :: n in s.links && x in s.links[n] ==> s.links[n][x].name == x
  }

  /** A counted node has a children map exactly when it is a directory. */
  ghost predicate DirsAlive(s: Snap) {
    forall n :: n in s.refs && s.refs[n] > 0 ==> (n in s.dirs <==> n.isDir)
  }

  ghost predicate Apart(a: map<string, FileEnt>, b: map<string, FileEnt>) {
    forall x, y :: x in a && y in b ==> a[x] != b[y]
  }

  ghost predicate OneDown(p: FileEnt, row: map<string, FileEnt>) {
    forall x :: x in row ==> row[x].level == p.level + 1
  }

  /** Links lead one level down, and no two directories have an entry for one node: they form a
      forest.  (Within a directory entries differ because they are filed under their nodes' names.) */
  ghost predicate Forest(links: Links) {
    && (forall p :: p in links ==> OneDown(p, links[p]))
    && (forall p, q :: p in links && q in links && p != q ==> Apart(links[p], links[q]))
  }

  /** Entries were only taken away. */
  ghost predicate Fewer(links: Links, links': Links) {
    forall p :: p in links' ==> p in links && SubRow(links[p], links'[p])
  }

  ghost predicate SubRow(a: map<string, FileEnt>, b: map<string, FileEnt>) {
    forall x :: x in b ==> x in a && a[x] == b[x]
  }

  lemma FewerForest(links: Links, links': Links)
    requires Forest(links) && Fewer(links, links')
    ensures Forest(links')
  {
    hide SubRow, OneDown, Apart;
    forall p | p in links' ensures OneDown(p, links'[p]) {
      SubRowOk(p, links[p], links'[p]);
    }
    forall p, q | p in links' && q in links' && p != q ensures Apart(links'[p], links'[q]) {
      SubApart(links[p], links[q], links'[p], links'[q]);
    }
  }

  lemma SubRowOk(p: FileEnt, a: map<string, FileEnt>, b: map<string, FileEnt>)
    requires OneDown(p, a) && SubRow(a, b)
    ensures OneDown(p, b)
  {
  }

  lemma SubApart(a: map<string, FileEnt>, b: map<string, FileEnt>, a': map<string, FileEnt>, b': map<string, FileEnt>)
    requires Apart(a, b) && SubRow(a, a') && SubRow(b, b')
    ensures Apart(a', b')
  {
  }

  ghost predicate Shape(s: Snap) {
    Named(s) && DirsAlive(s) && DeadEmpty(s) && Forest(s.links)
  }

  /** The invariant of every run: counts are exactly links plus handles plus one for the root. */
  ghost predicate Good(s: Snap, refs: Fids, root: FileEnt) {
    && root in s.refs && root.level == 0
    && Ok(s, {}, Outside(s.refs.Keys, refs, root))
    && Shape(s)
    && HandlesOk(refs, s.refs.Keys, root)
  }

  // ------------------------------------------------------------- bias arithmetic

  lemma HeldPush(bias: Bias, c: seq<FileEnt>, x: FileEnt)
    requires x in bias
    ensures Held(bias, c + [x]) == Shift(Held(bias, c), x, 1)
    ensures Shift(Held(bias, c + [x]), x, -1) == Held(bias, c)
  {
    hide RowCount;
    forall n | n in bias
      ensures Held(bias, c + [x])[n] == Shift(Held(bias, c), x, 1)[n]
    {
      RowOfPush(c, x, n);
    }
  }

  lemma HeldNone(bias: Bias)
    ensures Held(bias, []) == bias
  {
  }

  /** The references outside the tree, with the handle under `k` taken apart. */
  lemma OutsideSplit(nodes: set<FileEnt>, refs: Fids, root: FileEnt, k: Key, h: FileHandle)
    ensures Outside(nodes, refs[k := h], root) == Held(Outside(nodes, refs - {k}, root), h.Chain())
  {
    hide Count, RowCount;
    assert Handles(refs[k := h]) == Handles(refs)[k := Row(h.Chain())];
    assert Handles(refs - {k}) == Handles(refs) - {k};
    forall n | n in nodes
      ensures Outside(nodes, refs[k := h], root)[n] == Held(Outside(nodes, refs - {k}, root), h.Chain())[n]
    {
      CountSetRow(Handles(refs), k, Row(h.Chain()), n);
    }
  }

  /** Whatever a live handle or a directory entry points at is still counted. */
  lemma HandlePositive(s: Snap, refs: Fids, root: FileEnt, k: Key, i: nat)
    requires Good(s, refs, root) && k in refs && i < |refs[k].Chain()|
    ensures refs[k].Chain()[i] in s.refs && s.refs[refs[k].Chain()[i]] > 0
  {
    var n := refs[k].Chain()[i];
    assert HandleOk(refs[k], s.refs.Keys, root);
    CountPositive(Handles(refs), k, i, n);
  }

  lemma LinkPositive(s: Snap, refs: Fids, root: FileEnt, p: FileEnt, x: string)
    requires Good(s, refs, root) && p in s.links && x in s.links[p]
    ensures s.links[p][x] in s.refs && s.refs[s.links[p][x]] > 0
  {
    hide Count, Shape, HandlesOk;
    assert s.links[p][x] in s.links[p].Values;
    assert s.links - {} == s.links;
    CountPositive(s.links, p, x, s.links[p][x]);
  }

  lemma ShapeReleased(s: Snap, s': Snap)
    requires Shape(s) && Released(s, s')
    ensures Shape(s')
  {
    hide Forest;
    forall p | p in s'.links ensures p in s.links && SubRow(s.links[p], s'.links[p]) {
      assert ReleasedAt(s, s', p);
    }
    FewerForest(s.links, s'.links);
  }

  // ------------------------------------------------------------- walking

  /** One name from the node at the end of a chain. */
  ghost function ChainStep(links: Links, c: seq<FileEnt>, x: string): Option<seq<FileEnt>>
    requires |c| > 0
  {
    var n := c[|c| - 1];
    if x == ".." then (if |c| == 1 then None else Some(c[..|c| - 1]))
    else if n in links && x in links[n] then Some(c + [links[n][x]])
    else None
  }

  /** The chain reached by taking the names one at a time. */
  ghost function Reach(links: Links, c: seq<FileEnt>, names: seq<string>): (r: Option<seq<FileEnt>>)
    requires |c| > 0
    ensures r.Some? ==> |r.value| > 0
    decreases |names|
  {
    if names == [] then Some(c)
    else match ChainStep(links, c, names[0])
      case None => None
      case Some(d) => Reach(links, d, names[1..])
  }

  /** The nodes met going down from `n`, as far as the names are found. */
  ghost function Down(links: Links, n: FileEnt, names: seq<string>): (r: seq<FileEnt>)
    ensures |r| <= |names|
    decreases |names|
  {
    if names == [] || n !in links || names[0] !in links[n] then []
    else [links[n][names[0]]] + Down(links, links[n][names[0]], names[1..])
  }

  /** Walking `a + b` is walking `a` and then `b`. */
  lemma {:induction false} ReachConcat(links: Links, c: seq<FileEnt>, a: seq<string>, b: seq<string>)
    requires |c| > 0
    ensures Reach(links, c, a + b) ==
            match Reach(links, c, a) { case None => None case Some(d) => Reach(links, d, b) }
    decreases |a|
  {
    if a == [] {
      assert a + b == b;
    } else {
      assert (a + b)[0] == a[0] && (a + b)[1..] == a[1..] + b;
      match ChainStep(links, c, a[0]) {
        case None =>
        case Some(d) => ReachConcat(links, d, a[1..], b);
      }
    }
  }

  lemma {:induction false} ReachUps(links: Links, c: seq<FileEnt>, n: nat)
    requires n < |c|
    ensures Reach(links, c, Ups(n)) == Some(c[..|c| - n])
    decreases n
  {
    if n == 0 {
      assert c[..|c|] == c;
    } else {
      assert Ups(n)[0] == ".." && Ups(n)[1..] == Ups(n - 1);
      ReachUps(links, c[..|c| - 1], n - 1);
      assert c[..|c| - 1][..|c| - n] == c[..|c| - n];
    }
  }

  /** Going down stays in step with taking plain names one at a time. */
  lemma {:induction false} ReachDown(links: Links, c: seq<FileEnt>, names: seq<string>, i: nat)
    requires |c| > 0 && i <= |names|
    requires forall x <- names :: Plain(x)
    ensures var d := Down(links, c[|c| - 1], names);
            if i <= |d| then Reach(links, c, names[..i]) == Some(c + d[..i])
            else Reach(links, c, names[..i]) == None
    decreases |names|
  {
    var n := c[|c| - 1];
    var d := Down(links, n, names);
    if i == 0 {
      assert c + d[..0] == c;
    } else {
      assert names[..i][0] == names[0] && names[..i][1..] == names[1..][..i - 1];
      assert names[0] in names;
      if n in links && names[0] in links[n] {
        var m := links[n][names[0]];
        ReachDown(links, c + [m], names[1..], i - 1);
        assert (c + [m])[|c + [m]| - 1] == m;
        assert d == [m] + Down(links, m, names[1..]);
        if i <= |d| {
          assert c + d[..i] == c + [m] + d[1..][..i - 1];
        }
      }
    }
  }

  /** Every prefix of a valid list of names: first up the chain, then down the tree. */
  lemma ReachCanonical(links: Links, c: seq<FileEnt>, names: seq<string>, n: nat, i: nat)
    requires Canonical(names, n) && n < |c| && i <= |names|
    ensures var d := Down(links, c[|c| - n - 1], names[n..]);
            Reach(links, c, names[..i]) ==
            if i <= n then Some(c[..|c| - i])
            else if i - n <= |d| then Some(c[..|c| - n] + d[..i - n])
            else None
  {
    if i <= n {
      assert names[..i] == Ups(i);
      ReachUps(links, c, i);
    } else {
      assert names[..i] == Ups(n) + names[n..][..i - n];
      ReachConcat(links, c, Ups(n), names[n..][..i - n]);
      ReachUps(links, c, n);
      assert forall x <- names[n..] :: Plain(x);
      ReachDown(links, c[..|c| - n], names[n..], i - n);
    }
  }

  datatype WalkResult = Fail(err: Error) | Partial(qids: seq<nat>) | Full(qids: seq<nat>, h: FileHandle)

  datatype Error = UnknownFid | DupFid | NotDir | InvalidPath | NotFound | Exists | IllegalName | RemoveRoot

  /** `qid` is that of the node reached by the first i+1 names. */
  ghost predicate QidAt(links: Links, c: seq<FileEnt>, names: seq<string>, i: nat, qid: nat)
    requires |c| > 0 && i < |names|
  {
    var r := Reach(links, c, names[..i + 1]);
    r.Some? && r.value[|r.value| - 1].qid == qid
  }

  /** The qids are those of the nodes reached by the first one, two, ... names, for as many
      names as can be taken. */
  ghost predicate QidsReached(links: Links, c: seq<FileEnt>, names: seq<string>, qids: seq<nat>)
    requires |c| > 0
  {
    && |qids| <= |names|
    && (forall i :: 0 <= i < |qids| ==> QidAt(links, c, names, i, qids[i]))
    && (|qids| < |names| ==> Reach(links, c, names[..|qids| + 1]).None?)
  }

  // ------------------------------------------------------------- the server

  /** The handle whose node is the last of the chain. */
  function OnChain(path: seq<string>, chain: seq<FileEnt>): (h: FileHandle)
    requires |chain| > 0
    ensures h.Chain() == chain && h.path == path
  {
    FileHandle(path, chain[|chain| - 1], chain[..|chain| - 1])
  }

  /** The i-th node of the new chain: old ancestors, the turning point, then the nodes below. */
  function NodeAt(h: FileHandle, ndel: nat, ref: FileEnt, ans: seq<FileEnt>, i: nat): (p: FileEnt)
    requires ndel <= |h.parents| && ndel <= |ans| && ref == h.Chain()[|h.parents| - ndel]
    requires i < |h.parents| - ndel + 1 + |ans| - ndel
    ensures p == (h.Chain()[..|h.parents| - ndel + 1] + ans[ndel..])[i]
  {
    var i0 := |h.parents| - ndel + 1;
    if i < |h.parents| - ndel then h.parents[i]
    else if i >= i0 then ans[ndel + i - i0]
    else ref
  }

  ghost function Parent(h: FileHandle): FileEnt
    requires |h.parents| > 0
  {
    h.parents[|h.parents| - 1]
  }

  ghost function Cut(s: Snap, p: FileEnt, name: string): Snap
    requires p in s.links
  {
    var row: map<string, FileEnt> := s.links[p] - {name};
    s.(links := s.links[p := row])
  }

  /** The handle was reached through a parent that still has an entry of its name. */
  ghost predicate Removable(s: Snap, h: FileHandle) {
    && |h.parents| > 0
    && var p := h.parents[|h.parents| - 1];
       p in s.links && h.ent.name in s.links[p]
  }

  /** If that entry exists, it is the handle's own node. */
  ghost predicate OwnLink(s: Snap, h: FileHandle) {
    Removable(s, h) ==> s.links[Parent(h)][h.ent.name] == h.ent
  }

  lemma RootLink(s: Snap, h: FileHandle)
    requires |h.parents| == 0
    ensures OwnLink(s, h)
  {
  }

  lemma SnapKeys(nodes: set<FileEnt>, s: Snap)
    requires Matches(nodes, s)
    ensures s.refs.Keys == nodes
  {
  }

  lemma RemoveSetup(nodes: set<FileEnt>, s: Snap, refs: Fids, root: FileEnt, k: Key)
    requires Good(s, refs, root) && k in refs && |refs[k].parents| > 0 && s.refs.Keys == nodes
    ensures var p := refs[k].parents[|refs[k].parents| - 1];
            && p in nodes && p in s.links && refs[k].ent in nodes && (refs[k].ent.name in s.links[p] ==> p in s.dirs)
            && (refs[k].ent.name in s.links[p] ==> s.links[p][refs[k].ent.name] in s.refs)
            && (refs[k].ent.name !in s.links[p] ==> OwnLink(s, refs[k]))
  {
    hide Balanced, Shape;
    var h := refs[k];
    var p := h.parents[|h.parents| - 1];
    assert HandleOk(h, s.refs.Keys, root);
    assert p == h.Chain()[|h.parents| - 1] && h.ent == h.Chain()[|h.parents|];
    if h.ent.name in s.links[p] {
      assert s.links[p][h.ent.name] in s.links[p].Values;
    }
  }

  lemma HeldShift(bias: Bias, c: seq<FileEnt>, f: FileEnt, d: int)
    requires f in bias
    ensures Held(Shift(bias, f, d), c) == Shift(Held(bias, c), f, d)
  {
  }

  lemma CutCount(links: Links, p: FileEnt, name: string, n: FileEnt)
    requires p in links && name in links[p]
    ensures var row: map<string, FileEnt> := links[p] - {name};
            var l: Links := links[p := row];
            Count(links, n) == Count(l, n) + if n == links[p][name] then 1 else 0
  {
    hide Count, RowCount;
    var row: map<string, FileEnt> := links[p] - {name};
    CountSetRow(links, p, row, n);
    CountRow(links, p, n);
    RowCountDrop(links[p], name, n);
  }

  /** A cut entry leaves its node with one reference that no link accounts for. */
  lemma UnlinkOk(s: Snap, bias: Bias, h: FileHandle, c: FileEnt)
    requires Removable(s, h) && Ok(s, {}, Held(bias, h.Chain()))
    requires c in bias && c == s.links[Parent(h)][h.ent.name]
    ensures Ok(Cut(s, h.parents[|h.parents| - 1], h.ent.name), {}, Held(Shift(bias, c, 1), h.Chain()))
  {
    hide Count, Held;
    var p := h.parents[|h.parents| - 1];
    var s' := Cut(s, p, h.ent.name);
    HeldShift(bias, h.Chain(), c, 1);
    assert s.links - {} == s.links && s'.links - {} == s'.links;
    forall n | n in s.refs ensures Count(s.links, n) == Count(s'.links, n) + if n == c then 1 else 0 {
      CutCount(s.links, p, h.ent.name, n);
    }
  }

  /** After the cut and the two drops: right exactly when the cut entry was the handle's own. */
  lemma RemoveVerdict(s: Snap, s1: Snap, s2: Snap, refs: Fids, root: FileEnt, k: Key)
    requires Good(s, refs, root) && k in refs && Removable(s, refs[k])
    requires s1 == Cut(s, Parent(refs[k]), refs[k].ent.name) && Released(s1, s2)
    requires var bias := Outside(s.refs.Keys, refs - {k}, root);
             var c := s.links[Parent(refs[k])][refs[k].ent.name];
             c in bias && refs[k].ent in bias && Ok(s2, {}, Shift(Shift(bias, c, 1), refs[k].ent, -1))
    ensures Good(s2, refs - {k}, root) <==> OwnLink(s, refs[k])
  {
    hide Good, Outside, Ok;
    var bias := Outside(s.refs.Keys, refs - {k}, root);
    var c := s.links[Parent(refs[k])][refs[k].ent.name];
    var ent := refs[k].ent;
    if c == ent {
      assert Shift(Shift(bias, c, 1), ent, -1) == bias;
      RemoveGood(s, s1, s2, refs, root, k);
    } else {
      WrongBias(s2, refs - {k}, root, c, ent);
    }
  }

  lemma RemoveGood(s: Snap, s1: Snap, s2: Snap, refs: Fids, root: FileEnt, k: Key)
    requires Good(s, refs, root) && k in refs && Removable(s, refs[k])
    requires s1 == Cut(s, Parent(refs[k]), refs[k].ent.name) && Released(s1, s2)
    requires Ok(s2, {}, Outside(s.refs.Keys, refs - {k}, root))
    ensures Good(s2, refs - {k}, root)
  {
    hide Ok, Outside, HandleOk, Shape, Cut, Released;
    CutShape(s, Parent(refs[k]), refs[k].ent.name);
    ShapeReleased(s1, s2);
    ReleasedKeys(s1, s2);
  }

  lemma CutShape(s: Snap, p: FileEnt, name: string)
    requires Shape(s) && p in s.links
    ensures Shape(Cut(s, p, name)) && Cut(s, p, name).refs == s.refs
  {
    hide Forest;
    FewerForest(s.links, Cut(s, p, name).links);
  }

  lemma WrongBias(s: Snap, refs: Fids, root: FileEnt, c: FileEnt, ent: FileEnt)
    requires c != ent
    requires var bias := Outside(s.refs.Keys, refs, root);
             c in bias && ent in bias && Ok(s, {}, Shift(Shift(bias, c, 1), ent, -1))
    ensures !Good(s, refs, root)
  {
    hide Outside, Count, Shape;
    var bias := Outside(s.refs.Keys, refs, root);
    var bias' := Shift(Shift(bias, c, 1), ent, -1);
    assert bias'[c] != bias[c];
    BiasUnique(s.refs, s.links - {}, bias', bias);
  }

  ghost predicate CanCreate(s: Snap, refs: Fids, k: Key, name: string) {
    && Plain(name) && !HasSep(name)
    && k in refs && refs[k].ent.isDir && refs[k].ent in s.links && name !in s.links[refs[k].ent]
  }

  /** The fid moved to a new node linked under its old one; the old handle's references now
      belong to the new handle. */
  ghost predicate Created(s: Snap, s': Snap, refs: Fids, refs': Fids, k: Key, name: string, isDir: bool) {
    && CanCreate(s, refs, k, name) && k in refs' && refs' == refs[k := refs'[k]]
    && refs'[k].path == refs[k].path + [name] && refs'[k].parents == refs[k].Chain()
    && refs'[k].ent !in s.refs && refs'[k].ent.name == name && refs'[k].ent.isDir == isDir
    && s' == Grafted(s, refs[k].ent, name, refs'[k].ent, isDir)
  }

  /** The tree with the new node `f` linked under `p`, referenced by its parent and by the
      handle that created it. */
  ghost function Grafted(s: Snap, p: FileEnt, name: string, f: FileEnt, isDir: bool): Snap
    requires p in s.links
  {
    Snap(s.refs[f := 2], GraftLinks(s.links, p, name, f), if isDir then s.dirs + {f} else s.dirs)
  }

  ghost function GraftLinks(links: Links, p: FileEnt, name: string, f: FileEnt): Links
    requires p in links
  {
    var row: map<string, FileEnt> := links[p][name := f];
    var l1: Links := links[p := row];
    l1[f := map[]]
  }

  lemma InNodes(nodes: set<FileEnt>, s: Snap, n: FileEnt)
    requires Matches(nodes, s) && n in s.refs
    ensures n in nodes
  {
  }

  lemma CreatePlace(s: Snap, refs: Fids, root: FileEnt, k: Key)
    requires Good(s, refs, root) && k in refs
    ensures refs[k].ent in s.refs && refs[k].ent in s.links && s.refs[refs[k].ent] > 0
    ensures Closed(s) && Shape(s)
    ensures refs[k].ent in s.dirs <==> refs[k].ent.isDir
  {
    HandlePositive(s, refs, root, k, |refs[k].parents|);
  }

  /** A node nobody knows yet is pointed at by nobody. */
  lemma FreshUncounted(s: Snap, refs: Fids, root: FileEnt, f: FileEnt)
    requires Good(s, refs, root) && f !in s.refs
    ensures Count(s.links, f) == 0 && Count(Handles(refs), f) == 0
  {
    forall p, x | p in s.links && x in s.links[p] ensures s.links[p][x] != f {
      assert s.links[p][x] in s.links[p].Values;
    }
    assert Cells(s.links, f) == {};
    forall k, i | k in refs && 0 <= i < |refs[k].Chain()| ensures refs[k].Chain()[i] != f {
      assert HandleOk(refs[k], s.refs.Keys, root);
    }
    assert Cells(Handles(refs), f) == {};
  }

  lemma GraftCount(links: Links, p: FileEnt, name: string, f: FileEnt, n: FileEnt)
    requires p in links && f !in links && name !in links[p]
    ensures Count(GraftLinks(links, p, name, f), n) ==
            Count(links, n) + if n == f then 1 else 0
  {
    hide Count, RowCount;
    var row: map<string, FileEnt> := links[p][name := f];
    var l1: Links := links[p := row];
    CountSetRow(l1, f, map[], n);
    RowEmpty<string, FileEnt>(n);
    assert l1 - {f} == l1;
    CountSetRow(links, p, row, n);
    RowCountAdd(links[p], name, f, n);
    CountRow(links, p, n);
  }

  lemma GoodCreate(s: Snap, refs: Fids, root: FileEnt, k: Key, f: FileEnt)
    requires Good(s, refs, root) && k in refs && f !in s.refs
    requires refs[k].ent in s.dirs && f.name !in s.links[refs[k].ent] && f.level == refs[k].ent.level + 1
    ensures var h := refs[k];
            var h' := FileHandle(h.path + [f.name], f, h.Chain());
            Good(Grafted(s, h.ent, f.name, f, f.isDir), refs[k := h'], root)
  {
    hide Ok, Outside, HandleOk, Grafted, Closed, Shape;
    var h := refs[k];
    CreatePlace(s, refs, root, k);
    var h' := FileHandle(h.path + [f.name], f, h.Chain());
    GraftOk(s, refs, root, k, f, h');
    GraftShape(s, h.ent, f);
    GraftHandles(s, refs, root, k, f, h');
    assert root in Grafted(s, h.ent, f.name, f, f.isDir).refs by { GraftKeeps(s, h.ent, f); }
  }

  lemma GraftKeeps(s: Snap, p: FileEnt, f: FileEnt)
    requires p in s.links
    ensures Grafted(s, p, f.name, f, f.isDir).refs.Keys == s.refs.Keys + {f}
  {
  }

  lemma GraftOk(s: Snap, refs: Fids, root: FileEnt, k: Key, f: FileEnt, h': FileHandle)
    requires Good(s, refs, root) && k in refs && f !in s.refs
    requires refs[k].ent in s.dirs && refs[k].ent in s.links && f.name !in s.links[refs[k].ent]
    requires h'.Chain() == refs[k].Chain() + [f]
    ensures var s' := Grafted(s, refs[k].ent, f.name, f, f.isDir);
            Ok(s', {}, Outside(s'.refs.Keys, refs[k := h'], root))
  {
    hide Count, Shape, HandleOk, Handles, GraftLinks, Closed, Good;
    var s' := Grafted(s, refs[k].ent, f.name, f, f.isDir);
    var bias' := Outside(s'.refs.Keys, refs[k := h'], root);
    GraftClosed(s, refs, root, refs[k].ent, f);
    forall n | n in s'.refs ensures s'.refs[n] == Count(s'.links - {}, n) + bias'[n] {
      GraftBalance(s, refs, root, k, f, h', n);
    }
  }

  lemma GraftClosed(s: Snap, refs: Fids, root: FileEnt, p: FileEnt, f: FileEnt)
    requires Good(s, refs, root) && p in s.dirs && p in s.links
    ensures Closed(Grafted(s, p, f.name, f, f.isDir))
  {
    hide Balanced, Shape, HandlesOk, Outside;
  }

  lemma GraftBalance(s: Snap, refs: Fids, root: FileEnt, k: Key, f: FileEnt, h': FileHandle, n: FileEnt)
    requires Good(s, refs, root) && k in refs && f !in s.refs
    requires refs[k].ent in s.links && f.name !in s.links[refs[k].ent]
    requires h'.Chain() == refs[k].Chain() + [f] && (n in s.refs || n == f)
    ensures var s' := Grafted(s, refs[k].ent, f.name, f, f.isDir);
            s'.refs[n] == Count(s'.links - {}, n) + Count(Handles(refs[k := h']), n) + if n == root then 1 else 0
  {
    hide Count, Shape, HandlesOk, Handles, GraftLinks;
    var s' := Grafted(s, refs[k].ent, f.name, f, f.isDir);
    assert s.links - {} == s.links && s'.links - {} == s'.links;
    FreshUncounted(s, refs, root, f);
    GraftCount(s.links, refs[k].ent, f.name, f, n);
    HandlesPush(refs, k, h', f, n);
  }

  lemma HandlesPush(refs: Fids, k: Key, h': FileHandle, f: FileEnt, n: FileEnt)
    requires k in refs && h'.Chain() == refs[k].Chain() + [f]
    ensures Count(Handles(refs[k := h']), n) == Count(Handles(refs), n) + if n == f then 1 else 0
  {
    hide Count, RowCount;
    assert Handles(refs[k := h']) == Handles(refs)[k := Row(h'.Chain())];
    CountSetRow(Handles(refs), k, Row(h'.Chain()), n);
    CountRow(Handles(refs), k, n);
    RowOfPush(refs[k].Chain(), f, n);
  }

  lemma GraftShape(s: Snap, p: FileEnt, f: FileEnt)
    requires Shape(s) && Closed(s) && p in s.links && f !in s.refs && p in s.refs && s.refs[p] > 0
    requires f.level == p.level + 1
    ensures Shape(Grafted(s, p, f.name, f, f.isDir))
  {
    GraftForest(s, p, f);
  }

  lemma GraftForest(s: Snap, p: FileEnt, f: FileEnt)
    requires Forest(s.links) && Closed(s) && p in s.links && f !in s.refs && f.level == p.level + 1
    ensures Forest(GraftLinks(s.links, p, f.name, f))
  {
    hide Apart;
    var links' := GraftLinks(s.links, p, f.name, f);
    forall q, r | q in links' && r in links' && q != r ensures Apart(links'[q], links'[r]) {
      if q != f && r != f {
        GraftApart(s, p, f, q, r);
      } else {
        EmptyApart(links'[q], links'[r]);
      }
    }
  }

  lemma EmptyApart(a: map<string, FileEnt>, b: map<string, FileEnt>)
    requires a == map[] || b == map[]
    ensures Apart(a, b)
  {
  }

  lemma GraftApart(s: Snap, p: FileEnt, f: FileEnt, q: FileEnt, r: FileEnt)
    requires Closed(s) && p in s.links && f !in s.refs
    requires q in s.links && r in s.links && q != r && Apart(s.links[q], s.links[r])
    ensures var links' := GraftLinks(s.links, p, f.name, f);
            Apart(links'[q], links'[r])
  {
    forall t, y | t in s.links && y in s.links[t] ensures s.links[t][y] != f {
      assert s.links[t][y] in s.links[t].Values;
    }
  }

  lemma GraftHandles(s: Snap, refs: Fids, root: FileEnt, k: Key, f: FileEnt, h': FileHandle)
    requires Good(s, refs, root) && k in refs && refs[k].ent in s.links
    requires h'.Chain() == refs[k].Chain() + [f] && h'.path == refs[k].path + [f.name]
    ensures var s' := Grafted(s, refs[k].ent, f.name, f, f.isDir);
            HandlesOk(refs[k := h'], s'.refs.Keys, root)
  {
    hide Ok, Outside, Shape;
    assert HandleOk(refs[k], s.refs.Keys, root);
  }

  ghost predicate Walkable(links: Links, h: FileHandle, names: seq<string>) {
    && (exists n :: Canonical(names, n) && n <= |h.path|)
    && (names == [] || Reach(links, h.Chain(), names[..1]).Some?)
  }

  /** When a walk succeeds, at least in part. */
  ghost predicate CanWalk(links: Links, refs: Fids, k: Key, newk: Key, names: seq<string>) {
    && k in refs && (newk == k || (newk.fid != NOFID && newk !in refs))
    && (names == [] || refs[k].ent.isDir)
    && Walkable(links, refs[k], names)
  }

  /** What a walk that succeeded did: the fids change only if every name was found, and then
      `newk` is where taking the names one at a time leads. */
  ghost predicate Walked(links: Links, refs: Fids, refs': Fids, k: Key, newk: Key, names: seq<string>, qids: seq<nat>) {
    && k in refs && QidsReached(links, refs[k].Chain(), names, qids)
    && (|qids| < |names| ==> refs' == refs)
    && (|qids| == |names| ==>
          && newk in refs' && refs' == refs[newk := refs'[newk]]
          && Reach(links, refs[k].Chain(), names) == Some(refs'[newk].Chain())
          && Move(refs[k].path, names) == Some(refs'[newk].path))
  }

  datatype Reply = Failed(err: Error) | Done(qids: seq<nat>)

  lemma FirstReached(links: Links, c: seq<FileEnt>, names: seq<string>, qids: seq<nat>)
    requires |c| > 0 && QidsReached(links, c, names, qids)
    ensures |qids| > 0 ==> Reach(links, c, names[..1]).Some?
  {
    if |qids| > 0 {
      assert QidAt(links, c, names, 0, qids[0]);
    }
  }

  lemma WalkNothing(links: Links, h: FileHandle)
    ensures QidsReached(links, h.Chain(), [], [])
    ensures Reach(links, h.Chain(), []) == Some(h.Chain()) && Move(h.path, []) == Some(h.path)
  {
  }

  lemma RootPositive(s: Snap, refs: Fids, root: FileEnt)
    requires Good(s, refs, root)
    ensures root in s.refs && s.refs[root] > 0
    ensures Ok(s, {}, Outside(s.refs.Keys, refs, root))
    ensures HandleOk(FileHandle([], root, []), s.refs.Keys, root)
  {
  }

  lemma ShapeGrown(s: Snap, s': Snap)
    requires Shape(s) && Grown(s, s')
    ensures Shape(s')
  {
  }

  /** A handle under a new key accounts for the references taken for it. */
  lemma GoodNew(s: Snap, s': Snap, refs: Fids, root: FileEnt, k: Key, h: FileHandle)
    requires Good(s, refs, root) && k !in refs && Grown(s, s')
    requires Ok(s', {}, Held(Outside(s.refs.Keys, refs, root), h.Chain()))
    requires HandleOk(h, s.refs.Keys, root)
    ensures Good(s', refs[k := h], root)
  {
    hide Ok, Outside, Held, Shape, HandleOk;
    ShapeGrown(s, s');
    assert refs - {k} == refs;
    OutsideSplit(s.refs.Keys, refs, root, k, h);
  }

  /** Before a clunk: the references of the handle under `k` set apart. */
  lemma GoodSplit(s: Snap, refs: Fids, root: FileEnt, k: Key)
    requires Good(s, refs, root) && k in refs
    ensures Ok(s, {}, Held(Outside(s.refs.Keys, refs - {k}, root), refs[k].Chain()))
    ensures forall n <- refs[k].Chain() :: n in s.refs
  {
    hide Ok, Outside, Held, Shape;
    OutsideSplit(s.refs.Keys, refs, root, k, refs[k]);
    assert refs[k := refs[k]] == refs;
    assert HandleOk(refs[k], s.refs.Keys, root);
  }

  lemma GoodDropped(s: Snap, s': Snap, refs: Fids, root: FileEnt, k: Key)
    requires Good(s, refs, root) && Released(s, s')
    requires Ok(s', {}, Outside(s.refs.Keys, refs - {k}, root))
    ensures Good(s', refs - {k}, root)
  {
    hide Ok, Outside, HandleOk;
    ShapeReleased(s, s');
  }

  lemma HeldSwap(bias: Bias, c: seq<FileEnt>, d: seq<FileEnt>)
    ensures Held(Held(bias, c), d) == Held(Held(bias, d), c)
  {
  }

  /** In-place walk: the new references stand beside those of the old handle. */
  lemma GoodSwap(s: Snap, s': Snap, refs: Fids, root: FileEnt, k: Key, h: FileHandle)
    requires Good(s, refs, root) && k in refs && Grown(s, s')
    requires Ok(s', {}, Held(Outside(s.refs.Keys, refs, root), h.Chain()))
    ensures Ok(s', {}, Held(Outside(s.refs.Keys, refs[k := h], root), refs[k].Chain()))
    ensures forall n <- refs[k].Chain() :: n in s.refs
  {
    hide Ok, Outside, Held, Shape;
    var nodes := s.refs.Keys;
    OutsideSplit(nodes, refs, root, k, refs[k]);
    assert refs[k := refs[k]] == refs;
    OutsideSplit(nodes, refs, root, k, h);
    HeldSwap(Outside(nodes, refs - {k}, root), refs[k].Chain(), h.Chain());
    assert HandleOk(refs[k], s.refs.Keys, root);
  }

  lemma GoodSwapped(s: Snap, s1: Snap, s2: Snap, refs: Fids, root: FileEnt, k: Key, h: FileHandle)
    requires Good(s, refs, root) && Grown(s, s1) && Released(s1, s2)
    requires Ok(s2, {}, Outside(s.refs.Keys, refs[k := h], root)) && HandleOk(h, s.refs.Keys, root)
    ensures Good(s2, refs[k := h], root)
  {
    hide Ok, Outside, HandleOk;
    ShapeGrown(s, s1);
    ShapeReleased(s1, s2);
  }

  lemma ReleasedRefl(s: Snap, bias: Bias)
    requires Ok(s, {}, bias)
    ensures Released(s, s)
  {
  }

  lemma GoodReleased(s: Snap, refs: Fids, root: FileEnt)
    requires Good(s, refs, root)
    ensures Released(s, s)
  {
    hide Outside, Released, Shape, HandlesOk;
    ReleasedRefl(s, Outside(s.refs.Keys, refs, root));
  }

  lemma ReleasedTrans(s: Snap, s1: Snap, s2: Snap)
    requires Released(s, s1) && Released(s1, s2)
    ensures Released(s, s2)
  {
  }

  lemma GoodParts(s: Snap, refs: Fids, root: FileEnt, k: Key)
    requires Good(s, refs, root) && k in refs
    ensures Closed(s) && Named(s) && HandleOk(refs[k], s.refs.Keys, root)
    ensures Ok(s, {}, Outside(s.refs.Keys, refs, root))
  {
  }

  lemma BadPath(names: seq<string>, bsp: int, depth: nat)
    requires bsp >= 0 ==> Canonical(names, bsp) && bsp > depth
    requires bsp < 0 ==> forall k :: !Canonical(names, k)
    ensures forall n :: Canonical(names, n) ==> n > depth
  {
    forall n | Canonical(names, n) ensures n > depth {
      CanonicalUnique(names, n, bsp);
    }
  }

  lemma VisitedPositive(s: Snap, refs: Fids, root: FileEnt, k: Key, names: seq<string>, n: nat)
    requires Good(s, refs, root) && k in refs && n <= |names| && n <= |refs[k].parents|
    ensures forall x <- refs[k].Chain() + Visited(s.links, refs[k], names, n) :: x in s.refs && s.refs[x] > 0
  {
    hide Good;
    var h := refs[k];
    forall i | 0 <= i < |h.Chain()| ensures h.Chain()[i] in s.refs && s.refs[h.Chain()[i]] > 0 {
      HandlePositive(s, refs, root, k, i);
    }
    assert forall j :: 0 <= j < |h.parents| ==> h.parents[j] == h.Chain()[j];
    DownPositive(s, refs, root, h.Chain()[|h.parents| - n], names[n..]);
  }

  /** What a walk from `h` may answer, said by taking the names one at a time. */
  ghost predicate WalkSpec(links: Links, h: FileHandle, names: seq<string>, res: WalkResult) {
    var c := h.Chain();
    && (res.Fail? || exists n :: Canonical(names, n) && n <= |h.path|)
    && match res
    case Fail(e) =>
      || (e == InvalidPath && forall n :: Canonical(names, n) ==> n > |h.path|)
      || (e == NotFound && names != [] && Reach(links, c, names[..1]).None?)
    case Partial(qids) => 0 < |qids| < |names| && QidsReached(links, c, names, qids)
    case Full(qids, h') =>
      && |qids| == |names| && QidsReached(links, c, names, qids)
      && Reach(links, c, names) == Some(h'.Chain()) && Move(h.path, names) == Some(h'.path)
  }

  /** Walking a valid `a + b` is complete, and gives the handle and the qids that walking `a` and then
      `b` gives, whenever those two walks are complete. */
  lemma WalkConcat(links: Links, h: FileHandle, a: seq<string>, b: seq<string>, n: nat,
                   q1: seq<nat>, h1: FileHandle, q2: seq<nat>, h2: FileHandle, res: WalkResult)
    requires WalkSpec(links, h, a, Full(q1, h1)) && WalkSpec(links, h1, b, Full(q2, h2))
    requires Canonical(a + b, n) && WalkSpec(links, h, a + b, res)
    ensures res == Full(q1 + q2, h2)
  {
    hide Canonical, Reach, Move, QidAt, QidsReached;
    ReachConcat(links, h.Chain(), a, b);
    MoveConcat(h.path, a, b);
    DepthSuffices(h.path, a + b, n);
    if |a + b| > 0 {
      PrefixReached(links, h.Chain(), a + b, 1);
    }
    if res.Partial? {
      PrefixReached(links, h.Chain(), a + b, |res.qids| + 1);
      QidsStop(links, h.Chain(), a + b, res.qids);
    }
    ChainIs(res.h, h2.parents, h2.ent);
    QidsConcat(links, h.Chain(), a, b, h1.Chain(), q1, q2, res.qids);
  }

  /** A list that leads somewhere from `dir` has no more backspaces than `dir` is deep. */
  lemma DepthSuffices(dir: seq<string>, names: seq<string>, n: nat)
    requires Canonical(names, n) && Move(dir, names).Some?
    ensures n <= |dir| && forall m :: Canonical(names, m) ==> m == n
  {
    NormMeaning(names, dir);
    NormOfCanonical(names, n);
    hide Canonical;
    forall m | Canonical(names, m) ensures m == n {
      CanonicalUnique(names, m, n);
    }
  }

  /** If a list leads somewhere, so does each prefix of it. */
  lemma PrefixReached(links: Links, c: seq<FileEnt>, names: seq<string>, i: nat)
    requires |c| > 0 && i <= |names| && Reach(links, c, names).Some?
    ensures Reach(links, c, names[..i]).Some?
  {
    hide Reach;
    assert names == names[..i] + names[i..];
    ReachConcat(links, c, names[..i], names[i..]);
  }

  lemma QidsStop(links: Links, c: seq<FileEnt>, names: seq<string>, qids: seq<nat>)
    requires |c| > 0 && QidsReached(links, c, names, qids) && |qids| < |names|
    ensures Reach(links, c, names[..|qids| + 1]).None?
  {
    hide Reach;
  }

  lemma QidsConcat(links: Links, c: seq<FileEnt>, a: seq<string>, b: seq<string>, d: seq<FileEnt>,
                   q1: seq<nat>, q2: seq<nat>, q3: seq<nat>)
    requires |c| > 0 && |d| > 0 && Reach(links, c, a) == Some(d)
    requires |q1| == |a| && |q2| == |b| && |q3| == |a + b|
    requires QidsReached(links, c, a, q1) && QidsReached(links, d, b, q2) && QidsReached(links, c, a + b, q3)
    ensures q3 == q1 + q2
  {
    hide Reach, QidAt;
    forall i | 0 <= i < |a + b| ensures q3[i] == (q1 + q2)[i] {
      assert QidAt(links, c, a + b, i, q3[i]);
      if i < |a| {
        assert (a + b)[..i + 1] == a[..i + 1] && QidAt(links, c, a, i, q1[i]);
        SameQid(links, c, a + b, i, q3[i], c, a, i, q1[i]);
      } else {
        var j := i - |a|;
        assert (a + b)[..i + 1] == a + b[..j + 1] && QidAt(links, d, b, j, q2[j]);
        ReachConcat(links, c, a, b[..j + 1]);
        SameQid(links, c, a + b, i, q3[i], d, b, j, q2[j]);
      }
    }
  }

  lemma SameQid(links: Links, c: seq<FileEnt>, x: seq<string>, i: nat, q: nat, d: seq<FileEnt>, y: seq<string>,
                j: nat, r: nat)
    requires |c| > 0 && |d| > 0 && i < |x| && j < |y|
    requires Reach(links, c, x[..i + 1]) == Reach(links, d, y[..j + 1])
    requires QidAt(links, c, x, i, q) && QidAt(links, d, y, j, r)
    ensures q == r
  {
    hide Reach;
  }

  lemma Depths(h: FileHandle, nodes: set<FileEnt>, root: FileEnt)
    requires HandleOk(h, nodes, root)
    ensures |h.path| == |h.parents|
  {
  }

  lemma GrownRefl(s: Snap)
    ensures Grown(s, s)
  {
  }

  lemma GrownLinks(s: Snap, s': Snap)
    requires Grown(s, s')
    ensures s'.links == s.links
  {
  }

  lemma GrownMore(s: Snap, s': Snap, s'': Snap)
    requires Grown(s, s') && Grown(s', s'')
    ensures Grown(s, s'')
  {
  }

  lemma GrownPositive(s: Snap, s': Snap, n: FileEnt)
    requires Grown(s, s') && n in s.refs && s.refs[n] > 0
    ensures n in s'.refs && s'.refs[n] > 0
  {
  }

  lemma SpecInvalid(links: Links, h: FileHandle, names: seq<string>)
    requires forall n :: Canonical(names, n) ==> n > |h.path|
    ensures WalkSpec(links, h, names, Fail(InvalidPath))
  {
    hide Canonical;
  }

  lemma SpecNotFound(links: Links, h: FileHandle, names: seq<string>, n: nat)
    requires Canonical(names, n) && n <= |h.parents| && n <= |names|
    requires |names| > 0 && Visited(links, h, names, n) == []
    ensures WalkSpec(links, h, names, Fail(NotFound))
  {
    hide Canonical, Visited, Reach;
    VisitedEnd(links, h, names, n);
  }

  lemma SpecPartial(links: Links, h: FileHandle, names: seq<string>, n: nat)
    requires Canonical(names, n) && n <= |h.parents| == |h.path| && n <= |names|
    requires 0 < |Visited(links, h, names, n)| < |names|
    ensures WalkSpec(links, h, names, Partial(Qids(Visited(links, h, names, n))))
  {
    hide Canonical, Visited, Reach, QidsReached;
    VisitedReached(links, h, names, n);
  }

  lemma SpecFull(links: Links, h: FileHandle, names: seq<string>, n: nat, h': FileHandle)
    requires Canonical(names, n) && n <= |h.parents| == |h.path| && n <= |names|
    requires var ans := Visited(links, h, names, n);
             |ans| == |names| && h'.Chain() == h.Chain()[..|h.parents| - n + 1] + ans[n..]
    requires Move(h.path, names) == Some(h'.path)
    ensures WalkSpec(links, h, names, Full(Qids(Visited(links, h, names, n)), h'))
  {
    hide Canonical, Visited, Reach, QidsReached, Move;
    VisitedReached(links, h, names, n);
    VisitedEnd(links, h, names, n);
  }

  /** The nodes whose qids a walk with `n` backspaces returns. */
  ghost function Visited(links: Links, h: FileHandle, names: seq<string>, n: nat): seq<FileEnt>
    requires n <= |h.parents| && n <= |names|
  {
    seq(n, i requires 0 <= i < n => h.parents[|h.parents| - 1 - i]) +
    Down(links, h.Chain()[|h.parents| - n], names[n..])
  }

  function Qids(ans: seq<FileEnt>): (r: seq<nat>)
    ensures |r| == |ans| && forall i :: 0 <= i < |ans| ==> r[i] == ans[i].qid
  {
    seq(|ans|, i requires 0 <= i < |ans| => ans[i].qid)
  }

  lemma VisitedAt(links: Links, h: FileHandle, names: seq<string>, n: nat, i: nat)
    requires Canonical(names, n) && n <= |h.parents| && i < |Visited(links, h, names, n)| <= |names|
    ensures QidAt(links, h.Chain(), names, i, Visited(links, h, names, n)[i].qid)
  {
    hide Reach;
    var c := h.Chain();
    var ans := Visited(links, h, names, n);
    var d := Down(links, c[|c| - n - 1], names[n..]);
    ReachCanonical(links, c, names, n, i + 1);
    if i < n {
      assert ans[i] == c[..|c| - i - 1][|c| - i - 2];
    } else {
      assert ans[i] == d[i - n];
      var r := c[..|c| - n] + d[..i + 1 - n];
      assert r[|r| - 1] == d[i - n];
    }
  }

  lemma VisitedEnd(links: Links, h: FileHandle, names: seq<string>, n: nat)
    requires Canonical(names, n) && n <= |h.parents|
    ensures var ans := Visited(links, h, names, n);
            && n <= |ans| <= |names|
            && (|ans| < |names| ==> Reach(links, h.Chain(), names[..|ans| + 1]).None?)
            && (|ans| == |names| ==>
                  Reach(links, h.Chain(), names) == Some(h.Chain()[..|h.parents| - n + 1] + ans[n..]))
  {
    hide Reach;
    var c := h.Chain();
    var ans := Visited(links, h, names, n);
    assert ans[n..] == Down(links, c[|c| - n - 1], names[n..]);
    if |ans| < |names| {
      ReachCanonical(links, c, names, n, |ans| + 1);
    } else {
      ReachCanonical(links, c, names, n, |names|);
      assert names[..|names|] == names && ans[n..][..|names| - n] == ans[n..];
      assert n == |names| ==> c[..|c| - n] + ans[n..] == c[..|c| - n];
    }
  }

  lemma VisitedReached(links: Links, h: FileHandle, names: seq<string>, n: nat)
    requires Canonical(names, n) && n <= |h.parents|
    ensures QidsReached(links, h.Chain(), names, Qids(Visited(links, h, names, n)))
  {
    hide Reach, QidAt, Canonical;
    VisitedEnd(links, h, names, n);
    var ans := Visited(links, h, names, n);
    forall i | 0 <= i < |ans|
      ensures QidAt(links, h.Chain(), names, i, Qids(ans)[i])
    {
      VisitedAt(links, h, names, n, i);
    }
  }

  /** The new handle's path components are again the names on its chain. */
  lemma WalkHandleOk(s: Snap, root: FileEnt, h: FileHandle, names: seq<string>, n: nat, h': FileHandle)
    requires Closed(s) && Named(s) && HandleOk(h, s.refs.Keys, root)
    requires Canonical(names, n) && n <= |h.parents|
    requires var ans := Visited(s.links, h, names, n);
             |ans| == |names| && h'.Chain() == h.Chain()[..|h.parents| - n + 1] + ans[n..]
    requires h'.path == h.path[..|h.path| - n] + names[n..]
    ensures HandleOk(h', s.refs.Keys, root)
  {
    var d := Down(s.links, h.Chain()[|h.parents| - n], names[n..]);
    assert Visited(s.links, h, names, n)[n..] == d;
    DownNames(s, h.Chain()[|h.parents| - n], names[n..]);
    var c, c' := h.Chain(), h'.Chain();
    forall i | 0 <= i < |c'| ensures c'[i] in s.refs {
      assert i > |h.parents| - n ==> c'[i] == d[i - (|h.parents| - n + 1)];
    }
    forall i | 0 <= i < |h'.path| ensures h'.path[i] == c'[i + 1].name {
      if i < |h.path| - n {
        assert c'[i + 1] == c[i + 1];
      } else {
        assert c'[i + 1] == d[i - (|h.path| - n)];
      }
    }
  }

  lemma {:induction false} DownNames(s: Snap, m: FileEnt, names: seq<string>)
    requires Closed(s) && Named(s)
    ensures forall i :: 0 <= i < |Down(s.links, m, names)| ==>
              Down(s.links, m, names)[i] in s.refs && Down(s.links, m, names)[i].name == names[i]
    decreases |names|
  {
    if Down(s.links, m, names) != [] {
      var x := s.links[m][names[0]];
      assert x in s.links[m].Values;
      DownNames(s, x, names[1..]);
    }
  }

  lemma {:induction false} DownPositive(s: Snap, refs: Fids, root: FileEnt, m: FileEnt, names: seq<string>)
    requires Good(s, refs, root)
    ensures forall x <- Down(s.links, m, names) :: x in s.refs && s.refs[x] > 0
    decreases |names|
  {
    hide Ok, Outside, Shape, HandleOk;
    if Down(s.links, m, names) != [] {
      LinkPositive(s, refs, root, m, names[0]);
      DownPositive(s, refs, root, s.links[m][names[0]], names[1..]);
    }
  }

  /** Only counts changed: they grew, at nodes that were counted before. */
  ghost predicate Grown(s: Snap, s': Snap) {
    && s'.links == s.links && s'.dirs == s.dirs && s'.refs.Keys == s.refs.Keys
    && forall n :: n in s.refs ==> s'.refs[n] == s.refs[n] || (s'.refs[n] > s.refs[n] > 0)
  }

  lemma EmptyGood(root: FileEnt)
    requires root.isDir && root.level == 0
    ensures Good(Snap(map[root := 1], map[root := map[]], {root}), map[], root)
  {
    var s := Snap(map[root := 1], map[root := map[]], {root});
    assert Cells(s.links - {}, root) == {};
    assert Cells(Handles(map[]), root) == {};
  }

  lemma RefUp(s: Snap, bias: Bias, f: FileEnt)
    requires f in s.refs && Ok(s, {}, bias)
    ensures Ok(s.(refs := s.refs[f := s.refs[f] + 1]), {}, Shift(bias, f, 1))
  {
    hide Count;
  }

  // ------------------------------------------------------------- what is live

  /** Following `names` down from `a` ends at `n`. */
  ghost predicate FoundBy(links: Links, a: FileEnt, names: seq<string>, n: FileEnt) {
    var d := Down(links, a, names);
    |d| == |names| && n == if names == [] then a else d[|d| - 1]
  }

  ghost predicate Found(links: Links, a: FileEnt, n: FileEnt) {
    exists names: seq<string> :: FoundBy(links, a, names, n)
  }

  lemma {:induction false} FoundSnoc(links: Links, a: FileEnt, names: seq<string>, p: FileEnt, x: string)
    requires FoundBy(links, a, names, p) && p in links && x in links[p]
    ensures FoundBy(links, a, names + [x], links[p][x])
    decreases |names|
  {
    if names == [] {
      assert [x][1..] == [];
    } else {
      var b := links[a][names[0]];
      assert (names + [x])[1..] == names[1..] + [x];
      assert Down(links, a, names)[1..] == Down(links, b, names[1..]);
      FoundSnoc(links, b, names[1..], p, x);
    }
  }

  /** The root and the nodes on the chains of handles. */
  ghost predicate Anchor(refs: Fids, root: FileEnt, a: FileEnt) {
    a == root || exists k :: k in refs && a in refs[k].Chain()
  }

  lemma AnchorPositive(s: Snap, refs: Fids, root: FileEnt, a: FileEnt)
    requires Good(s, refs, root) && Anchor(refs, root, a)
    ensures a in s.refs && s.refs[a] > 0
  {
    hide Good;
    if a == root {
      RootPositive(s, refs, root);
    } else {
      var k :| k in refs && a in refs[k].Chain();
      var i: nat :| i < |refs[k].Chain()| && refs[k].Chain()[i] == a;
      HandlePositive(s, refs, root, k, i);
    }
  }

  /** A counted node that is not an anchor is an entry of a counted directory one level up. */
  lemma HasParent(s: Snap, refs: Fids, root: FileEnt, n: FileEnt) returns (p: FileEnt, x: string)
    requires Good(s, refs, root) && n in s.refs && s.refs[n] > 0 && !Anchor(refs, root, n)
    ensures p in s.links && x in s.links[p] && s.links[p][x] == n
    ensures p in s.refs && s.refs[p] > 0 && p.level < n.level
  {
    NotInHandles(refs, root, n);
    assert s.links - {} == s.links;
    assert Count(s.links, n) > 0;
    assert Cells(s.links, n) != {};
    var c :| c in Cells(s.links, n);
    p, x := c.0, c.1;
  }

  lemma NotInHandles(refs: Fids, root: FileEnt, n: FileEnt)
    requires !Anchor(refs, root, n)
    ensures n != root && Count(Handles(refs), n) == 0
  {
    assert Cells(Handles(refs), n) == {};
  }

  lemma {:induction false} LiveFound(s: Snap, refs: Fids, root: FileEnt, n: FileEnt)
    returns (a: FileEnt, names: seq<string>)
    requires Good(s, refs, root) && n in s.refs && s.refs[n] > 0
    ensures Anchor(refs, root, a) && a in s.refs && FoundBy(s.links, a, names, n)
    decreases n.level
  {
    hide Good;
    if Anchor(refs, root, n) {
      a, names := n, [];
    } else {
      var p, x := HasParent(s, refs, root, n);
      a, names := LiveFound(s, refs, root, p);
      FoundSnoc(s.links, a, names, p, x);
      names := names + [x];
    }
  }

  /** Nothing leaks and nothing is lost, at any moment: a node is counted if and only if it can be
      found from the root or from a node some handle holds. */
  lemma LiveIffFound(s: Snap, refs: Fids, root: FileEnt, n: FileEnt)
    requires Good(s, refs, root) && n in s.refs
    ensures s.refs[n] > 0 <==> exists a | a in s.refs :: Anchor(refs, root, a) && Found(s.links, a, n)
  {
    hide Good, Anchor, FoundBy;
    if s.refs[n] > 0 {
      var a, names := LiveFound(s, refs, root, n);
      assert Found(s.links, a, n);
    }
    if a :| a in s.refs && Anchor(refs, root, a) && Found(s.links, a, n) {
      FoundLive(s, refs, root, a, n);
    }
  }

  lemma FoundLive(s: Snap, refs: Fids, root: FileEnt, a: FileEnt, n: FileEnt)
    requires Good(s, refs, root) && Anchor(refs, root, a) && Found(s.links, a, n)
    ensures n in s.refs && s.refs[n] > 0
  {
    hide Good, Anchor;
    AnchorPositive(s, refs, root, a);
    var names :| FoundBy(s.links, a, names, n);
    DownPositive(s, refs, root, a, names);
  }

  // ------------------------------------------------------------- the repository's own validation

  ghost function FoundSet(s: Snap, root: FileEnt): set<FileEnt> {
    set n | n in s.refs && Found(s.links, root, n)
  }

  /** Only a directory has a children map, and each entry's node is filed under its own name. */
  ghost predicate NodeOk(s: Snap, n: FileEnt)
    requires n in s.links
  {
    (n.isDir || n !in s.dirs) && forall x :: x in s.links[n] ==> s.links[n][x].name in s.links[n]
  }

  /** The entries of the nodes in V that point at `n`, and one for the root. */
  ghost function Tally(links: Links, V: set<FileEnt>, root: FileEnt, n: FileEnt): nat {
    Count(Restrict(links, V), n) + if n == root then 1 else 0
  }

  /** What validation demands of the nodes it finds from the root: that they are well formed and that
      their counts are the entries it met on the way. */
  ghost predicate Validated(s: Snap, root: FileEnt) {
    forall n :: n in FoundSet(s, root) ==>
      n in s.links && NodeOk(s, n) && s.refs[n] == Tally(s.links, FoundSet(s, root), root, n)
  }

  /** And, beyond it, that no node it does not find is still counted. */
  ghost predicate Clean(s: Snap, root: FileEnt) {
    Validated(s, root) && forall n :: n in s.refs ==> (s.refs[n] > 0 <==> Found(s.links, root, n))
  }

  /** With no handles left the invariant is what validation demands, and nothing has leaked. */
  lemma Oracle(s: Snap, root: FileEnt)
    requires Good(s, map[], root)
    ensures Clean(s, root)
  {
    hide Good, Found, Tally, NodeOk;
    forall n | n in s.refs ensures s.refs[n] > 0 <==> Found(s.links, root, n) {
      LiveFromRoot(s, root, n);
    }
    assert FoundSet(s, root) == Positive(s.refs);
    forall n | n in FoundSet(s, root)
      ensures n in s.links && NodeOk(s, n) && s.refs[n] == Tally(s.links, FoundSet(s, root), root, n)
    {
      LiveNodeOk(s, root, n);
    }
  }

  lemma LiveNodeOk(s: Snap, root: FileEnt, n: FileEnt)
    requires Good(s, map[], root) && n in s.refs && s.refs[n] > 0
    ensures n in s.links && NodeOk(s, n) && s.refs[n] == Tally(s.links, Positive(s.refs), root, n)
  {
    hide Count, Forest, Outside, Balanced;
    LinksOnly(s, root, n);
    LiveCount(s, n);
  }

  lemma LiveFromRoot(s: Snap, root: FileEnt, n: FileEnt)
    requires Good(s, map[], root) && n in s.refs
    ensures s.refs[n] > 0 <==> Found(s.links, root, n)
  {
    hide Good, Found;
    LiveIffFound(s, map[], root, n);
    if Found(s.links, root, n) {
      FoundLive(s, map[], root, root, n);
    }
  }

  lemma LinksOnly(s: Snap, root: FileEnt, n: FileEnt)
    requires Good(s, map[], root) && n in s.refs
    ensures s.refs[n] == Count(s.links, n) + if n == root then 1 else 0
  {
    assert s.links - {} == s.links;
    assert Cells(Handles(map[]), n) == {};
  }

  /** Where a traversal from the root stands: `seen` are done with, `todo` are met and waiting. */
  ghost predicate Traversal(s: Snap, root: FileEnt, tgts: map<FileEnt, nat>, todo: seq<FileEnt>, seen: set<FileEnt>) {
    && root in tgts && tgts.Keys <= FoundSet(s, root)
    && tgts.Keys == seen + (set n | n in todo) && seen !! (set n | n in todo)
    && (forall i, j :: 0 <= i < j < |todo| ==> todo[i] != todo[j])
    && (forall n :: n in seen ==> n in s.links && NodeOk(s, n) && s.links[n].Values <= tgts.Keys)
  }

  ghost predicate Tallied(s: Snap, root: FileEnt, tgts: map<FileEnt, nat>, seen: set<FileEnt>, row: map<string,
                          FileEnt>) {
    forall n :: n in tgts ==> tgts[n] == Tally(s.links, seen, root, n) + RowCount(row, n)
  }

  /** Validation as the tests do it: depth first from the root, with a tally of the entries met. */
  method Validate(root: FileEnt, ghost nodes: set<FileEnt>, ghost s: Snap) returns (ok: bool)
    requires Matches(nodes, s) && Closed(s) && root in nodes
    ensures ok <==> Validated(s, root)
  {
    hide FoundSet, Tally, NodeOk, Count, RowCount, Restrict, Traversal, Tallied, Validated;
    var tgts: map<FileEnt, nat> := map[root := 1];
    var todo: seq<FileEnt> := [root];
    ghost var seen: set<FileEnt> := {};
    StartTraversal(s, root);
    while todo != []
      invariant Traversal(s, root, tgts, todo, seen) && Tallied(s, root, tgts, seen, map[])
      decreases s.refs.Keys - seen
    {
      var f := todo[|todo| - 1];
      PopTraversal(s, root, tgts, todo, seen);
      if !f.isDir && f.hasChildren {
        FileWithChildren(s, f);
        BadNode(s, root, f);
        return false;
      }
      var good: bool;
      good, tgts, todo := Scan(root, f, tgts, todo[..|todo| - 1], nodes, s, seen);
      if !good {
        BadNode(s, root, f);
        return false;
      }
      RowDone(s, root, tgts, seen, f);
      seen := seen + {f};
    }
    EndTraversal(s, root, tgts, seen);
    ok := CompareCounts(root, tgts, nodes, s);
  }

  /** The entries of one directory, in any order. */
  method Scan(root: FileEnt, f: FileEnt, tgts0: map<FileEnt, nat>, todo0: seq<FileEnt>,
              ghost nodes: set<FileEnt>, ghost s: Snap, ghost seen: set<FileEnt>)
    returns (good: bool, tgts: map<FileEnt, nat>, todo: seq<FileEnt>)
    requires Matches(nodes, s) && Closed(s) && root in nodes && f in nodes && f in FoundSet(s, root) && f !in seen
    requires f.isDir || !f.hasChildren
    requires Traversal(s, root, tgts0, todo0 + [f], seen) && Tallied(s, root, tgts0, seen, map[])
    ensures good <==> NodeOk(s, f)
    ensures good ==> Traversal(s, root, tgts, todo, seen + {f}) && Tallied(s, root, tgts, seen, s.links[f])
  {
    hide FoundSet, Tally, Count, RowCount, Restrict, Traversal, Tallied;
    tgts, todo, good := tgts0, todo0, true;
    var rest := f.children.Keys;
    ghost var row: map<string, FileEnt> := map[];
    while rest != {}
      invariant rest <= f.children.Keys && row == f.children - rest
      invariant Traversal(s, root, tgts, todo + [f], seen) && Tallied(s, root, tgts, seen, row)
      invariant row.Values <= tgts.Keys
      invariant forall x :: x in row ==> row[x].name in f.children
      decreases rest
    {
      var x :| x in rest;
      var c := f.children[x];
      if c.name !in f.children {
        return false, tgts, todo;
      }
      ChildFound(s, root, f, x);
      MeetChild(s, root, tgts, todo, seen, f, x, row);
      if c !in tgts {
        tgts, todo := tgts[c := 1], todo + [c];
      } else {
        tgts := tgts[c := tgts[c] + 1];
      }
      rest := rest - {x};
      row := row[x := c];
    }
    assert row == f.children;
    CloseNode(s, root, tgts, todo, seen, f);
  }

  /** The last loop: every tally against the count of its node. */
  method CompareCounts(root: FileEnt, tgts: map<FileEnt, nat>, ghost nodes: set<FileEnt>, ghost s: Snap)
    returns (ok: bool)
    requires Matches(nodes, s) && tgts.Keys == FoundSet(s, root)
    requires forall n :: n in tgts ==> n in s.links && NodeOk(s, n) && tgts[n] == Tally(s.links, tgts.Keys, root, n)
    ensures ok <==> Validated(s, root)
  {
    hide Tally, NodeOk, Found;
    var rest := tgts.Keys;
    while rest != {}
      invariant rest <= tgts.Keys && forall n :: n in tgts.Keys - rest ==> n in s.refs && s.refs[n] == tgts[n]
      decreases rest
    {
      var f :| f in rest;
      if tgts[f] != f.nref {
        assert f in FoundSet(s, root);
        return false;
      }
      rest := rest - {f};
    }
    ok := true;
  }

  lemma StartTraversal(s: Snap, root: FileEnt)
    requires Closed(s) && root in s.refs
    ensures Traversal(s, root, map[root := 1], [root], {}) && Tallied(s, root, map[root := 1], {}, map[])
  {
    assert FoundBy(s.links, root, [], root);
    assert Cells(Restrict(s.links, {}), root) == {};
    assert RowSlots<string, FileEnt>(map[], root) == {};
  }

  lemma PopTraversal(s: Snap, root: FileEnt, tgts: map<FileEnt, nat>, todo: seq<FileEnt>, seen: set<FileEnt>)
    requires Traversal(s, root, tgts, todo, seen) && todo != []
    ensures var f := todo[|todo| - 1];
            f in FoundSet(s, root) && f in s.refs && f !in seen && todo == todo[..|todo| - 1] + [f]
  {
    hide Found, NodeOk;
    var f := todo[|todo| - 1];
    assert f in (set n | n in todo);
  }

  lemma ChildFound(s: Snap, root: FileEnt, f: FileEnt, x: string)
    requires Closed(s) && f in FoundSet(s, root) && x in s.links[f]
    ensures s.links[f][x] in FoundSet(s, root)
  {
    hide FoundBy;
    var names :| FoundBy(s.links, root, names, f);
    FoundSnoc(s.links, root, names, f, x);
    assert s.links[f][x] in s.links[f].Values;
  }

  /** One more entry of the directory being scanned. */
  lemma MeetChild(s: Snap, root: FileEnt, tgts: map<FileEnt, nat>, todo: seq<FileEnt>, seen: set<FileEnt>,
                  f: FileEnt, x: string, row: map<string, FileEnt>)
    requires Traversal(s, root, tgts, todo + [f], seen) && Tallied(s, root, tgts, seen, row)
    requires f in s.links && x in s.links[f] && s.links[f][x] in FoundSet(s, root) && x !in row &&
             row.Values <= tgts.Keys
    ensures var c := s.links[f][x];
            var tgts': map<FileEnt, nat> := tgts[c := if c in tgts then tgts[c] + 1 else 1];
            && Traversal(s, root, tgts', if c in tgts then todo + [f] else todo + [c] + [f], seen)
            && Tallied(s, root, tgts', seen, row[x := c])
            && row[x := c].Values <= tgts'.Keys
  {
    hide FoundSet, NodeOk, Traversal, Tally, RowCount;
    var c := s.links[f][x];
    MeetTraversal(s, root, tgts, todo, seen, f, c);
    var tgts': map<FileEnt, nat> := tgts[c := if c in tgts then tgts[c] + 1 else 1];
    forall n | n in tgts' ensures tgts'[n] == Tally(s.links, seen, root, n) + RowCount(row[x := c], n) {
      RowCountAdd(row, x, c, n);
      if n !in tgts {
        Unmet(s, root, tgts, todo + [f], seen, row, n);
      }
    }
    var row' := row[x := c];
    forall y | y in row' ensures row'[y] in tgts' {
      assert y != x ==> row[y] in row.Values;
    }
  }

  lemma MeetTraversal(s: Snap, root: FileEnt, tgts: map<FileEnt, nat>, todo: seq<FileEnt>, seen: set<FileEnt>,
                      f: FileEnt, c: FileEnt)
    requires Traversal(s, root, tgts, todo + [f], seen) && c in FoundSet(s, root)
    ensures var tgts': map<FileEnt, nat> := tgts[c := if c in tgts then tgts[c] + 1 else 1];
            Traversal(s, root, tgts', if c in tgts then todo + [f] else todo + [c] + [f], seen)
  {
    hide FoundSet, NodeOk;
    if c !in tgts {
      var before, after := todo + [f], todo + [c] + [f];
      assert (set n | n in after) == (set n | n in before) + {c};
      assert forall i :: 0 <= i < |before| ==> before[i] in (set n | n in before);
      forall i, j | 0 <= i < j < |after| ensures after[i] != after[j] {
        assert i < |todo| ==> after[i] == before[i];
        assert j < |todo| ==> after[j] == before[j];
        assert after[|todo| + 1] == before[|todo|] == f;
      }
    }
  }

  /** A node not met yet has no entry among those tallied. */
  lemma Unmet(s: Snap, root: FileEnt, tgts: map<FileEnt, nat>, todo: seq<FileEnt>, seen: set<FileEnt>,
              row: map<string, FileEnt>, n: FileEnt)
    requires Traversal(s, root, tgts, todo, seen) && n !in tgts && row.Values <= tgts.Keys
    ensures Tally(s.links, seen, root, n) == 0 && RowCount(row, n) == 0
  {
    hide FoundSet, NodeOk;
    assert Cells(Restrict(s.links, seen), n) == {} by {
      forall p, x | p in seen && p in s.links && x in s.links[p] ensures s.links[p][x] != n {
        assert s.links[p][x] in s.links[p].Values;
      }
    }
    assert RowSlots(row, n) == {} by {
      forall x | x in row ensures row[x] != n {
        assert row[x] in row.Values;
      }
    }
  }

  lemma CloseNode(s: Snap, root: FileEnt, tgts: map<FileEnt, nat>, todo: seq<FileEnt>, seen: set<FileEnt>, f: FileEnt)
    requires Traversal(s, root, tgts, todo + [f], seen) && f in s.links && NodeOk(s, f) &&
             s.links[f].Values <= tgts.Keys
    ensures Traversal(s, root, tgts, todo, seen + {f})
  {
    hide FoundSet, NodeOk;
    var all := todo + [f];
    assert (set n | n in all) == (set n | n in todo) + {f};
    assert forall i :: 0 <= i < |todo| ==> all[i] == todo[i] && all[|todo|] == f;
    assert f !in todo;
  }

  lemma RowDone(s: Snap, root: FileEnt, tgts: map<FileEnt, nat>, seen: set<FileEnt>, f: FileEnt)
    requires f in s.links && f !in seen && Tallied(s, root, tgts, seen, s.links[f])
    ensures Tallied(s, root, tgts, seen + {f}, map[])
  {
    hide Count, RowCount;
    var big := Restrict(s.links, seen + {f});
    assert big - {f} == Restrict(s.links, seen);
    forall n | n in tgts ensures tgts[n] == Tally(s.links, seen + {f}, root, n) + RowCount<string, FileEnt>(map[], n) {
      CountRow(big, f, n);
      RowEmpty<string, FileEnt>(n);
    }
  }

  lemma FileWithChildren(s: Snap, f: FileEnt)
    requires f in s.links && !f.isDir && f in s.dirs
    ensures !NodeOk(s, f)
  {
  }

  lemma BadNode(s: Snap, root: FileEnt, f: FileEnt)
    requires f in FoundSet(s, root) && f in s.links && !NodeOk(s, f)
    ensures !Validated(s, root)
  {
    hide NodeOk, Found;
  }

  /** A traversal with nothing waiting has met every node that can be found. */
  lemma EndTraversal(s: Snap, root: FileEnt, tgts: map<FileEnt, nat>, seen: set<FileEnt>)
    requires Traversal(s, root, tgts, [], seen) && Tallied(s, root, tgts, seen, map[])
    ensures tgts.Keys == FoundSet(s, root)
    ensures forall n :: n in tgts ==> n in s.links && NodeOk(s, n) && tgts[n] == Tally(s.links, tgts.Keys, root, n)
  {
    hide NodeOk, Count, RowCount, Restrict, FoundBy;
    assert tgts.Keys == seen;
    forall n | n in FoundSet(s, root) ensures n in seen {
      var names :| FoundBy(s.links, root, names, n);
      StaysInside(s, seen, root, names, n);
    }
    forall n: FileEnt | n in tgts ensures RowCount<string, FileEnt>(map[], n) == 0 {
      RowEmpty<string, FileEnt>(n);
    }
  }

  lemma {:induction false} StaysInside(s: Snap, V: set<FileEnt>, a: FileEnt, names: seq<string>, n: FileEnt)
    requires a in V && FoundBy(s.links, a, names, n)
    requires forall p :: p in V ==> p in s.links && s.links[p].Values <= V
    ensures n in V
    decreases |names|
  {
    if names != [] {
      var b := s.links[a][names[0]];
      assert b in s.links[a].Values;
      assert Down(s.links, a, names)[1..] == Down(s.links, b, names[1..]);
      StaysInside(s, V, b, names[1..], n);
    }
  }

  // ------------------------------------------------------------- what a release leaves alone

  /** Entries were lost only at the nodes whose count left the positive range. */
  ghost predicate Trimmed(s: Snap, s': Snap) {
    && s'.refs.Keys == s.refs.Keys == s.links.Keys == s'.links.Keys
    && (forall n :: n in s.refs ==>
          s'.links[n] == if s.refs[n] > 0 && s'.refs[n] <= 0 then map[] else s.links[n])
    && s.dirs <= s.refs.Keys && s'.dirs <= s.refs.Keys
    && (forall n :: n in s.refs ==> (n in s'.dirs <==> n in s.dirs && !(s.refs[n] > 0 && s'.refs[n] <= 0)))
  }

  lemma ReleasedTrimmed(s: Snap, s1: Snap, s2: Snap)
    requires Closed(s) && Grown(s, s1) && Released(s1, s2)
    ensures Trimmed(s, s2)
  {
    forall n | n in s.refs ensures ReleasedAt(s1, s2, n) {
    }
  }

  lemma GrownTrimmed(s: Snap, s': Snap)
    requires Closed(s) && Grown(s, s')
    ensures Trimmed(s, s')
  {
  }

  lemma GoodClosed(s: Snap, refs: Fids, root: FileEnt)
    requires Good(s, refs, root)
    ensures Closed(s)
  {
  }

  lemma CutClosed(s: Snap, p: FileEnt, name: string)
    requires Closed(s) && p in s.links
    ensures Closed(Cut(s, p, name))
  {
    var row: map<string, FileEnt> := s.links[p] - {name};
    assert row.Values <= s.links[p].Values;
  }

  /** Every list of names leads from the root where it led before. */
  ghost predicate SameTree(links: Links, links': Links, root: FileEnt) {
    forall names: seq<string> :: Reach(links', [root], names) == Reach(links, [root], names)
  }

  lemma {:induction false} TrimmedReach(s: Snap, s': Snap, refs: Fids, root: FileEnt, c: seq<FileEnt>,
                                        names: seq<string>)
    requires Trimmed(s, s') && Good(s', refs, root)
    requires |c| > 0 && forall n <- c :: n in s'.refs && s'.refs[n] > 0
    ensures Reach(s'.links, c, names) == Reach(s.links, c, names)
    decreases |names|
  {
    hide Good;
    if names != [] {
      var n := c[|c| - 1];
      assert s'.links[n] == s.links[n];
      var step := ChainStep(s'.links, c, names[0]);
      if step.Some? {
        if names[0] != ".." {
          LinkPositive(s', refs, root, n, names[0]);
        }
        TrimmedReach(s, s', refs, root, step.value, names[1..]);
      }
    }
  }

  lemma TrimmedSameTree(s: Snap, s': Snap, refs: Fids, root: FileEnt)
    requires Trimmed(s, s') && Good(s', refs, root)
    ensures SameTree(s.links, s'.links, root)
  {
    hide Good, Trimmed, Reach;
    RootPositive(s', refs, root);
    forall names: seq<string> ensures Reach(s'.links, [root], names) == Reach(s.links, [root], names) {
      TrimmedReach(s, s', refs, root, [root], names);
    }
  }

  lemma ReleasedSameTree(s: Snap, s': Snap, refs: Fids, root: FileEnt)
    requires Closed(s) && Released(s, s') && Good(s', refs, root)
    ensures SameTree(s.links, s'.links, root)
  {
    hide Good, Released, Trimmed, SameTree;
    GrownRefl(s);
    ReleasedTrimmed(s, s, s');
    TrimmedSameTree(s, s', refs, root);
  }

  lemma NothingTrimmed(s: Snap, refs: Fids, root: FileEnt)
    requires Good(s, refs, root)
    ensures Grown(s, s) && Trimmed(s, s) && SameTree(s.links, s.links, root) && Released(s, s)
  {
    hide Good, Released;
    GoodClosed(s, refs, root);
    GoodReleased(s, refs, root);
  }

  lemma WalkedNothing(links: Links, refs: Fids, k: Key)
    requires k in refs
    ensures Walked(links, refs, refs, k, k, [], [])
  {
    hide Reach, QidAt, Move;
    WalkNothing(links, refs[k]);
  }

  /** What a release leaves is determined by what it started from and the handles that remain. */
  lemma ReleaseDetermined(s: Snap, s1: Snap, s2: Snap, refs: Fids, root: FileEnt)
    requires Released(s, s1) && Good(s1, refs, root) && Released(s, s2) && Good(s2, refs, root)
    ensures s1 == s2
  {
    hide Good, Released;
    forall n | n in s1.refs && s1.refs[n] > 0 ensures n in s2.refs && s2.refs[n] > 0 {
      LiveInBoth(s, s1, s2, refs, root, n);
    }
    forall n | n in s2.refs && s2.refs[n] > 0 ensures n in s1.refs && s1.refs[n] > 0 {
      LiveInBoth(s, s2, s1, refs, root, n);
    }
    assert Positive(s1.refs) == Positive(s2.refs);
    ReleasedKeys(s, s1);
    ReleasedKeys(s, s2);
    RootPositive(s1, refs, root);
    RootPositive(s2, refs, root);
    SameLiveSame(s, s1, s2, Outside(s.refs.Keys, refs, root));
  }

  lemma ReleasedKeys(s: Snap, s': Snap)
    requires Released(s, s')
    ensures s'.refs.Keys == s.refs.Keys == s'.links.Keys == s.links.Keys
  {
  }

  lemma {:induction false} LiveInBoth(s: Snap, s1: Snap, s2: Snap, refs: Fids, root: FileEnt, n: FileEnt)
    requires Released(s, s1) && Good(s1, refs, root) && Released(s, s2) && Good(s2, refs, root)
    requires n in s1.refs && s1.refs[n] > 0
    ensures n in s2.refs && s2.refs[n] > 0
    decreases n.level
  {
    hide Good, Anchor;
    if Anchor(refs, root, n) {
      AnchorPositive(s2, refs, root, n);
    } else {
      var p, x := HasParent(s1, refs, root, n);
      LiveInBoth(s, s1, s2, refs, root, p);
      assert ReleasedAt(s, s1, p) && ReleasedAt(s, s2, p);
      LinkPositive(s2, refs, root, p, x);
    }
  }

  // ------------------------------------------------------------- session operations

  datatype Op =
    | OpAttach(k: Key)
    | OpWalk(k: Key, newk: Key, names: seq<string>)
    | OpCreate(k: Key, name: string, isDir: bool)
    | OpClunk(k: Key)
    | OpRemove(k: Key)
    | OpStop(sess: nat)

  /** A Remove whose handle's name now belongs to another node. */
  ghost predicate Misnamed(op: Op, s: Snap, refs: Fids) {
    op.OpRemove? && op.k in refs && !OwnLink(s, refs[op.k])
  }

  /** What an operation does to the tree and the fids. */
  ghost predicate Effect(op: Op, root: FileEnt, s: Snap, refs: Fids, s': Snap, refs': Fids) {
    match op
    case OpAttach(k) =>
      && Grown(s, s')
      && refs' == if k.fid == NOFID || k in refs then refs else refs[k := FileHandle([], root, [])]
    case OpWalk(k, newk, names) =>
      if CanWalk(s.links, refs, k, newk, names) then
        && Trimmed(s, s') && SameTree(s.links, s'.links, root)
        && exists qids :: Walked(s.links, refs, refs', k, newk, names, qids)
      else refs' == refs && s' == s
    case OpCreate(k, name, isDir) =>
      if CanCreate(s, refs, k, name) then Created(s, s', refs, refs', k, name, isDir) else refs' == refs && s' == s
    case OpClunk(k) => refs' == refs - {k} && Released(s, s') && SameTree(s.links, s'.links, root)
    case OpRemove(k) =>
      && refs' == refs - {k}
      && var s1 := if k in refs && Removable(s, refs[k]) then Cut(s, Parent(refs[k]), refs[k].ent.name) else s;
         Released(s1, s') && SameTree(s1.links, s'.links, root)
    case OpStop(sess) =>
      refs' == (map k | k in refs && k.sess != sess :: refs[k]) && Released(s, s') && SameTree(s.links, s'.links, root)
  }

  /** The states a run goes through, one operation after the other. */
  ghost predicate Trace(ops: seq<Op>, root: FileEnt, tr: seq<(Snap, Fids)>) {
    && |tr| == |ops| + 1
    && forall i :: 0 <= i < |ops| ==> Effect(ops[i], root, tr[i].0, tr[i].1, tr[i + 1].0, tr[i + 1].1)
  }

  lemma TraceMore(ops: seq<Op>, n: nat, root: FileEnt, tr: seq<(Snap, Fids)>, next: (Snap, Fids))
    requires n < |ops| && Trace(ops[..n], root, tr)
    requires Effect(ops[n], root, tr[n].0, tr[n].1, next.0, next.1)
    ensures Trace(ops[..n + 1], root, tr + [next])
  {
    hide Effect;
  }

  // ------------------------------------------------------------- path numbers

  const M64 := 0x1_0000_0000_0000_0000

  /** `made` numbers were drawn, each node got one of its own, and its qid is that number in 64 bits. */
  ghost predicate Numbered(nodes: set<FileEnt>, made: nat) {
    && (forall n :: n in nodes ==> 1 <= n.serial <= made && n.qid == n.serial % M64)
    && (forall m, n :: m in nodes && n in nodes && m.serial == n.serial ==> m == n)
  }

  /** The counter holds the last number drawn. */
  ghost predicate Counted(nodes: set<FileEnt>, made: nat, lastpath: nat) {
    lastpath == made % M64 && Numbered(nodes, made)
  }

  /** A node with a number nobody has yet. */
  lemma NumberedNew(nodes: set<FileEnt>, made: nat, f: FileEnt)
    requires Numbered(nodes, made) && f.serial == made >= 1 && f.qid == f.serial % M64
    requires forall n :: n in nodes ==> n.serial < made
    ensures Numbered(nodes + {f}, made)
  {
  }

  /** Two nodes have the same qid exactly when their numbers are a multiple of 2^64 apart; until that
      many have been drawn, qids identify nodes. */
  lemma QidsIdentify(nodes: set<FileEnt>, made: nat, m: FileEnt, n: FileEnt)
    requires Numbered(nodes, made) && m in nodes && n in nodes
    ensures m.qid == n.qid <==> (m.serial - n.serial) % M64 == 0
    ensures made <= M64 ==> (m.qid == n.qid <==> m == n)
    ensures made < M64 ==> 1 <= m.qid <= made
  {
    SameResidue(m.serial, n.serial);
  }

  lemma SameResidue(a: nat, b: nat)
    ensures a % M64 == b % M64 <==> (a - b) % M64 == 0
    ensures 1 <= a <= M64 && 1 <= b <= M64 && a % M64 == b % M64 ==> a == b
  {
  }

  ghost function EndOf(links: Links, c: seq<FileEnt>, names: seq<string>): FileEnt
    requires |c| > 0 && Reach(links, c, names).Some?
  {
    var r := Reach(links, c, names).value;
    r[|r| - 1]
  }

  lemma {:induction false} ReachStays(s: Snap, c: seq<FileEnt>, names: seq<string>)
    requires Closed(s) && |c| > 0 && (forall n <- c :: n in s.refs) && Reach(s.links, c, names).Some?
    ensures forall n <- Reach(s.links, c, names).value :: n in s.refs
    decreases |names|
  {
    if names != [] {
      var n := c[|c| - 1];
      assert names[0] != ".." ==> s.links[n][names[0]] in s.links[n].Values;
      ReachStays(s, ChainStep(s.links, c, names[0]).value, names[1..]);
    }
  }

  /** The qids that walks return identify the nodes they passed, for as long as the numbers last: two are
      equal exactly when the walks were at the same node. */
  lemma WalkQidsIdentify(s: Snap, refs: Fids, root: FileEnt, made: nat, k: Key, names: seq<string>, i: nat,
                         k': Key, names': seq<string>, j: nat, q: nat, q': nat)
    requires Good(s, refs, root) && Numbered(s.refs.Keys, made) && made <= M64
    requires k in refs && i < |names| && QidAt(s.links, refs[k].Chain(), names, i, q)
    requires k' in refs && j < |names'| && QidAt(s.links, refs[k'].Chain(), names', j, q')
    ensures q == q' <==>
            EndOf(s.links, refs[k].Chain(), names[..i + 1]) == EndOf(s.links, refs[k'].Chain(), names'[..j + 1])
  {
    hide Good, Numbered, Reach, Named, Ok;
    GoodParts(s, refs, root, k);
    GoodParts(s, refs, root, k');
    ReachStays(s, refs[k].Chain(), names[..i + 1]);
    ReachStays(s, refs[k'].Chain(), names'[..j + 1]);
    QidsIdentify(s.refs.Keys, made, EndOf(s.links, refs[k].Chain(), names[..i + 1]),
                 EndOf(s.links, refs[k'].Chain(), names'[..j + 1]));
  }

  /** Whether a create gets as far as drawing a number: everything is checked by then but whether the name is
      taken. */
  predicate Draws(refs: Fids, k: Key, name: string) {
    name != "." && name != ".." && k in refs && refs[k].ent.isDir && !HasSep(name) && |name| != 0
  }

  lemma MakesCreated(s: Snap, refs: Fids, k: Key, f: FileEnt)
    requires CanCreate(s, refs, k, f.name) && f !in s.refs && refs[k].ent in s.refs
    ensures var h := refs[k];
            Created(s, Grafted(s, h.ent, f.name, f, f.isDir), refs,
                    refs[k := FileHandle(h.path + [f.name], f, h.Chain())], k, f.name, f.isDir)
  {
    hide Grafted;
  }

  class FServer {
    var lastpath: nat
    const root: FileEnt
    var refs: Fids  // the fids of every session
    ghost var nodes: set<FileEnt>
    ghost var snap: Snap
    ghost var made: nat  // how many numbers were drawn

    ghost predicate Valid()
      reads this, nodes
    {
      Matches(nodes, snap) && Good(snap, refs, root) && Counted(nodes, made, lastpath)
    }

    constructor ()
      ensures Valid() && fresh(nodes) && refs == map[] && nodes == {root}
      ensures made == lastpath == root.qid == 1
      ensures root.isDir && snap == Snap(map[root := 1], map[root := map[]], {root})
    {
      var r := new FileEnt("/", true, 1, 0, 1);
      root, lastpath, refs, made := r, 1, map[], 1;
      nodes, snap := {r}, Snap(map[r := 1], map[r := map[]], {r});
      new;
      EmptyGood(root);
    }

    /** Follows names down the tree from `start` (FileEnt.Walk). */
    method WalkDown(start: FileEnt, names: seq<string>) returns (ans: seq<FileEnt>)
      requires Matches(nodes, snap) && Closed(snap) && start in nodes
      ensures ans == Down(snap.links, start, names)
    {
      ans := [];
      var ref := start;
      for i := 0 to |names|
        invariant ref in nodes
        invariant ans + Down(snap.links, ref, names[i..]) == Down(snap.links, start, names)
      {
        if names[i] !in ref.children {
          return;
        }
        assert ref.children[names[i]] in snap.links[ref].Values;
        ref := ref.children[names[i]];
        ans := ans + [ref];
        assert names[i..][1..] == names[i + 1..];
      }
    }

    /** Takes one more reference on `p`. */
    method Adopt(p: FileEnt, ghost bias: Bias, ghost chain: seq<FileEnt>)
      requires Matches(nodes, snap) && Ok(snap, {}, Held(bias, chain))
      requires p in nodes && snap.refs[p] > 0
      modifies this`snap, p`nref
      ensures Matches(nodes, snap) && Ok(snap, {}, Held(bias, chain + [p]))
      ensures Grown(old(snap), snap)
    {
      hide Count, Balanced, Held;
      HeldPush(bias, chain, p);
      RefUp(snap, Held(bias, chain), p);
      var _ := p.Incref(nodes, snap);
      snap := snap.(refs := snap.refs[p := snap.refs[p] + 1]);
    }

    /** Builds the node chain of the walked-to handle, taking a reference on each node. */
    method TakeChain(h: FileHandle, ndel: nat, ref: FileEnt, ans: seq<FileEnt>, ghost bias: Bias)
      returns (chain: seq<FileEnt>)
      requires Matches(nodes, snap) && Ok(snap, {}, bias)
      requires ndel <= |h.parents| && ndel <= |ans| && ref == h.Chain()[|h.parents| - ndel]
      requires forall n <- h.Chain() + ans :: n in nodes && snap.refs[n] > 0
      modifies this`snap, nodes`nref
      ensures chain == h.Chain()[..|h.parents| - ndel + 1] + ans[ndel..]
      ensures Matches(nodes, snap) && Ok(snap, {}, Held(bias, chain))
      ensures Grown(old(snap), snap)
    {
      hide Ok, Held, Grown, NodeAt, Matches;
      chain := [];
      HeldNone(bias);
      GrownRefl(snap);
      SnapKeys(nodes, snap);
      ghost var want := h.Chain()[..|h.parents| - ndel + 1] + ans[ndel..];
      for i := 0 to |h.parents| - ndel + 1 + |ans| - ndel
        invariant chain == want[..i]
        invariant Matches(nodes, snap) && Ok(snap, {}, Held(bias, chain))
        invariant Grown(old(snap), snap)
      {
        var p := NodeAt(h, ndel, ref, ans, i);
        assert want[i] in h.Chain() + ans;
        GrownPositive(old(snap), snap, p);
        ghost var s := snap;
        Adopt(p, bias, chain);
        GrownMore(old(snap), s, snap);
        assert want[..i + 1] == want[..i] + [p];
        chain := chain + [p];
      }
      assert want[..|want|] == want;
    }

    /** The nodes a walk passes: back over the leading backspaces, then down the tree. */
    method Visit(h: FileHandle, names: seq<string>, ndel: nat) returns (ref: FileEnt, ans: seq<FileEnt>)
      requires Matches(nodes, snap) && Closed(snap) && HandleOk(h, nodes, root)
      requires ndel <= |h.parents| && ndel <= |names|
      ensures ref == h.Chain()[|h.parents| - ndel]
      ensures ans == Visited(snap.links, h, names, ndel)
    {
      hide Matches, Closed, Down;
      ref := h.ent;
      if ndel > 0 {
        ref := h.parents[|h.parents| - ndel];
      }
      assert ref == h.Chain()[|h.parents| - ndel];
      ans := seq(ndel, i requires 0 <= i < ndel => h.parents[|h.parents| - 1 - i]);
      var below := WalkDown(ref, names[ndel..]);
      ans := ans + below;
    }

    /** Counts the leading backspaces. */
    method LeadingUps(names: seq<string>, ghost bsp: nat) returns (ndel: nat)
      requires Canonical(names, bsp)
      ensures ndel == bsp
    {
      ndel := 0;
      while ndel < |names| && names[ndel] == ".."
        invariant ndel <= bsp
      {
        ndel := ndel + 1;
      }
    }

    /** Walks from the handle under `k` (FileHandle.Walk).  References are taken only when all
        names were found. */
    method HandleWalk(k: Key, names: seq<string>) returns (res: WalkResult)
      requires Valid() && k in refs
      modifies this`snap, nodes`nref
      ensures Matches(nodes, snap) && Grown(old(snap), snap)
      ensures WalkSpec(snap.links, refs[k], names, res)
      ensures res.Full? ==> HandleOk(res.h, nodes, root)
      ensures res.Full? ==> Ok(snap, {}, Held(Outside(nodes, refs, root), res.h.Chain()))
      ensures !res.Full? ==> snap == old(snap)
    {
      hide Good, Numbered, Ok, Outside, Visited, Reach, QidAt, QidsReached, Canonical, Held, Closed, Named, Move,
        WalkSpec, Grown, HandleOk, Matches, Counted;
      SnapKeys(nodes, snap);
      GoodParts(snap, refs, root, k);
      ghost var links := snap.links;
      var h := refs[k];
      GrownRefl(snap);
      var bsp := ValidPath(names);
      if bsp < 0 || bsp > |h.path| {
        BadPath(names, bsp, |h.path|);
        SpecInvalid(links, h, names);
        return Fail(InvalidPath);
      }
      var ndel := LeadingUps(names, bsp);
      Depths(h, nodes, root);
      if ndel > |h.parents| {
        return Fail(InvalidPath);
      }
      var ref, ans := Visit(h, names, ndel);
      VisitedEnd(links, h, names, ndel);
      if |names| > 0 && |ans| == 0 {
        SpecNotFound(links, h, names, ndel);
        return Fail(NotFound);
      }
      if |ans| != |names| {
        SpecPartial(links, h, names, ndel);
        return Partial(Qids(ans));
      }
      var h' := Arrive(k, names, ndel, ref, ans);
      GrownLinks(old(snap), snap);
      SpecFull(links, h, names, ndel, h');
      res := Full(Qids(ans), h');
    }

    /** Builds the handle a complete walk ends at. */
    method Arrive(k: Key, names: seq<string>, ndel: nat, ref: FileEnt, ans: seq<FileEnt>) returns (h': FileHandle)
      requires Valid() && k in refs
      requires Canonical(names, ndel) && ndel <= |refs[k].parents| && ndel <= |names|
      requires ref == refs[k].Chain()[|refs[k].parents| - ndel]
      requires ans == Visited(snap.links, refs[k], names, ndel) && |ans| == |names|
      modifies this`snap, nodes`nref
      ensures Matches(nodes, snap) && Grown(old(snap), snap)
      ensures h'.Chain() == refs[k].Chain()[..|refs[k].parents| - ndel + 1] + ans[ndel..]
      ensures Move(refs[k].path, names) == Some(h'.path)
      ensures HandleOk(h', nodes, root)
      ensures Ok(snap, {}, Held(Outside(nodes, refs, root), h'.Chain()))
    {
      hide Good, Numbered, Ok, Outside, Canonical, Held, Closed, Named, Move, Visited, HandleOk, Matches, Grown;
      SnapKeys(nodes, snap);
      GoodParts(snap, refs, root, k);
      VisitedPositive(snap, refs, root, k, names, ndel);
      var h := refs[k];
      var chain := TakeChain(h, ndel, ref, ans, Outside(nodes, refs, root));
      Depths(h, nodes, root);
      h' := OnChain(h.path[..|h.path| - ndel] + names[ndel..], chain);
      WalkHandleOk(old(snap), root, h, names, ndel, h');
      MoveCanonical(h.path, names, ndel);
    }

    /** Gives back every reference a handle owns (FileHandle.Clunk). */
    method ReleaseHandle(h: FileHandle, ghost bias: Bias)
      requires Matches(nodes, snap) && Ok(snap, {}, Held(bias, h.Chain()))
      requires forall n <- h.Chain() :: n in nodes
      modifies this`snap, nodes`nref, nodes`children, nodes`hasChildren
      ensures Matches(nodes, snap) && Ok(snap, {}, bias)
      ensures Released(old(snap), snap)
    {
      hide Ok, Held, Spares, Supported, Released, Matches;
      ReleasedRefl(snap, Held(bias, h.Chain()));
      Drop(h.ent, bias, h.parents);
      assert h.parents[..|h.parents|] == h.parents;
      for i := 0 to |h.parents|
        invariant Matches(nodes, snap) && Released(old(snap), snap)
        invariant Ok(snap, {}, Held(bias, h.parents[..|h.parents| - i]))
      {
        var p := h.parents[|h.parents| - i - 1];
        assert p == h.Chain()[|h.parents| - i - 1];
        assert h.parents[..|h.parents| - i] == h.parents[..|h.parents| - i - 1] + [p];
        ghost var s1 := snap;
        Drop(p, bias, h.parents[..|h.parents| - i - 1]);
        ReleasedTrans(old(snap), s1, snap);
      }
      HeldNone(bias);
    }

    /** Gives back one reference on `p`. */
    method Drop(p: FileEnt, ghost bias: Bias, ghost rest: seq<FileEnt>)
      requires p in nodes && Matches(nodes, snap) && Ok(snap, {}, Held(bias, rest + [p]))
      modifies this`snap, nodes`nref, nodes`children, nodes`hasChildren
      ensures Matches(nodes, snap) && Ok(snap, {}, Held(bias, rest))
      ensures Released(old(snap), snap)
    {
      hide Balanced, Held, Spares, Supported, Closed, Released;
      HeldPush(bias, rest, p);
      var _, s' := p.Decref(nodes, snap, {}, Held(bias, rest + [p]));
      snap := s';
    }

    method Attach(k: Key) returns (r: Reply)
      requires Valid()
      modifies this`refs, this`snap, nodes`nref
      ensures Valid()
      ensures r.Failed? <==> k.fid == NOFID || k in old(refs)
      ensures r.Failed? ==> refs == old(refs)
      ensures !r.Failed? ==> refs == old(refs)[k := FileHandle([], root, [])] && r.qids == [root.qid]
      ensures Grown(old(snap), snap)
    {
      hide Good, Numbered, Ok, Outside, Held, HandleOk;
      if k.fid == NOFID {
        return Failed(UnknownFid);
      }
      if k in refs {
        return Failed(DupFid);
      }
      ghost var s, bias := snap, Outside(nodes, refs, root);
      RootPositive(snap, refs, root);
      HeldNone(bias);
      Adopt(root, bias, []);
      var h := FileHandle([], root, []);
      assert [] + [root] == h.Chain();
      GoodNew(s, snap, refs, root, k, h);
      refs := refs[k := h];
      r := Done([root.qid]);
    }

    method Clunk(k: Key) returns (r: Reply)
      requires Valid()
      modifies this`refs, this`snap, nodes`nref, nodes`children, nodes`hasChildren
      ensures Valid()
      ensures r.Failed? <==> k !in old(refs)
      ensures refs == old(refs) - {k}
      ensures Released(old(snap), snap) && SameTree(old(snap.links), snap.links, root)
    {
      hide Good, Numbered, Ok, Outside, Held, Released, Matches, SameTree;
      SnapKeys(nodes, snap);
      if k !in refs {
        assert refs - {k} == refs;
        NothingTrimmed(snap, refs, root);
        return Failed(UnknownFid);
      }
      var h := refs[k];
      ghost var s := snap;
      GoodSplit(snap, refs, root, k);
      ReleaseHandle(h, Outside(nodes, refs - {k}, root));
      GoodClosed(s, refs, root);
      GoodDropped(s, snap, refs, root, k);
      refs := refs - {k};
      ReleasedSameTree(s, snap, refs, root);
      r := Done([]);
    }

    method Walk(k: Key, newk: Key, names: seq<string>) returns (r: Reply)
      requires Valid()
      modifies this`refs, this`snap, nodes`nref, nodes`children, nodes`hasChildren
      ensures Valid()
      ensures !r.Failed? <==> CanWalk(old(snap.links), old(refs), k, newk, names)
      ensures r.Failed? ==> refs == old(refs) && snap == old(snap)
      ensures !r.Failed? ==> Walked(old(snap.links), old(refs), refs, k, newk, names, r.qids)
      ensures newk != k ==> Grown(old(snap), snap)
      ensures Trimmed(old(snap), snap) && SameTree(old(snap.links), snap.links, root)
    {
      hide Good, Numbered, Matches, Reach, QidAt, QidsReached, Move, Trimmed, SameTree, Grown, Walked;
      NothingTrimmed(snap, refs, root);
      var bsp := ValidPath(names);
      if bsp < 0 {
        return Failed(InvalidPath);
      }
      if k !in refs {
        return Failed(UnknownFid);
      }
      if newk != k {
        if newk.fid == NOFID {
          return Failed(UnknownFid);
        }
        if newk in refs {
          return Failed(DupFid);
        }
      }
      if names == [] && newk == k {
        WalkedNothing(snap.links, refs, k);
        return Done([]);
      }
      if names != [] && !refs[k].ent.isDir {
        return Failed(NotDir);
      }
      ghost var s := snap;
      r := WalkFrom(k, newk, names);
      TrimmedSameTree(s, snap, refs, root);
    }

    /** The walk proper, once the fids are found to be usable. */
    method WalkFrom(k: Key, newk: Key, names: seq<string>) returns (r: Reply)
      requires Valid() && k in refs && (newk == k || newk !in refs)
      modifies this`refs, this`snap, nodes`nref, nodes`children, nodes`hasChildren
      ensures Valid()
      ensures !r.Failed? <==> Walkable(old(snap.links), old(refs)[k], names)
      ensures r.Failed? ==> refs == old(refs) && snap == old(snap)
      ensures !r.Failed? ==> Walked(old(snap.links), old(refs), refs, k, newk, names, r.qids)
      ensures newk != k ==> Grown(old(snap), snap)
      ensures Trimmed(old(snap), snap)
    {
      hide Good, Numbered, Ok, Outside, Held, HandleOk, Reach, QidAt, Move, Canonical, Matches, Trimmed, SameTree;
      NothingTrimmed(snap, refs, root);
      ghost var s := snap;
      var res := HandleWalk(k, names);
      match res {
        case Fail(e) =>
          return Failed(e);
        case Partial(qids) =>
          FirstReached(snap.links, refs[k].Chain(), names, qids);
          return Done(qids);
        case Full(qids, h') =>
          FirstReached(snap.links, refs[k].Chain(), names, qids);
          Install(k, newk, h', s);
          return Done(qids);
      }
    }

    /** Puts a walked-to handle under `newk`, clunking what an in-place walk replaces. */
    method Install(k: Key, newk: Key, h': FileHandle, ghost s: Snap)
      requires Good(s, refs, root) && Counted(nodes, made, lastpath) && k in refs && (newk == k || newk !in refs)
      requires Matches(nodes, snap) && Grown(s, snap) && HandleOk(h', nodes, root)
      requires Ok(snap, {}, Held(Outside(nodes, refs, root), h'.Chain()))
      modifies this`refs, this`snap, nodes`nref, nodes`children, nodes`hasChildren
      ensures Valid() && refs == old(refs)[newk := h']
      ensures newk != k ==> Grown(s, snap)
      ensures Trimmed(s, snap)
    {
      hide Good, Counted, Ok, Outside, Held, HandleOk, Matches, Released, Trimmed;
      SnapKeys(nodes, snap);
      GoodClosed(s, refs, root);
      if newk == k {
        GoodSwap(s, snap, refs, root, k, h');
        ghost var s1 := snap;
        ReleaseHandle(refs[k], Outside(nodes, refs[k := h'], root));
        GoodSwapped(s, s1, snap, refs, root, k, h');
        ReleasedTrimmed(s, s1, snap);
      } else {
        GoodNew(s, snap, refs, root, newk, h');
        GrownTrimmed(s, snap);
      }
      refs := refs[newk := h'];
    }

    /** Draws a number (next). */
    method NextPath() returns (path: nat)
      requires Counted(nodes, made, lastpath)
      modifies this`lastpath, this`made
      ensures Counted(nodes, made, lastpath) && made == old(made) + 1 && path == lastpath == (old(lastpath) + 1) % M64
      ensures forall n :: n in nodes ==> n.serial < made
    {
      made := made + 1;
      assert (lastpath + 1) % M64 == made % M64;
      lastpath := (lastpath + 1) % M64;
      path := lastpath;
    }

    method Create(k: Key, name: string, isDir: bool) returns (r: Reply)
      requires Valid()
      modifies this, nodes`children
      ensures Valid() && old(nodes) <= nodes && fresh(nodes - old(nodes))
      ensures r.Failed? ==> refs == old(refs) && snap == old(snap)
      ensures !r.Failed? <==> CanCreate(old(snap), old(refs), k, name)
      ensures !r.Failed? ==> Created(old(snap), snap, old(refs), refs, k, name, isDir)
      ensures !r.Failed? ==> r.qids == [refs[k].ent.qid] && refs[k].ent.qid == (old(lastpath) + 1) % M64
      ensures made == old(made) + if Draws(old(refs), k, name) then 1 else 0
    {
      hide Good, Numbered, Matches, Created, Counted;
      if name == "." || name == ".." {
        return Failed(IllegalName);
      }
      if k !in refs {
        return Failed(UnknownFid);
      }
      if !refs[k].ent.isDir {
        return Failed(NotDir);
      }
      if HasSep(name) || |name| == 0 {
        return Failed(InvalidPath);
      }
      r := CreateUnder(k, name, isDir);
    }

    /** The create proper, once name and parent are found to be usable. */
    method CreateUnder(k: Key, name: string, isDir: bool) returns (r: Reply)
      requires Valid() && Draws(refs, k, name)
      modifies this, nodes`children
      ensures Valid() && old(nodes) <= nodes && fresh(nodes - old(nodes))
      ensures r.Failed? ==> refs == old(refs) && snap == old(snap)
      ensures !r.Failed? <==> CanCreate(old(snap), old(refs), k, name)
      ensures !r.Failed? ==> Created(old(snap), snap, old(refs), refs, k, name, isDir)
      ensures !r.Failed? ==> r.qids == [refs[k].ent.qid] && refs[k].ent.qid == (old(lastpath) + 1) % M64
      ensures made == old(made) + 1
    {
      hide Good, Numbered, Matches, Grafted, Closed, Shape, Created;
      SnapKeys(nodes, snap);
      CreatePlace(snap, refs, root, k);
      var h := refs[k];
      var path := NextPath();
      assert h.ent in nodes by { InNodes(nodes, snap, h.ent); }
      var ok, f := Plant(h.ent, name, isDir, path);
      if !ok {
        return Failed(Exists);
      }
      GoodCreate(snap, refs, root, k, f);
      NumberedNew(nodes, made, f);
      MakesCreated(snap, refs, k, f);
      Seat(k, FileHandle(h.path + [name], f, h.Chain()), Grafted(snap, h.ent, name, f, isDir));
      r := Done([f.qid]);
    }

    /** Takes up a new node and puts the handle on it under `k`. */
    method Seat(k: Key, h': FileHandle, ghost s': Snap)
      requires Matches(nodes + {h'.ent}, s') && Good(s', refs[k := h'], root)
      requires lastpath == made % M64 && Numbered(nodes + {h'.ent}, made)
      modifies this`refs, this`nodes, this`snap
      ensures Valid() && nodes == old(nodes) + {h'.ent} && snap == s' && refs == old(refs)[k := h']
    {
      hide Good, Numbered, Matches;
      refs := refs[k := h'];
      nodes, snap := nodes + {h'.ent}, s';
    }

    /** A new node, linked under `parent` and referenced by it and by the handle to come
        (fServer.Create and the incref that follows it). */
    method Plant(parent: FileEnt, name: string, isDir: bool, qid: nat) returns (ok: bool, f: FileEnt)
      requires Matches(nodes, snap) && parent in nodes
      modifies parent`children
      ensures fresh(f) && f.name == name && f.isDir == isDir && f.qid == qid && f.level == parent.level + 1
      ensures f.serial == made && f !in nodes
      ensures ok <==> parent in snap.dirs && name !in snap.links[parent]
      ensures ok ==> Matches(nodes + {f}, Grafted(snap, parent, name, f, isDir))
      ensures !ok ==> Matches(nodes, snap)
    {
      f := new FileEnt(name, isDir, qid, parent.level + 1, made);
      ok := parent.LinkChild(name, f);
      if ok {
        f.nref := f.nref + 1;
      }
    }

    /** Clunks the fid after undoing the link through which its handle was reached.  The counts
        stay right exactly when the parent's entry of that name is the handle's own node or is
        gone; when somebody re-created the name in between, they never do. */
    method Remove(k: Key) returns (r: Reply)
      requires Valid()
      modifies this`refs, this`snap, nodes`nref, nodes`children, nodes`hasChildren
      ensures Matches(nodes, snap) && refs == old(refs) - {k}
      ensures r.Failed? <==> !(k in old(refs) && Removable(old(snap), old(refs)[k]))
      ensures r.Failed? ==> Released(old(snap), snap)
      ensures !r.Failed? ==> Released(Cut(old(snap), Parent(old(refs)[k]), old(refs)[k].ent.name), snap)
      ensures Good(snap, refs, root) <==> k !in old(refs) || OwnLink(old(snap), old(refs)[k])
      ensures r.Failed? ==> SameTree(old(snap.links), snap.links, root)
      ensures !r.Failed? && Good(snap, refs, root) ==>
                SameTree(Cut(old(snap), Parent(old(refs)[k]), old(refs)[k].ent.name).links, snap.links, root)
    {
      hide Good, Numbered, Matches, OwnLink, Released, Cut, SameTree;
      if k !in refs {
        assert refs - {k} == refs;
        NothingTrimmed(snap, refs, root);
        return Failed(UnknownFid);
      }
      var h := refs[k];
      if |h.parents| == 0 {
        RootLink(snap, h);
        r := Clunk(k);
        return Failed(RemoveRoot);
      }
      var p := h.parents[|h.parents| - 1];
      SnapKeys(nodes, snap);
      RemoveSetup(nodes, snap, refs, root, k);
      ghost var s := snap;
      var ok := Unlink(p, h.ent.name);
      if !ok {
        r := Clunk(k);
        return Failed(NotFound);
      }
      GoodClosed(s, refs, root);
      CutClosed(s, p, h.ent.name);
      ghost var s1 := snap;
      FinishRemove(k, s);
      if Good(snap, refs, root) {
        ReleasedSameTree(s1, snap, refs, root);
      }
      r := Done([]);
    }

    method FinishRemove(k: Key, ghost s: Snap)
      requires Good(s, refs, root) && k in refs && Removable(s, refs[k])
      requires Matches(nodes, snap) && snap == Cut(s, Parent(refs[k]), refs[k].ent.name)
      modifies this`refs, this`snap, nodes`nref, nodes`children, nodes`hasChildren
      ensures Matches(nodes, snap) && refs == old(refs) - {k}
      ensures Released(old(snap), snap)
      ensures Good(snap, refs, root) <==> OwnLink(s, old(refs)[k])
    {
      hide Good, Numbered, Ok, Outside, Held, Released, OwnLink, Matches;
      SnapKeys(nodes, snap);
      GoodSplit(s, refs, root, k);
      RemoveSetup(s.refs.Keys, s, refs, root, k);
      var h := refs[k];
      ghost var bias, c := Outside(nodes, refs - {k}, root), s.links[Parent(h)][h.ent.name];
      UnlinkOk(s, bias, h, c);
      ghost var s1 := snap;
      DropTwice(h, Shift(bias, c, 1));
      RemoveVerdict(s, s1, snap, refs, root, k);
      refs := refs - {k};
    }

    /** One reference for the removed link, then those of the handle. */
    method DropTwice(h: FileHandle, ghost bias: Bias)
      requires Matches(nodes, snap) && h.ent in bias && Ok(snap, {}, Held(bias, h.Chain()))
      requires forall n <- h.Chain() :: n in nodes
      modifies this`snap, nodes`nref, nodes`children, nodes`hasChildren
      ensures Matches(nodes, snap) && Ok(snap, {}, Shift(bias, h.ent, -1))
      ensures Released(old(snap), snap)
    {
      hide Ok, Held, Released, Spares;
      assert h.ent in nodes by { assert h.ent == h.Chain()[|h.parents|]; }
      var _, s := h.ent.Decref(nodes, snap, {}, Held(bias, h.Chain()));
      snap := s;
      HeldShift(bias, h.Chain(), h.ent, -1);
      ReleaseHandle(h, Shift(bias, h.ent, -1));
      ReleasedTrans(old(snap), s, snap);
    }

    method Unlink(p: FileEnt, name: string) returns (ok: bool)
      requires p in nodes && Matches(nodes, snap)
      modifies this`snap, p`children
      ensures ok <==> p in old(snap).dirs && name in old(snap).links[p]
      ensures Matches(nodes, snap)
      ensures snap == if ok then Cut(old(snap), p, name) else old(snap)
    {
      ok := p.UnlinkChild(name);
      if ok {
        snap := Cut(snap, p, name);
      }
    }

    /** The end of a session: every fid it still holds is clunked, in any order. */
    method Stop(sess: nat)
      requires Valid()
      modifies this`refs, this`snap, nodes`nref, nodes`children, nodes`hasChildren
      ensures Valid()
      ensures refs == map k | k in old(refs) && k.sess != sess :: old(refs)[k]
      ensures Released(old(snap), snap) && SameTree(old(snap.links), snap.links, root)
    {
      hide Good, Numbered, Matches, Released, SameTree;
      GoodReleased(snap, refs, root);
      GoodClosed(snap, refs, root);
      var todo := set k | k in refs && k.sess == sess;
      while todo != {}
        invariant Valid()
        invariant todo == set k | k in refs && k.sess == sess
        invariant refs.Keys == todo + set k | k in old(refs) && k.sess != sess
        invariant forall k :: k in refs ==> k in old(refs) && refs[k] == old(refs)[k]
        invariant Released(old(snap), snap)
        decreases todo
      {
        var k :| k in todo;
        ghost var s := snap;
        var _ := Clunk(k);
        ReleasedTrans(old(snap), s, snap);
        todo := todo - {k};
      }
      ReleasedSameTree(old(snap), snap, refs, root);
    }

    /** Runs one operation, except a Remove that would unlink another node. */
    method Do(op: Op) returns (clean: bool)
      requires Valid()
      modifies this, nodes
      ensures Valid() && old(nodes) <= nodes && fresh(nodes - old(nodes))
      ensures clean <==> !Misnamed(op, old(snap), old(refs))
      ensures clean ==> Effect(op, root, old(snap), old(refs), snap, refs)
      ensures !clean ==> snap == old(snap) && refs == old(refs)
      ensures made <= old(made) + if clean then 1 else 0
    {
      hide Good, Numbered, OwnLink, Released, Walked, CanWalk, Created, CanCreate, Removable, Cut, SameTree, Trimmed;
      clean := true;
      match op {
        case OpAttach(k) => var _ := Attach(k);
        case OpWalk(k, newk, names) => var _ := Walk(k, newk, names);
        case OpCreate(k, name, isDir) => var _ := Create(k, name, isDir);
        case OpClunk(k) => var _ := Clunk(k);
        case OpStop(sess) => Stop(sess);
        case OpRemove(k) =>
          if k in refs {
            clean := FindsOwn(k);
          }
          if clean {
            var _ := Remove(k);
          }
      }
    }

    method FindsOwn(k: Key) returns (own: bool)
      requires Valid() && k in refs
      ensures own <==> OwnLink(snap, refs[k])
    {
      hide Good, Numbered;
      var h := refs[k];
      if |h.parents| == 0 {
        return true;
      }
      var p := h.parents[|h.parents| - 1];
      RemoveSetup(nodes, snap, refs, root, k);
      own := h.ent.name !in p.children || p.children[h.ent.name] == h.ent;
    }

    /** Any run of session operations, up to the first Remove that would unlink another node,
        followed by the end of every session: all references of handles are given back, and the
        counts are those of the links alone. */
    method RunAndStop(ops: seq<Op>) returns (done: nat, ghost tr: seq<(Snap, Fids)>)
      requires Valid()
      modifies this, nodes
      ensures done <= |ops| && Trace(ops[..done], root, tr) && tr[0] == (old(snap), old(refs))
      ensures done < |ops| ==> Misnamed(ops[done], tr[done].0, tr[done].1)
      ensures Valid() && refs == map[] && Released(tr[done].0, snap)
      ensures Clean(snap, root) && made <= old(made) + done
    {
      hide Good, Numbered, Clean, Matches, Effect, Released, Misnamed;
      done := 0;
      tr := [(snap, refs)];
      while done < |ops|
        invariant done <= |ops| && Valid() && old(nodes) <= nodes && fresh(nodes - old(nodes))
        invariant made <= old(made) + done
        invariant Trace(ops[..done], root, tr) && tr[0] == (old(snap), old(refs)) && tr[done] == (snap, refs)
      {
        var clean := Do(ops[done]);
        if !clean {
          break;
        }
        TraceMore(ops, done, root, tr, (snap, refs));
        tr := tr + [(snap, refs)];
        done := done + 1;
      }
      ghost var last := snap;
      GoodReleased(snap, refs, root);
      StopAll(last);
      Oracle(snap, root);
    }

    /** Ends every session. */
    method StopAll(ghost last: Snap)
      requires Valid() && Released(last, snap)
      modifies this`refs, this`snap, nodes`nref, nodes`children, nodes`hasChildren
      ensures Valid() && refs == map[] && Released(last, snap)
    {
      hide Good, Numbered, Matches, Released;
      while refs != map[]
        invariant Valid() && Released(last, snap)
        decreases refs.Keys
      {
        var k :| k in refs;
        ghost var s := snap;
        Stop(k.sess);
        ReleasedTrans(last, s, snap);
      }
    }
  }

  /** A run that breaks the counts: two fids reach the file x; the first removes it; somebody
      creates a new x; then the second removes "its" x, which unlinks the new one. */
  method NameReuse() returns (fs: FServer)
    ensures Matches(fs.nodes, fs.snap) && !Good(fs.snap, fs.refs, fs.root)
  {
    hide Good, Numbered, Matches, Reach;
    fs := new FServer();
    var r := fs.Attach(Key(0, 1));
    assert fs.snap.links[fs.root] == map[];
    r := CreateX(fs, Key(0, 1), Key(0, 2));
    var f := fs.refs[Key(0, 2)].ent;
    SecondFid(fs, f);
    RemoveThenCreate(fs, f);
  }

  method SecondFid(fs: FServer, f: FileEnt)
    requires fs.Valid() && fs.root.isDir && fs.root in fs.snap.links
    requires fs.refs.Keys == {Key(0, 1), Key(0, 2)}
    requires fs.refs[Key(0, 1)] == FileHandle([], fs.root, []) && fs.refs[Key(0, 2)].parents == [fs.root]
    requires "x" in fs.snap.links[fs.root] && f.name == "x"
    requires f == fs.refs[Key(0, 2)].ent == fs.snap.links[fs.root]["x"]
    modifies fs`refs, fs`snap, fs.nodes
    ensures fs.Valid() && fs.refs.Keys == {Key(0, 1), Key(0, 3)} && f in fs.nodes
    ensures fs.refs[Key(0, 1)] == FileHandle([], fs.root, [])
    ensures fs.refs[Key(0, 3)].parents == [fs.root] && fs.refs[Key(0, 3)].ent == f
    ensures fs.root in fs.snap.links && "x" !in fs.snap.links[fs.root]
  {
    hide Good, Numbered, Matches, Reach;
    assert Canonical(["x"], 0) && ["x"][..1] == ["x"];
    OneStep(fs.snap.links, fs.root, f);
    assert fs.refs[Key(0, 1)].Chain() == [fs.root];
    RemoveSetup(fs.nodes, fs.snap, fs.refs, fs.root, Key(0, 2)) by { SnapKeys(fs.nodes, fs.snap); }
    var r := fs.Walk(Key(0, 1), Key(0, 3), ["x"]);
    ChainIs(fs.refs[Key(0, 3)], [fs.root], f);
    r := fs.Remove(Key(0, 2));
  }

  /** Clones the root fid `top` as `k` and creates the file x through it. */
  method CreateX(fs: FServer, top: Key, k: Key) returns (r: Reply)
    requires fs.Valid() && fs.root.isDir && k.fid != NOFID && k != top && k !in fs.refs
    requires top in fs.refs && fs.refs[top] == FileHandle([], fs.root, [])
    requires fs.root in fs.snap.links && "x" !in fs.snap.links[fs.root]
    modifies fs, fs.nodes
    ensures fs.Valid() && k in fs.refs && fs.refs == old(fs.refs)[k := fs.refs[k]]
    ensures fs.refs[k].parents == [fs.root] && fs.refs[k].ent.name == "x"
    ensures fs.refs[k].ent !in old(fs.nodes) && old(fs.nodes) <= fs.nodes && fresh(fs.nodes - old(fs.nodes))
    ensures fs.root in fs.snap.links && "x" in fs.snap.links[fs.root]
    ensures fs.snap.links[fs.root]["x"] == fs.refs[k].ent
  {
    hide Good, Numbered, Matches;
    assert Canonical([], 0);
    SnapKeys(fs.nodes, fs.snap);
    r := fs.Walk(top, k, []);
    ChainIs(fs.refs[k], [], fs.root);
    r := fs.Create(k, "x", false);
  }

  method RemoveThenCreate(fs: FServer, f: FileEnt)
    requires fs.Valid() && fs.root.isDir && f in fs.nodes && f.name == "x"
    requires Key(0, 1) in fs.refs && fs.refs[Key(0, 1)] == FileHandle([], fs.root, [])
    requires Key(0, 3) in fs.refs && fs.refs[Key(0, 3)].ent == f && fs.refs[Key(0, 3)].parents == [fs.root]
    requires Key(0, 4) !in fs.refs
    requires fs.root in fs.snap.links && "x" !in fs.snap.links[fs.root]
    modifies fs, fs.nodes
    ensures Matches(fs.nodes, fs.snap) && !Good(fs.snap, fs.refs, fs.root)
  {
    hide Good, Numbered, Matches;
    var r := CreateX(fs, Key(0, 1), Key(0, 4));
    r := fs.Remove(Key(0, 3));
  }

  lemma ChainIs(h: FileHandle, parents: seq<FileEnt>, ent: FileEnt)
    requires h.Chain() == parents + [ent]
    ensures h.parents == parents && h.ent == ent
  {
    assert h.ent == h.Chain()[|h.Chain()| - 1] && h.parents == h.Chain()[..|h.Chain()| - 1];
  }

  lemma OneStep(links: Links, n: FileEnt, f: FileEnt)
    requires n in links && "x" in links[n] && links[n]["x"] == f
    ensures Reach(links, [n], ["x"]) == Some([n] + [f])
  {
    assert ["x"][1..] == [];
  }
}
