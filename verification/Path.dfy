/** Path normalisation and validation (path.go), with the meaning of a name list as a
    movement of a directory.  A directory is the sequence of names below the root. */
module Path {
  import opened Common

  predicate HasSep(s: string) {
    '/' in s || '\\' in s
  }

  predicate Blank(s: string) {
    s == "" || s == "."
  }

  /** A name that a walk can push: what is neither skipped nor a backspace. */
  predicate Plain(s: string) {
    !Blank(s) && s != ".."
  }

  predicate SepFree(names: seq<string>) {
    forall s <- names :: !HasSep(s)
  }

  // ---------------------------------------------------------------- movement

  /** Where one name leads from `dir`; None when it would leave the root. */
  function Step(dir: seq<string>, s: string): Option<seq<string>> {
    if Blank(s) then Some(dir)
    else if s == ".." then (if |dir| == 0 then None else Some(dir[..|dir| - 1]))
    else Some(dir + [s])
  }

  /** Where a list of names leads from `dir`. */
  function Move(dir: seq<string>, names: seq<string>): Option<seq<string>>
    decreases |names|
  {
    if names == [] then Some(dir)
    else match Step(dir, names[0])
      case None => None
      case Some(d) => Move(d, names[1..])
  }

  // ---------------------------------------------------------------- normal form

  /** `up` backspaces followed by pushing `down`. */
  datatype Normal = Normal(up: nat, down: seq<string>)

  function Ups(n: nat): (r: seq<string>)
    ensures |r| == n && forall s <- r :: s == ".."
  {
    seq(n, _ => "..")
  }

  function Flatten(nf: Normal): seq<string> {
    Ups(nf.up) + nf.down
  }

  function NormStep(nf: Normal, s: string): Normal {
    if Blank(s) then nf
    else if s != ".." then nf.(down := nf.down + [s])
    else if nf.down == [] then nf.(up := nf.up + 1)
    else nf.(down := nf.down[..|nf.down| - 1])
  }

  function Norm(names: seq<string>): Normal {
    if names == [] then Normal(0, [])
    else NormStep(Norm(names[..|names| - 1]), names[|names| - 1])
  }

  /** The shape ValidPath accepts: `n` backspaces, then plain separator-free names. */
  ghost predicate Canonical(names: seq<string>, n: int) {
    && 0 <= n <= |names|
    && (forall i :: 0 <= i < n ==> names[i] == "..")
    && (forall i :: n <= i < |names| ==> Plain(names[i]) && !HasSep(names[i]))
  }

  // ---------------------------------------------------------------- the code

  method ValidPath(args: seq<string>) returns (n: int)
    ensures n >= 0 ==> Canonical(args, n)
    ensures n < 0 ==> n == -1 && forall k :: !Canonical(args, k)
  {
    n := 0;
    for i := 0 to |args|
      invariant 0 <= n <= i
      invariant Canonical(args[..i], n)
    {
      var s := args[i];
      if |s| == 0 || s == "." {
        return -1;
      } else if s == ".." {
        if n != i {
          assert Plain(args[..i][n]);
          return -1;
        }
        n := n + 1;
      } else if HasSep(s) {
        return -1;
      }
    }
    assert args[..|args|] == args;
  }

  method NormalizePath(args: seq<string>) returns (ans: seq<string>, lo: int)
    ensures !SepFree(args) ==> ans == [] && lo == -1
    ensures SepFree(args) ==> ans == Flatten(Norm(args)) && lo == Norm(args).up
  {
    var buf := new string[|args|];
    var cursor := 0;
    lo := 0;
    for i := 0 to |args|
      invariant 0 <= lo <= cursor <= i
      invariant SepFree(args[..i])
      invariant buf[..cursor] == Flatten(Norm(args[..i])) && lo == Norm(args[..i]).up
    {
      var s := args[i];
      ghost var nf := Norm(args[..i]);
      assert args[..i + 1][..i] == args[..i];
      if HasSep(s) {
        return [], -1;
      }
      if |s| == 0 || s == "." {
        continue;
      }
      if s == ".." {
        if cursor > lo {
          cursor := cursor - 1;
          assert buf[..cursor] == Ups(nf.up) + nf.down[..|nf.down| - 1];
          continue;
        }
        lo := lo + 1;
        assert Ups(nf.up + 1) == Ups(nf.up) + [".."];
      }
      buf[cursor] := s;
      assert buf[..cursor] == Flatten(nf);
      cursor := cursor + 1;
      assert buf[..cursor] == Flatten(nf) + [s];
    }
    assert args[..|args|] == args;
    ans := buf[..cursor];
  }

  // ---------------------------------------------------------------- theorems

  /** Moving along `a + b` is moving along `a` and then along `b`. */
  lemma {:induction false} MoveConcat(dir: seq<string>, a: seq<string>, b: seq<string>)
    ensures Move(dir, a + b) ==
            match Move(dir, a) { case None => None case Some(d) => Move(d, b) }
    decreases |a|
  {
    if a == [] {
      assert a + b == b;
    } else {
      assert (a + b)[0] == a[0] && (a + b)[1..] == a[1..] + b;
      match Step(dir, a[0]) {
        case None =>
        case Some(d) => MoveConcat(d, a[1..], b);
      }
    }
  }

  /** The normal form means what the list means: it moves exactly the directories at least
      `up` deep, and moves them by dropping `up` names and appending `down`. */
  lemma {:induction false} NormMeaning(names: seq<string>, dir: seq<string>)
    ensures Move(dir, names) ==
            var nf := Norm(names);
            if |dir| < nf.up then None else Some(dir[..|dir| - nf.up] + nf.down)
    decreases |names|
  {
    if names == [] {
      assert dir[..|dir|] + [] == dir;
    } else {
      var k := |names| - 1;
      var pre, s := names[..k], names[k];
      assert names == pre + [s];
      NormMeaning(pre, dir);
      MoveConcat(dir, pre, [s]);
      var nf := Norm(pre);
      if |dir| >= nf.up {
        var d := dir[..|dir| - nf.up] + nf.down;
        assert Move(d, [s]) == Step(d, s);
        if s == ".." && nf.down != [] {
          assert d[..|d| - 1] == dir[..|dir| - nf.up] + nf.down[..|nf.down| - 1];
        } else if s == ".." && |dir| > nf.up {
          assert d[..|d| - 1] == dir[..|dir| - nf.up - 1] + [];
        } else if !Blank(s) {
          assert d + [s] == dir[..|dir| - nf.up] + (nf.down + [s]);
        }
      }
    }
  }

  lemma {:induction false} NormDownPlain(names: seq<string>)
    ensures forall s <- Norm(names).down :: Plain(s) && s in names
    decreases |names|
  {
    if names != [] {
      NormDownPlain(names[..|names| - 1]);
    }
  }

  /** A list already in canonical shape is its own normal form. */
  lemma {:induction false} NormOfCanonical(names: seq<string>, n: nat)
    requires Canonical(names, n)
    ensures Norm(names) == Normal(n, names[n..])
    decreases |names|
  {
    if names != [] {
      var k := |names| - 1;
      var pre := names[..k];
      if n == |names| {
        NormOfCanonical(pre, k);
      } else {
        NormOfCanonical(pre, n);
        assert pre[n..] + [names[k]] == names[n..];
      }
    }
  }

  /** The result of NormalizePath passes ValidPath with the returned count, and normalising
      it again changes nothing. */
  lemma NormalizeIdempotent(names: seq<string>)
    requires SepFree(names)
    ensures Canonical(Flatten(Norm(names)), Norm(names).up)
    ensures Norm(Flatten(Norm(names))) == Norm(names)
  {
    var nf := Norm(names);
    NormDownPlain(names);
    forall i | nf.up <= i < |Flatten(nf)|
      ensures Plain(Flatten(nf)[i]) && !HasSep(Flatten(nf)[i])
    {
      assert Flatten(nf)[i] == nf.down[i - nf.up];
      assert nf.down[i - nf.up] in nf.down;
    }
    NormOfCanonical(Flatten(nf), nf.up);
    assert Flatten(nf)[nf.up..] == nf.down;
  }

  /** Pops minus pushes over a list. */
  function Excess(names: seq<string>): int {
    if names == [] then 0
    else Excess(names[..|names| - 1]) +
         (var s := names[|names| - 1]; if Blank(s) then 0 else if s == ".." then 1 else -1)
  }

  /** The returned count is the greatest excess of pops over pushes across all prefixes. */
  lemma {:induction false} UpIsGreatestExcess(names: seq<string>)
    ensures forall i :: 0 <= i <= |names| ==> Excess(names[..i]) <= Norm(names).up
    ensures exists i :: 0 <= i <= |names| && Excess(names[..i]) == Norm(names).up
    ensures Excess(names) == Norm(names).up - |Norm(names).down|
    decreases |names|
  {
    assert names[..|names|] == names;
    if names == [] {
      assert Excess(names[..0]) == 0;
    } else {
      var k := |names| - 1;
      var pre := names[..k];
      UpIsGreatestExcess(pre);
      assert forall i :: 0 <= i <= k ==> pre[..i] == names[..i];
      var j :| 0 <= j <= k && Excess(pre[..j]) == Norm(pre).up;
      assert Excess(names[..j]) == Norm(pre).up;
      assert Excess(names[..k + 1]) == Excess(names);
    }
  }

  /** Equal moves of every directory at least `deep` deep. */
  ghost predicate SameMoves(a: seq<string>, b: seq<string>, deep: nat) {
    forall dir: seq<string> :: |dir| >= deep ==> Move(dir, a) == Move(dir, b)
  }

  /** Two lists have one normal form exactly when they move every deep enough directory to
      the same place, however deep "deep enough" is taken to be. */
  lemma SameNormalIffSameMoves(a: seq<string>, b: seq<string>, deep: nat)
    ensures Norm(a) == Norm(b) <==> SameMoves(a, b, deep)
  {
    if Norm(a) == Norm(b) {
      forall dir: seq<string> ensures Move(dir, a) == Move(dir, b) {
        NormMeaning(a, dir);
        NormMeaning(b, dir);
      }
    } else if SameMoves(a, b, deep) {
      if Norm(a).up <= Norm(b).up {
        MovesDetermineNormal(a, b, deep);
      } else {
        MovesDetermineNormal(b, a, deep);
      }
    }
  }

  lemma MovesDetermineNormal(a: seq<string>, b: seq<string>, deep: nat)
    requires SameMoves(a, b, deep) && Norm(a).up <= Norm(b).up
    ensures Norm(a) == Norm(b)
  {
    hide Norm, Move;
    var na, nb := Norm(a), Norm(b);
    // A directory that differs from b's first push at the place where that push would land.
    var other := if nb.down != [] && nb.down[0] == "a" then "b" else "a";
    var dir := seq(deep + nb.up, _ => other);
    NormMeaning(a, dir);
    NormMeaning(b, dir);
    if na.up < nb.up {
      SplitsDiffer(dir, na, nb, other);
    }
    var keep := dir[..|dir| - na.up];
    assert na.down == (keep + na.down)[|keep|..];
    assert nb.down == (keep + nb.down)[|keep|..];
  }

  lemma SplitsDiffer(dir: seq<string>, na: Normal, nb: Normal, other: string)
    requires forall i :: 0 <= i < |dir| ==> dir[i] == other
    requires na.up < nb.up <= |dir|
    requires nb.down != [] ==> nb.down[0] != other
    ensures dir[..|dir| - na.up] + na.down != dir[..|dir| - nb.up] + nb.down
  {
    var at := |dir| - nb.up;
    assert (dir[..|dir| - na.up] + na.down)[at] == other;
    assert nb.down != [] ==> (dir[..at] + nb.down)[at] != other;
  }

  /** Walking a valid path: the normal form of a canonical list is the list itself, so the
      movement is the plain "drop n, append the rest". */
  lemma MoveCanonical(dir: seq<string>, names: seq<string>, n: nat)
    requires Canonical(names, n) && n <= |dir|
    ensures Move(dir, names) == Some(dir[..|dir| - n] + names[n..])
  {
    NormOfCanonical(names, n);
    NormMeaning(names, dir);
  }

  lemma CanonicalUnique(names: seq<string>, m: int, n: int)
    requires Canonical(names, m) && Canonical(names, n)
    ensures m == n
  {
    NormOfCanonical(names, m);
    NormOfCanonical(names, n);
  }
}
