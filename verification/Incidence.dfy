/** Counting who points at a node.  A table maps each owner to a row of slots, each slot
    holding one node.  Directory links (directory -> name -> child) and handles
    (handle -> position -> node) are both tables, so one theory counts both. */
module Incidence {
  import opened Common

  type Table<!P, !S, N> = map<P, map<S, N>>

  /** The slots of one row that hold `n`. */
  ghost function RowSlots<S, N>(row: map<S, N>, n: N): set<S> {
    set s | s in row && row[s] == n
  }

  /** The cells of a table that hold `n`. */
  ghost function Cells<P, S, N>(t: Table<P, S, N>, n: N): set<(P, S)> {
    set p, s | p in t && s in t[p] && t[p][s] == n :: (p, s)
  }

  ghost function RowCount<S, N>(row: map<S, N>, n: N): nat {
    |RowSlots(row, n)|
  }

  ghost function Count<P, S, N>(t: Table<P, S, N>, n: N): nat {
    |Cells(t, n)|
  }

  ghost function RowCells<P, S>(p: P, slots: set<S>): set<(P, S)> {
    set s | s in slots :: (p, s)
  }

  lemma {:induction false} RowCellsSize<P, S>(p: P, slots: set<S>)
    ensures |RowCells(p, slots)| == |slots|
  {
    if slots != {} {
      var s :| s in slots;
      RowCellsSize(p, slots - {s});
      assert RowCells(p, slots) == RowCells(p, slots - {s}) + {(p, s)};
    }
  }

  /** A row contributes its own slots. */
  lemma CountRow<P, S, N>(t: Table<P, S, N>, p: P, n: N)
    requires p in t
    ensures Count(t, n) == Count(t - {p}, n) + RowCount(t[p], n)
  {
    CellsSplit(t, p, n);
    hide Cells, RowCells, RowSlots;
    RowCellsSize(p, RowSlots(t[p], n));
  }

  lemma CellsSplit<P, S, N>(t: Table<P, S, N>, p: P, n: N)
    requires p in t
    ensures Cells(t, n) == Cells(t - {p}, n) + RowCells(p, RowSlots(t[p], n))
    ensures Cells(t - {p}, n) !! RowCells(p, RowSlots(t[p], n))
  {
    var rest, mine := Cells(t - {p}, n), RowCells(p, RowSlots(t[p], n));
    forall c | c in Cells(t, n) ensures c in rest + mine {
      if c.0 == p {
        assert c.1 in RowSlots(t[p], n);
      }
    }
    forall c | c in rest + mine ensures c in Cells(t, n) {
    }
  }

  lemma RowEmpty<S, N>(n: N)
    ensures RowCount<S, N>(map[], n) == 0
  {
  }

  /** Filling an empty slot adds one holder of the node put there. */
  lemma RowCountAdd<S, N>(row: map<S, N>, s: S, c: N, n: N)
    requires s !in row
    ensures RowCount(row[s := c], n) == RowCount(row, n) + if n == c then 1 else 0
  {
    if n == c {
      assert RowSlots(row[s := c], n) == RowSlots(row, n) + {s};
    } else {
      assert RowSlots(row[s := c], n) == RowSlots(row, n);
    }
  }

  lemma RowCountDrop<S, N>(row: map<S, N>, s: S, n: N)
    requires s in row
    ensures RowCount(row, n) == RowCount(row - {s}, n) + if n == row[s] then 1 else 0
  {
    RowCountAdd(row - {s}, s, row[s], n);
    assert (row - {s})[s := row[s]] == row;
  }

  /** Replacing a row changes the count by the difference of the two rows. */
  lemma CountSetRow<P, S, N>(t: Table<P, S, N>, p: P, row: map<S, N>, n: N)
    ensures Count(t[p := row], n) == Count(t - {p}, n) + RowCount(row, n)
  {
    CountRow(t[p := row], p, n);
    assert t[p := row] - {p} == t - {p};
  }

  /** A sequence as a row: position -> node. */
  ghost function Row<N>(c: seq<N>): map<int, N> {
    map i | 0 <= i < |c| :: c[i]
  }

  lemma RowOfPush<N>(c: seq<N>, x: N, n: N)
    ensures RowCount(Row(c + [x]), n) == RowCount(Row(c), n) + if n == x then 1 else 0
  {
    RowCountAdd(Row(c), |c|, x, n);
    assert Row(c + [x]) == Row(c)[|c| := x];
  }

  /** Fewer cells hold a node in a smaller table. */
  lemma CountMono<P, S, N>(t: Table<P, S, N>, u: Table<P, S, N>, n: N)
    requires forall p :: p in t ==> p in u && t[p] == u[p]
    ensures Count(t, n) <= Count(u, n)
  {
    CardMono(Cells(t, n), Cells(u, n));
  }

  lemma CountPositive<P, S, N>(t: Table<P, S, N>, p: P, s: S, n: N)
    requires p in t && s in t[p] && t[p][s] == n
    ensures Count(t, n) > 0
  {
    assert (p, s) in Cells(t, n);
  }
}
