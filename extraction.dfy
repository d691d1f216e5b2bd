/**
 * Extraction of the (x, y) observation series from a sheet's rows: only rows
 * of exactly two cells are kept, their first cell going to x and their second
 * to y, in row order. Cells are already numbers here.
 */
module Extraction {

  /** One sheet row, as the list of its cells. */
  type Row = seq<real>

  /** A sheet, as the list of its rows (the `header: 1` array-of-arrays form). */
  type Table = seq<Row>

  /** A row that carries one observation: exactly two cells, x then y. */
  predicate IsPair(row: Row)
  {
    |row| == 2
  }

  /** The number of two-cell rows. */
  function PairCount(t: Table): nat
  {
    if |t| == 0 then 0 else PairCount(t[..|t| - 1]) + (if IsPair(t[|t| - 1]) then 1 else 0)
  }

  /** Cell `c` (0 for x, 1 for y) of every two-cell row, in row order: one
      entry per two-cell row, so the x and y series always have equal length. */
  function Column(t: Table, c: nat): (r: seq<real>)
    requires c < 2
    ensures |r| == PairCount(t)
  {
    if |t| == 0 then []
    else
      var last := t[|t| - 1];
      Column(t[..|t| - 1], c) + (if IsPair(last) then [last[c]] else [])
  }

  /** The positions of the two-cell rows, scanning the table from the top:
      one position per two-cell row, each naming a two-cell row. */
  function PairIndices(t: Table): (r: seq<nat>)
    ensures |r| == PairCount(t)
    ensures forall k :: 0 <= k < |r| ==> r[k] < |t| && IsPair(t[r[k]])
  {
    if |t| == 0 then []
    else
      var front := PairIndices(t[..|t| - 1]);
      assert forall k :: 0 <= k < |front| ==> t[..|t| - 1][front[k]] == t[front[k]];
      front + (if IsPair(t[|t| - 1]) then [|t| - 1] else [])
  }

  /** The loop of `extractXY`: start from empty series and push the two
      cells of every two-cell row. */
  method ExtractXY(data: Table) returns (x: seq<real>, y: seq<real>)
    ensures x == Column(data, 0)
    ensures y == Column(data, 1)
  {
    x, y := [], [];
    for i := 0 to |data|
      invariant x == Column(data[..i], 0)
      invariant y == Column(data[..i], 1)
    {
      var row := data[i];
      assert data[..i + 1][..i] == data[..i];
      if |row| == 2 {
        x := x + [row[0]];
        y := y + [row[1]];
      }
    }
    assert data[..|data|] == data;
  }

  // ---------------------------------------------------------------------------
  // What the extraction promises

  /** Element k of a column is cell c of the k-th two-cell row, so x[k] and
      y[k] always come from the same row and the rows keep their order. */
  lemma {:induction false} ColumnReadsPairRows(t: Table, c: nat)
    requires c < 2
    ensures |Column(t, c)| == |PairIndices(t)|
    ensures forall k :: 0 <= k < |Column(t, c)| ==> Column(t, c)[k] == t[PairIndices(t)[k]][c]
  {
    if |t| > 0 {
      var front := t[..|t| - 1];
      ColumnReadsPairRows(front, c);
      assert forall k :: 0 <= k < |PairIndices(front)| ==> front[PairIndices(front)[k]] == t[PairIndices(front)[k]];
    }
  }

  /** The positions come in increasing order, so the series keep row order. */
  lemma {:induction false} PairIndicesIncreasing(t: Table)
    ensures forall k, l :: 0 <= k < l < |PairIndices(t)| ==> PairIndices(t)[k] < PairIndices(t)[l]
  {
    if |t| > 0 {
      PairIndicesIncreasing(t[..|t| - 1]);
    }
  }

  /** Every two-cell row is read: no observation is dropped. */
  lemma {:induction false} PairIndicesComplete(t: Table)
    ensures forall i :: 0 <= i < |t| && IsPair(t[i]) ==> i in PairIndices(t)
  {
    if |t| > 0 {
      var front := t[..|t| - 1];
      PairIndicesComplete(front);
      assert forall i :: 0 <= i < |front| ==> front[i] == t[i];
    }
  }

  /** The columns of two stacked tables are the columns of each, stacked. */
  lemma {:induction false} ColumnOfConcat(t: Table, u: Table, c: nat)
    requires c < 2
    ensures Column(t + u, c) == Column(t, c) + Column(u, c)
    decreases |u|
  {
    if |u| == 0 {
      assert t + u == t;
    } else {
      var front := u[..|u| - 1];
      assert (t + u)[..|t + u| - 1] == t + front;
      ColumnOfConcat(t, front, c);
    }
  }

  /** A row with fewer or more than two cells contributes nothing, wherever it stands. */
  lemma {:induction false} MalformedRowIgnored(t: Table, row: Row, u: Table, c: nat)
    requires c < 2 && !IsPair(row)
    ensures Column(t + [row] + u, c) == Column(t + u, c)
  {
    ColumnOfConcat(t + [row], u, c);
    ColumnOfConcat(t, [row], c);
    ColumnOfConcat(t, u, c);
    assert Column([row], c) == Column([], c) + [];
  }

  /** A table with no two-cell row yields empty series. */
  lemma {:induction false} NoPairsNoPoints(t: Table, c: nat)
    requires c < 2
    requires forall i :: 0 <= i < |t| ==> !IsPair(t[i])
    ensures Column(t, c) == []
  {
    if |t| > 0 {
      var front := t[..|t| - 1];
      assert forall i :: 0 <= i < |front| ==> front[i] == t[i];
      NoPairsNoPoints(front, c);
    }
  }

  /** The rows [1, 2], [3], [4, 5, 6], [7, 8] give x = [1, 7] and y = [2, 8]. */
  lemma {:induction false} MixedRowsExample()
    ensures Column([[1.0, 2.0], [3.0], [4.0, 5.0, 6.0], [7.0, 8.0]], 0) == [1.0, 7.0]
    ensures Column([[1.0, 2.0], [3.0], [4.0, 5.0, 6.0], [7.0, 8.0]], 1) == [2.0, 8.0]
  {
    var t: Table := [[1.0, 2.0], [3.0], [4.0, 5.0, 6.0], [7.0, 8.0]];
    ColumnOfConcat([[1.0, 2.0]], [[3.0], [4.0, 5.0, 6.0], [7.0, 8.0]], 0);
    ColumnOfConcat([[1.0, 2.0]], [[3.0], [4.0, 5.0, 6.0], [7.0, 8.0]], 1);
    assert t == [[1.0, 2.0]] + [[3.0], [4.0, 5.0, 6.0], [7.0, 8.0]];
    MalformedRowIgnored([], [3.0], [[4.0, 5.0, 6.0], [7.0, 8.0]], 0);
    MalformedRowIgnored([], [3.0], [[4.0, 5.0, 6.0], [7.0, 8.0]], 1);
    MalformedRowIgnored([], [4.0, 5.0, 6.0], [[7.0, 8.0]], 0);
    MalformedRowIgnored([], [4.0, 5.0, 6.0], [[7.0, 8.0]], 1);
    assert [] + [[3.0]] + [[4.0, 5.0, 6.0], [7.0, 8.0]] == [[3.0], [4.0, 5.0, 6.0], [7.0, 8.0]];
    assert [] + [[4.0, 5.0, 6.0]] + [[7.0, 8.0]] == [[4.0, 5.0, 6.0], [7.0, 8.0]];
    assert [] + [[4.0, 5.0, 6.0], [7.0, 8.0]] == [[4.0, 5.0, 6.0], [7.0, 8.0]];
    assert [[7.0, 8.0]][..0] == [];
    assert [[1.0, 2.0]][..0] == [];
  }
}
