/** Quarter turns of a single 3x3 face grid (`cube/movements.py`). Each returns a new grid. */
module Movements {
  import opened Facelets

  /** `rotate_face_clockwise`: row `j` of the result is column `j` read bottom to top,
      so the sticker at `(i, j)` moves to `(j, 2 - i)`. */
  function RotateClockwise(g: Grid): (r: Grid)
    ensures forall i: Index, j: Index :: r[j][2 - i] == g[i][j]
  {
    seq(3, j requires 0 <= j < 3 => seq(3, i requires 0 <= i < 3 => g[2 - i][j]))
  }

  /** `rotate_face_counter_clockwise`: the sticker at `(i, j)` moves to `(2 - j, i)`. */
  function RotateCounterClockwise(g: Grid): (r: Grid)
    ensures forall i: Index, j: Index :: r[2 - j][i] == g[i][j]
  {
    seq(3, j requires 0 <= j < 3 => seq(3, i requires 0 <= i < 3 => g[i][2 - j]))
  }

  /** `rotate_face_grid`: clockwise unless `clockwise` is false. */
  function RotateFaceGrid(g: Grid, clockwise: bool): (r: Grid)
    ensures clockwise ==> forall i: Index, j: Index :: r[j][2 - i] == g[i][j]
    ensures !clockwise ==> forall i: Index, j: Index :: r[2 - j][i] == g[i][j]
  {
    if clockwise then RotateClockwise(g) else RotateCounterClockwise(g)
  }

  /** Where each cell of a turned grid comes from: `grid[2 - c][r]` clockwise, `grid[c][2 - r]`
      counter-clockwise. */
  lemma RotateFaceGridAt(g: Grid, clockwise: bool, r: Index, k: Index)
    ensures RotateFaceGrid(g, clockwise)[r][k] == if clockwise then g[2 - k][r] else g[k][2 - r]
  {
  }

  /** A counter-clockwise turn undoes a clockwise one, and the other way round. */
  lemma RotationsAreInverse(g: Grid)
    ensures RotateCounterClockwise(RotateClockwise(g)) == g
    ensures RotateClockwise(RotateCounterClockwise(g)) == g
  {
    var a := RotateCounterClockwise(RotateClockwise(g));
    forall i: Index, j: Index
      ensures a[i][j] == g[i][j]
    {
      assert RotateClockwise(g)[j][2 - i] == g[i][j];
    }
    GridExt(a, g);
    var b := RotateClockwise(RotateCounterClockwise(g));
    forall i: Index, j: Index
      ensures b[i][j] == g[i][j]
    {
      assert RotateCounterClockwise(g)[2 - j][i] == g[i][j];
    }
    GridExt(b, g);
  }

  /** `rotate_face_grid` with the opposite direction undoes a turn. */
  lemma RotateFaceGridInverse(g: Grid, clockwise: bool)
    ensures RotateFaceGrid(RotateFaceGrid(g, clockwise), !clockwise) == g
  {
    RotationsAreInverse(g);
  }

  /** Two clockwise turns equal two counter-clockwise turns: a half turn. */
  lemma HalfTurnEitherWay(g: Grid)
    ensures RotateClockwise(RotateClockwise(g)) == RotateCounterClockwise(RotateCounterClockwise(g))
  {
    var a := RotateClockwise(RotateClockwise(g));
    var b := RotateCounterClockwise(RotateCounterClockwise(g));
    forall i: Index, j: Index
      ensures a[i][j] == b[i][j]
    {
      assert RotateClockwise(g)[j][2 - i] == g[i][j];
      assert a[2 - i][2 - j] == g[i][j];
      assert RotateCounterClockwise(g)[2 - j][i] == g[i][j];
      assert b[2 - i][2 - j] == g[i][j];
    }
    GridExt(a, b);
  }

  /** Four quarter turns in the same direction give back the grid. */
  lemma FourQuarterTurns(g: Grid, clockwise: bool)
    ensures RotateFaceGrid(RotateFaceGrid(RotateFaceGrid(RotateFaceGrid(g, clockwise), clockwise), clockwise), clockwise) == g
  {
    var h := RotateFaceGrid(RotateFaceGrid(g, clockwise), clockwise);
    HalfTurnEitherWay(g);
    HalfTurnEitherWay(h);
    RotationsAreInverse(g);
    RotationsAreInverse(RotateClockwise(g));
    RotationsAreInverse(h);
    RotationsAreInverse(RotateClockwise(h));
    assert RotateFaceGrid(RotateFaceGrid(h, clockwise), clockwise)
        == RotateFaceGrid(RotateFaceGrid(h, !clockwise), !clockwise);
    assert RotateFaceGrid(h, !clockwise) == RotateFaceGrid(g, clockwise);
  }

  /** A row's bag is the sum of its three single stickers. */
  lemma RowBag(row: seq<Cell>)
    requires |row| == 3
    ensures multiset(row) == multiset{row[0]} + multiset{row[1]} + multiset{row[2]}
  {
    assert row == [row[0]] + [row[1]] + [row[2]];
  }

  /** A grid's bag is the sum of its nine single stickers. */
  lemma GridBagCellwise(g: Grid)
    ensures GridBag(g) == multiset{g[0][0]} + multiset{g[0][1]} + multiset{g[0][2]}
                          + multiset{g[1][0]} + multiset{g[1][1]} + multiset{g[1][2]}
                          + multiset{g[2][0]} + multiset{g[2][1]} + multiset{g[2][2]}
  {
    RowBag(g[0]);
    RowBag(g[1]);
    RowBag(g[2]);
  }

  /** A turn keeps the centre sticker and moves the other eight among themselves. */
  lemma RotationPermutes(g: Grid, clockwise: bool)
    ensures RotateFaceGrid(g, clockwise)[1][1] == g[1][1]
    ensures GridBag(RotateFaceGrid(g, clockwise)) == GridBag(g)
  {
    var r := RotateFaceGrid(g, clockwise);
    GridBagCellwise(g);
    GridBagCellwise(r);
    if clockwise {
      assert r[0][0] == g[2][0] && r[0][1] == g[1][0] && r[0][2] == g[0][0];
      assert r[1][0] == g[2][1] && r[1][1] == g[1][1] && r[1][2] == g[0][1];
      assert r[2][0] == g[2][2] && r[2][1] == g[1][2] && r[2][2] == g[0][2];
    } else {
      assert r[0][0] == g[0][2] && r[0][1] == g[1][2] && r[0][2] == g[2][2];
      assert r[1][0] == g[0][1] && r[1][1] == g[1][1] && r[1][2] == g[2][1];
      assert r[2][0] == g[0][0] && r[2][1] == g[1][0] && r[2][2] == g[2][0];
    }
  }
}
