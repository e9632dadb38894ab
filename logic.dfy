/**
 * Cell-wise logic on two grids of the same shape (`equal_and`, `equal_or`,
 * `xor`). A cell rule that raises makes the whole operation return None, and
 * so does an operand pair with different shapes.
 */
module Logic {
  import opened Wrappers
  import opened Arguments

  /** `_eand`: 0 wins; equal colours stay; two different colours raise. */
  function AndCell(a: int, b: int): Option<int> {
    if a == 0 then Some(0)
    else if b == 0 then Some(0)
    else if a == b then Some(a)
    else None
  }

  /** `_eor`: the non-zero colour wins; equal colours stay; two different colours raise. */
  function OrCell(a: int, b: int): Option<int> {
    if a == 0 then Some(b)
    else if b == 0 then Some(a)
    else if a == b then Some(a)
    else None
  }

  /** `_xor`: the colour of the only non-zero cell, else 0; never raises. */
  function XorCell(a: int, b: int): Option<int> {
    Some(if a == 0 then b else if b == 0 then a else 0)
  }

  predicate Defined(a: Grid, b: Grid, f: (int, int) -> Option<int>)
    requires Rect(a) && Rect(b) && Shape(a) == Shape(b)
  {
    forall i, j :: 0 <= i < Height(a) && 0 <= j < Width(a) ==> f(a[i][j], b[i][j]).Some?
  }

  /**
   * `np.vectorize(f)(a, b)` inside `try`: None when a cell raises, and also on
   * size-0 operands, for which numpy's vectorize raises `ValueError` before
   * calling the rule.
   */
  function CellWise(a: Grid, b: Grid, f: (int, int) -> Option<int>): (r: Option<Grid>)
    requires Rect(a) && Rect(b) && Shape(a) == Shape(b)
    ensures r.Some? <==> Height(a) > 0 && Width(a) > 0 && Defined(a, b, f)
    ensures r.Some? ==> Rect(r.value) && Shape(r.value) == Shape(a)
    ensures r.Some? ==> forall i, j :: 0 <= i < Height(a) && 0 <= j < Width(a) ==> f(a[i][j], b[i][j]) == Some(r.value[i][j])
  {
    if Height(a) == 0 || Width(a) == 0 || !Defined(a, b, f) then None
    else Some(seq(|a|, i requires 0 <= i < |a| => seq(|a[0]|, j requires 0 <= j < |a[0]| => f(a[i][j], b[i][j]).value)))
  }

  /** Operands with different shapes give None; otherwise the cell rule decides. */
  function Combine(a: Grid, b: Grid, f: (int, int) -> Option<int>): (r: Option<Grid>)
    requires Rect(a) && Rect(b)
    ensures Shape(a) != Shape(b) ==> r.None?
    ensures r.Some? ==> Rect(r.value) && Shape(r.value) == Shape(a) == Shape(b)
  {
    if Shape(a) != Shape(b) then None else CellWise(a, b, f)
  }

  /** `elementwise_equal_and`. */
  function EqualAnd(a: Grid, b: Grid): (r: Option<Grid>)
    requires Rect(a) && Rect(b)
    ensures Shape(a) != Shape(b) ==> r.None?
    ensures Shape(a) == Shape(b) && Height(a) > 0 && Width(a) > 0 ==>
      (r.None? <==> exists i, j :: 0 <= i < Height(a) && 0 <= j < Width(a) && a[i][j] != 0 && b[i][j] != 0 && a[i][j] != b[i][j])
    ensures r.Some? ==> Rect(r.value) && Shape(r.value) == Shape(a)
    ensures r.Some? ==> forall i, j :: 0 <= i < Height(a) && 0 <= j < Width(a) ==>
      r.value[i][j] == (if a[i][j] == 0 || b[i][j] == 0 then 0 else a[i][j])
  {
    Combine(a, b, AndCell)
  }

  /** `elementwise_equal_or`. */
  function EqualOr(a: Grid, b: Grid): (r: Option<Grid>)
    requires Rect(a) && Rect(b)
    ensures Shape(a) != Shape(b) ==> r.None?
    ensures Shape(a) == Shape(b) && Height(a) > 0 && Width(a) > 0 ==>
      (r.None? <==> exists i, j :: 0 <= i < Height(a) && 0 <= j < Width(a) && a[i][j] != 0 && b[i][j] != 0 && a[i][j] != b[i][j])
    ensures r.Some? ==> Rect(r.value) && Shape(r.value) == Shape(a)
    ensures r.Some? ==> forall i, j :: 0 <= i < Height(a) && 0 <= j < Width(a) ==>
      r.value[i][j] == (if a[i][j] == 0 then b[i][j] else a[i][j])
  {
    Combine(a, b, OrCell)
  }

  /** `elementwise_xor`: defined on every pair of same-shaped, non-empty grids. */
  function Xor(a: Grid, b: Grid): (r: Option<Grid>)
    requires Rect(a) && Rect(b)
    ensures r.Some? <==> Shape(a) == Shape(b) && Height(a) > 0 && Width(a) > 0
    ensures r.Some? ==> Rect(r.value) && Shape(r.value) == Shape(a)
    ensures r.Some? ==> forall i, j :: 0 <= i < Height(a) && 0 <= j < Width(a) ==>
      r.value[i][j] == (if a[i][j] == 0 then b[i][j] else if b[i][j] == 0 then a[i][j] else 0)
  {
    Combine(a, b, XorCell)
  }

  /** All three operations are symmetric in their operands. */
  lemma Symmetric(a: Grid, b: Grid)
    requires Rect(a) && Rect(b)
    ensures EqualAnd(a, b) == EqualAnd(b, a)
    ensures EqualOr(a, b) == EqualOr(b, a)
    ensures Xor(a, b) == Xor(b, a)
  {
    if Shape(a) == Shape(b) {
      CellWiseSymmetric(a, b, AndCell);
      CellWiseSymmetric(a, b, OrCell);
      CellWiseSymmetric(a, b, XorCell);
    }
  }

  lemma CellWiseSymmetric(a: Grid, b: Grid, f: (int, int) -> Option<int>)
    requires Rect(a) && Rect(b) && Shape(a) == Shape(b)
    requires forall x, y :: f(x, y) == f(y, x)
    ensures CellWise(a, b, f) == CellWise(b, a, f)
  {
    forall i, j | 0 <= i < Height(a) && 0 <= j < Width(a)
      ensures f(a[i][j], b[i][j]) == f(b[i][j], a[i][j])
    {
      var x, y := a[i][j], b[i][j];
      assert f(x, y) == f(y, x);
    }
    assert Defined(a, b, f) <==> Defined(b, a, f);
    if CellWise(a, b, f).Some? {
      var x, y := CellWise(a, b, f).value, CellWise(b, a, f).value;
      forall i, j | 0 <= i < Height(a) && 0 <= j < Width(a)
        ensures x[i][j] == y[i][j]
      {
        assert f(a[i][j], b[i][j]) == Some(x[i][j]);
        assert f(b[i][j], a[i][j]) == Some(y[i][j]);
      }
      SameCells(x, y, Height(a), Width(a));
    }
  }

  lemma SameCells(x: Grid, y: Grid, rows: nat, cols: nat)
    requires Rect(x) && Rect(y) && Shape(x) == Shape(y) == (rows, cols)
    requires forall i, j :: 0 <= i < rows && 0 <= j < cols ==> x[i][j] == y[i][j]
    ensures x == y
  {
    GridEquality(x, y);
  }

  /**
   * Where both `equal_and` and `equal_or` succeed, `xor` is `equal_or` on the
   * cells `equal_and` clears and 0 on the cells it keeps.
   */
  lemma XorFromAndOr(a: Grid, b: Grid)
    requires Rect(a) && Rect(b)
    requires EqualAnd(a, b).Some? && EqualOr(a, b).Some?
    ensures Xor(a, b).Some?
    ensures forall i, j :: 0 <= i < Height(a) && 0 <= j < Width(a) ==>
      Xor(a, b).value[i][j] == (if EqualAnd(a, b).value[i][j] == 0 then EqualOr(a, b).value[i][j] else 0)
  {
  }
}
