/**
 * Mirror images and quarter turns of a grid (`np.flipud`, `np.fliplr`,
 * `np.rot90`). A quarter turn is counterclockwise: the last column becomes
 * the first row.
 */
module Symmetry {
  import opened Arguments

  /** `flip_up_down`. */
  function FlipUpDown(g: Grid): (r: Grid)
    requires Rect(g)
    ensures Rect(r) && Shape(r) == Shape(g)
    ensures forall i :: 0 <= i < |g| ==> r[i] == g[|g| - 1 - i]
  {
    seq(|g|, i requires 0 <= i < |g| => g[|g| - 1 - i])
  }

  /** `flip_left_right`. */
  function FlipLeftRight(g: Grid): (r: Grid)
    requires Rect(g)
    ensures Rect(r) && Shape(r) == Shape(g)
    ensures forall i, j :: 0 <= i < |g| && 0 <= j < Width(g) ==> r[i][j] == g[i][Width(g) - 1 - j]
  {
    seq(|g|, i requires 0 <= i < |g| => seq(|g[i]|, j requires 0 <= j < |g[i]| => g[i][|g[i]| - 1 - j]))
  }

  /**
   * One counterclockwise quarter turn: an H x W grid becomes W x H with
   * `r[i][j] == g[j][W - 1 - i]`.
   */
  function Rotate90(g: Grid): (r: Grid)
    requires Rect(g)
    ensures Rect(r) && |r| == Width(g)
    ensures forall i :: 0 <= i < |r| ==> |r[i]| == Height(g)
    ensures forall i, j :: 0 <= i < Width(g) && 0 <= j < Height(g) ==> r[i][j] == g[j][Width(g) - 1 - i]
  {
    var w := Width(g);
    seq(w, i requires 0 <= i < w => seq(|g|, j requires 0 <= j < |g| => g[j][w - 1 - i]))
  }

  /** `rotate(grid, num_times)`: numpy reduces the count modulo 4 (a negative count turns clockwise). */
  function Rotate(g: Grid, times: int): (r: Grid)
    requires Rect(g)
    ensures Rect(r)
  {
    Turns(g, times % 4)
  }

  function Turns(g: Grid, n: nat): (r: Grid)
    requires Rect(g)
    ensures Rect(r)
    decreases n
  {
    if n == 0 then g else Turns(Rotate90(g), n - 1)
  }

  lemma SameGrid(x: Grid, y: Grid)
    requires Rect(x) && Rect(y) && Shape(x) == Shape(y)
    requires forall i, j :: 0 <= i < Height(x) && 0 <= j < Width(x) ==> x[i][j] == y[i][j]
    ensures x == y
  {
    GridEquality(x, y);
  }

  /** Flipping up-down twice restores the grid. */
  lemma FlipUpDownInvolution(g: Grid)
    requires Rect(g)
    ensures FlipUpDown(FlipUpDown(g)) == g
  {
    SameGrid(FlipUpDown(FlipUpDown(g)), g);
  }

  /** Flipping left-right twice restores the grid. */
  lemma FlipLeftRightInvolution(g: Grid)
    requires Rect(g)
    ensures FlipLeftRight(FlipLeftRight(g)) == g
  {
    SameGrid(FlipLeftRight(FlipLeftRight(g)), g);
  }

  /** Two quarter turns are the half turn: both flips together. */
  lemma HalfTurn(g: Grid)
    requires Proper(g)
    ensures Rotate90(Rotate90(g)) == FlipUpDown(FlipLeftRight(g))
  {
    var r := Rotate90(g);
    var rr := Rotate90(r);
    var f := FlipUpDown(FlipLeftRight(g));
    assert Width(r) == Height(g);
    assert Shape(rr) == Shape(g);
    forall i, j | 0 <= i < Height(g) && 0 <= j < Width(g)
      ensures rr[i][j] == f[i][j]
    {
      assert rr[i][j] == r[j][Height(g) - 1 - i];
    }
    SameGrid(rr, f);
  }

  /** The half turn is its own inverse. */
  lemma HalfTurnInvolution(g: Grid)
    requires Proper(g)
    ensures FlipUpDown(FlipLeftRight(FlipUpDown(FlipLeftRight(g)))) == g
  {
    var f := FlipUpDown(FlipLeftRight(g));
    var ff := FlipUpDown(FlipLeftRight(f));
    forall i, j | 0 <= i < Height(g) && 0 <= j < Width(g)
      ensures ff[i][j] == g[i][j]
    {
    }
    SameGrid(ff, g);
  }

  /** A grid with at least one row and column keeps that property under a turn. */
  lemma Rotate90Proper(g: Grid)
    requires Proper(g)
    ensures Proper(Rotate90(g)) && Shape(Rotate90(g)) == (Width(g), Height(g))
  {
  }

  /** Four quarter turns are the identity. */
  lemma FourTurns(g: Grid)
    requires Proper(g)
    ensures Turns(g, 4) == g
  {
    var r2 := Rotate90(Rotate90(g));
    Rotate90Proper(g);
    Rotate90Proper(Rotate90(g));
    HalfTurn(g);
    HalfTurn(r2);
    HalfTurnInvolution(g);
    assert Turns(g, 4) == Turns(r2, 2);
  }

  lemma {:induction false} TurnsAdd(g: Grid, m: nat, n: nat)
    requires Rect(g)
    ensures Turns(Turns(g, m), n) == Turns(g, m + n)
    decreases m
  {
    if m > 0 {
      TurnsAdd(Rotate90(g), m - 1, n);
    }
  }

  lemma {:induction false} TurnsPlusFour(g: Grid, n: nat)
    requires Proper(g)
    ensures Turns(g, n + 4) == Turns(g, n)
    decreases n
  {
    if n == 0 {
      FourTurns(g);
    } else {
      Rotate90Proper(g);
      TurnsPlusFour(Rotate90(g), n - 1);
    }
  }

  lemma {:induction false} TurnsMod(g: Grid, n: nat)
    requires Proper(g)
    ensures Turns(g, n) == Turns(g, n % 4)
    decreases n
  {
    if n >= 4 {
      TurnsPlusFour(g, n - 4);
      TurnsMod(g, n - 4);
    }
  }

  /** Turning by `a` and then by `b` is turning by `a + b`; in particular four single turns restore the grid. */
  lemma RotateCompose(g: Grid, a: int, b: int)
    requires Proper(g)
    ensures Proper(Rotate(g, a))
    ensures Rotate(Rotate(g, a), b) == Rotate(g, a + b)
  {
    var x, y := a % 4, b % 4;
    assert Rotate(g, a) == Turns(g, x);
    TurnsShape(g, x);
    assert Rotate(Rotate(g, a), b) == Turns(Turns(g, x), y);
    TurnsAdd(g, x, y);
    TurnsMod(g, x + y);
    ModSum(a, b);
    assert Turns(g, (x + y) % 4) == Rotate(g, a + b);
  }

  lemma ModSum(a: int, b: int)
    ensures (a % 4 + b % 4) % 4 == (a + b) % 4
  {
    var qa, qb := a / 4, b / 4;
    assert a == 4 * qa + a % 4;
    assert b == 4 * qb + b % 4;
    assert a + b == 4 * (qa + qb) + (a % 4 + b % 4);
  }

  /** Rotating four times by one is the identity. */
  lemma RotateFour(g: Grid)
    requires Proper(g)
    ensures Rotate(Rotate(Rotate(Rotate(g, 1), 1), 1), 1) == g
  {
    RotateCompose(g, 1, 1);
    RotateCompose(g, 2, 1);
    RotateCompose(g, 3, 1);
    FourTurns(g);
  }

  /** An odd number of turns swaps height and width; an even number keeps them. */
  lemma {:induction false} TurnsShape(g: Grid, n: nat)
    requires Proper(g)
    ensures Proper(Turns(g, n))
    ensures Shape(Turns(g, n)) == if n % 2 == 1 then (Width(g), Height(g)) else Shape(g)
    decreases n
  {
    if n > 0 {
      Rotate90Proper(g);
      TurnsShape(Rotate90(g), n - 1);
    }
  }

  /** `rotate(grid, k)` with an odd `k` swaps height and width. */
  lemma RotateShape(g: Grid, times: int)
    requires Proper(g)
    ensures Shape(Rotate(g, times)) == if times % 2 != 0 then (Width(g), Height(g)) else Shape(g)
  {
    TurnsShape(g, times % 4);
  }
}
