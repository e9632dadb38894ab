/**
 * Colour replacement. Both operations copy the grid into a fresh buffer and
 * then assign the cells selected by a mask of the ORIGINAL grid in place.
 */
module Color {
  import opened Arguments

  function SwitchCell(x: int, a: int, b: int): int {
    if x == a then b else if x == b then a else x
  }

  function MapCell(x: int, from: int, to: int): int {
    if x == from then to else x
  }

  /** The grid with every `a` turned into `b` and every `b` into `a`. */
  function Switched(g: Grid, a: int, b: int): (r: Grid)
    requires Rect(g)
    ensures Rect(r) && Shape(r) == Shape(g)
  {
    seq(|g|, i requires 0 <= i < |g| => seq(|g[i]|, j requires 0 <= j < |g[i]| => SwitchCell(g[i][j], a, b)))
  }

  /** The grid with every `from` turned into `to`. */
  function Mapped(g: Grid, from: int, to: int): (r: Grid)
    requires Rect(g)
    ensures Rect(r) && Shape(r) == Shape(g)
  {
    seq(|g|, i requires 0 <= i < |g| => seq(|g[i]|, j requires 0 <= j < |g[i]| => MapCell(g[i][j], from, to)))
  }

  function Contents(m: array2<int>): (g: Grid)
    reads m
    ensures Rect(g) && Height(g) == m.Length0 && (m.Length0 > 0 ==> Width(g) == m.Length1)
  {
    seq(m.Length0, i requires 0 <= i < m.Length0 reads m => seq(m.Length1, j requires 0 <= j < m.Length1 reads m => m[i, j]))
  }

  /** `grid.copy()`: a fresh buffer holding the grid's cells. */
  method Copy(g: Grid) returns (m: array2<int>)
    requires Rect(g)
    ensures fresh(m) && m.Length0 == Height(g) && m.Length1 == Width(g)
    ensures forall i, j :: 0 <= i < m.Length0 && 0 <= j < m.Length1 ==> m[i, j] == g[i][j]
  {
    m := new int[Height(g), Width(g)]((i, j) requires 0 <= i < Height(g) && 0 <= j < Width(g) => g[i][j]);
  }

  /** `state[grid.state == sel] = val`: every cell whose ORIGINAL colour is `sel` becomes `val`. */
  method AssignWhere(m: array2<int>, g: Grid, sel: int, val: int)
    requires Rect(g) && m.Length0 == Height(g) && m.Length1 == Width(g)
    modifies m
    ensures forall i, j :: 0 <= i < m.Length0 && 0 <= j < m.Length1 ==>
      m[i, j] == (if g[i][j] == sel then val else old(m[i, j]))
  {
    var i := 0;
    while i < m.Length0
      invariant 0 <= i <= m.Length0
      invariant forall a, b :: 0 <= a < m.Length0 && 0 <= b < m.Length1 ==>
        m[a, b] == (if a < i && g[a][b] == sel then val else old(m[a, b]))
    {
      var j := 0;
      while j < m.Length1
        invariant 0 <= j <= m.Length1
        invariant forall a, b :: 0 <= a < m.Length0 && 0 <= b < m.Length1 ==>
          m[a, b] == (if (a < i || (a == i && b < j)) && g[a][b] == sel then val else old(m[a, b]))
      {
        if g[i][j] == sel {
          m[i, j] := val;
        }
        j := j + 1;
      }
      i := i + 1;
    }
  }

  lemma ContentsEqual(m: array2<int>, g: Grid)
    requires Rect(g) && m.Length0 == Height(g) && m.Length1 == Width(g)
    requires forall i, j :: 0 <= i < m.Length0 && 0 <= j < m.Length1 ==> m[i, j] == g[i][j]
    ensures Contents(m) == g
  {
    var c := Contents(m);
    forall i | 0 <= i < |g| ensures c[i] == g[i] {
      assert |c[i]| == |g[i]|;
    }
  }

  /** `switch_color(grid, a, b)`: the two masks are taken from the original grid, so the colours are exchanged. */
  method SwitchColor(g: Grid, a: int, b: int) returns (r: Grid)
    requires Rect(g)
    ensures r == Switched(g, a, b)
  {
    var m := Copy(g);
    AssignWhere(m, g, a, b);
    AssignWhere(m, g, b, a);
    ContentsEqual(m, Switched(g, a, b));
    r := Contents(m);
  }

  /** `map_color(grid, from_, to)`: the mask is taken from the copy before any assignment. */
  method MapColor(g: Grid, from: int, to: int) returns (r: Grid)
    requires Rect(g)
    ensures r == Mapped(g, from, to)
  {
    var m := Copy(g);
    ContentsEqual(m, g);
    AssignWhere(m, Contents(m), from, to);
    ContentsEqual(m, Mapped(g, from, to));
    r := Contents(m);
  }

  // ---- properties of the specification ----

  /** Switching twice with the same pair restores the grid. */
  lemma SwitchInvolution(g: Grid, a: int, b: int)
    requires Rect(g)
    ensures Switched(Switched(g, a, b), a, b) == g
  {
    var s := Switched(Switched(g, a, b), a, b);
    forall i | 0 <= i < |g| ensures s[i] == g[i] {
      assert |s[i]| == |g[i]|;
    }
  }

  /** The order of the pair does not matter. */
  lemma SwitchSymmetric(g: Grid, a: int, b: int)
    requires Rect(g)
    ensures Switched(g, a, b) == Switched(g, b, a)
  {
    var s, t := Switched(g, a, b), Switched(g, b, a);
    forall i | 0 <= i < |g| ensures s[i] == t[i] {
      assert |s[i]| == |t[i]|;
    }
  }

  /** Switching exchanges exactly the two colours: `a` occurs afterwards iff `b` occurred before, and the other colours are kept. */
  lemma SwitchColors(g: Grid, a: int, b: int, c: int)
    requires Rect(g)
    ensures Occurs(Switched(g, a, b), c) <==> Occurs(g, SwitchCell(c, a, b))
  {
    var s := Switched(g, a, b);
    if Occurs(s, c) {
      var i, j :| 0 <= i < |s| && 0 <= j < |s[i]| && s[i][j] == c;
      assert g[i][j] == SwitchCell(c, a, b);
    }
    if Occurs(g, SwitchCell(c, a, b)) {
      var i, j :| 0 <= i < |g| && 0 <= j < |g[i]| && g[i][j] == SwitchCell(c, a, b);
      assert s[i][j] == c;
    }
  }

  /** Mapping is idempotent. */
  lemma MapIdempotent(g: Grid, from: int, to: int)
    requires Rect(g)
    ensures Mapped(Mapped(g, from, to), from, to) == Mapped(g, from, to)
  {
    var s, t := Mapped(Mapped(g, from, to), from, to), Mapped(g, from, to);
    forall i | 0 <= i < |g| ensures s[i] == t[i] {
      assert |s[i]| == |t[i]|;
    }
  }

  /** After mapping, the source colour is gone (unless it is also the destination) and no colour but `to` is new. */
  lemma MapColors(g: Grid, from: int, to: int, c: int)
    requires Rect(g)
    ensures from != to ==> !Occurs(Mapped(g, from, to), from)
    ensures c != to && Occurs(Mapped(g, from, to), c) ==> Occurs(g, c)
  {
    var s := Mapped(g, from, to);
    if c != to && Occurs(s, c) {
      var i, j :| 0 <= i < |s| && 0 <= j < |s[i]| && s[i][j] == c;
      assert g[i][j] == c;
    }
  }
}
