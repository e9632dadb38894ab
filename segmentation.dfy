/**
 * Segmentation of a grid into crops: one crop per 8-connected island of
 * non-ignored cells, or one crop per colour. A crop is the part of the grid
 * inside the bounding box of a set of cells (`grid[top:bottom, left:right]`).
 */
module Segmentation {
  import opened Arguments
  import opened Selection

  /** A half-open box: rows `top .. bottom - 1`, columns `left .. right - 1`. */
  datatype Box = Box(top: int, bottom: int, left: int, right: int)

  /** `b` is the tightest box around `cells`: every cell is inside and every side touches a cell. */
  ghost predicate IsBox(cells: set<Cell>, b: Box) {
    && (forall c :: c in cells ==> b.top <= c.0 < b.bottom && b.left <= c.1 < b.right)
    && (exists c :: c in cells && c.0 == b.top)
    && (exists c :: c in cells && c.0 == b.bottom - 1)
    && (exists c :: c in cells && c.1 == b.left)
    && (exists c :: c in cells && c.1 == b.right - 1)
  }

  /** A set of cells has at most one tightest box. */
  lemma BoxUnique(cells: set<Cell>, a: Box, b: Box)
    requires IsBox(cells, a) && IsBox(cells, b)
    ensures a == b
  {
    var c1 :| c1 in cells && c1.0 == a.top;
    var c2 :| c2 in cells && c2.0 == b.top;
    var c3 :| c3 in cells && c3.0 == a.bottom - 1;
    var c4 :| c4 in cells && c4.0 == b.bottom - 1;
    var c5 :| c5 in cells && c5.1 == a.left;
    var c6 :| c6 in cells && c6.1 == b.left;
    var c7 :| c7 in cells && c7.1 == a.right - 1;
    var c8 :| c8 in cells && c8.1 == b.right - 1;
  }

  function Min(a: int, b: int): int { if a <= b then a else b }
  function Max(a: int, b: int): int { if a >= b then a else b }

  /** The box around the union of two sets is the box around both boxes. */
  function Join(a: Box, b: Box): Box {
    Box(Min(a.top, b.top), Max(a.bottom, b.bottom), Min(a.left, b.left), Max(a.right, b.right))
  }

  lemma JoinBox(s: set<Cell>, a: Box, t: set<Cell>, b: Box)
    requires IsBox(s, a) && IsBox(t, b)
    ensures IsBox(s + t, Join(a, b))
  {
    var j := Join(a, b);
    var c1 :| c1 in s && c1.0 == a.top;
    var c2 :| c2 in t && c2.0 == b.top;
    assert c1 in s + t && c2 in s + t;
    var c3 :| c3 in s && c3.0 == a.bottom - 1;
    var c4 :| c4 in t && c4.0 == b.bottom - 1;
    assert c3 in s + t && c4 in s + t;
    var c5 :| c5 in s && c5.1 == a.left;
    var c6 :| c6 in t && c6.1 == b.left;
    assert c5 in s + t && c6 in s + t;
    var c7 :| c7 in s && c7.1 == a.right - 1;
    var c8 :| c8 in t && c8.1 == b.right - 1;
    assert c7 in s + t && c8 in s + t;
  }

  lemma SingleBox(c: Cell)
    ensures IsBox({c}, Box(c.0, c.0 + 1, c.1, c.1 + 1))
  {
    assert c in {c};
  }

  /** The box lies inside the grid, so `Crop` may cut it out. */
  predicate BoxIn(g: Grid, b: Box) {
    0 <= b.top < b.bottom <= Height(g) && 0 <= b.left < b.right <= Width(g)
  }

  /** The box around cells of a grid lies inside the grid. */
  lemma BoxInside(g: Grid, cells: set<Cell>, b: Box)
    requires Rect(g) && IsBox(cells, b)
    requires forall c :: c in cells ==> InShape(g, c)
    ensures BoxIn(g, b)
  {
    var c1 :| c1 in cells && c1.0 == b.top;
    var c3 :| c3 in cells && c3.0 == b.bottom - 1;
    var c5 :| c5 in cells && c5.1 == b.left;
    var c7 :| c7 in cells && c7.1 == b.right - 1;
  }

  /** `grid[top:bottom, left:right]` for a box inside the grid. */
  function Crop(g: Grid, b: Box): (r: Grid)
    requires Rect(g) && BoxIn(g, b)
    ensures Proper(r) && Shape(r) == (b.bottom - b.top, b.right - b.left)
    ensures forall i, j :: 0 <= i < b.bottom - b.top && 0 <= j < b.right - b.left ==> r[i][j] == g[b.top + i][b.left + j]
  {
    seq(b.bottom - b.top, i requires 0 <= i < b.bottom - b.top => g[b.top + i][b.left .. b.right])
  }

  /** `_neighbors`: the eight surrounding cells in the order they are visited. */
  method NeighborList(c: Cell) returns (r: seq<Cell>)
    ensures |r| == 8 && forall x :: x in r <==> x in Neighbors(c)
  {
    var (y, x) := c;
    r := [(y - 1, x - 1), (y - 1, x), (y - 1, x + 1), (y, x - 1), (y, x + 1), (y + 1, x - 1), (y + 1, x), (y + 1, x + 1)];
  }

  /**
   * `_neighbor_bounds`: depth-first search from `start`, removing each
   * visited neighbour from the candidates before recursing into it. The
   * returned box is the tightest box around the visited cells, which are
   * `start` and the removed candidates; every visited cell is reached from
   * `start` through visited cells, and no remaining candidate is adjacent to
   * a visited cell, so the visited cells are the component of `start`.
   */
  method NeighborBounds(start: Cell, candidates: set<Cell>) returns (b: Box, remaining: set<Cell>)
    requires start !in candidates
    ensures remaining <= candidates
    ensures IsBox({start} + (candidates - remaining), b)
    ensures Closed({start} + (candidates - remaining), remaining, Neighbors)
    ensures RootedAt({start} + (candidates - remaining), start, Neighbors)
    decreases |candidates|, 1
  {
    b := Box(start.0, start.0 + 1, start.1, start.1 + 1);
    SingleBox(start);
    remaining := candidates;
    SingleRooted(start, candidates);
    var neighbors := NeighborList(start);
    for i := 0 to 8
      invariant Explored(start, candidates, remaining, b)
      invariant forall k :: 0 <= k < i ==> neighbors[k] !in remaining
    {
      b, remaining := Explore(start, candidates, remaining, b, neighbors, i);
    }
    WithStart(start, candidates, remaining, neighbors);
  }

  /**
   * The search so far: the visited cells are `start` and the removed
   * candidates, boxed by `b` and reached from `start`, and no candidate left
   * touches a removed one.
   */
  ghost predicate Explored(start: Cell, candidates: set<Cell>, remaining: set<Cell>, b: Box) {
    remaining <= candidates &&
    IsBox({start} + (candidates - remaining), b) &&
    Closed(candidates - remaining, remaining, Neighbors) &&
    RootedAt({start} + (candidates - remaining), start, Neighbors)
  }

  lemma SingleRooted(start: Cell, candidates: set<Cell>)
    ensures RootedAt({start} + (candidates - candidates), start, Neighbors)
  {
    assert {start} + (candidates - candidates) == {start};
    ReachesSelf({start}, start, Neighbors);
  }

  /** One turn of the loop over the neighbours: recurse into neighbour `i` if it is still a candidate. */
  method Explore(start: Cell, candidates: set<Cell>, remaining: set<Cell>, b: Box, neighbors: seq<Cell>, i: int)
      returns (b': Box, rest: set<Cell>)
    requires start !in candidates && 0 <= i < |neighbors| && neighbors[i] in Neighbors(start)
    requires Explored(start, candidates, remaining, b)
    requires forall k :: 0 <= k < i ==> neighbors[k] !in remaining
    ensures Explored(start, candidates, rest, b')
    ensures forall k :: 0 <= k < i + 1 ==> neighbors[k] !in rest
    decreases |candidates|, 0
  {
    b', rest := b, remaining;
    var neighbor := neighbors[i];
    if neighbor in remaining {
      SubsetCard(remaining, candidates);
      var sub, r := NeighborBounds(neighbor, remaining - {neighbor});
      BoundsStep(start, candidates, remaining, neighbor, r, b, sub);
      RootedStep(start, candidates, remaining, neighbor, r);
      NotRemaining(neighbors, i, remaining, r);
      b', rest := Join(b, sub), r;
    }
  }

  /** Folding the result of one recursive call into the running box and candidates. */
  lemma BoundsStep(start: Cell, candidates: set<Cell>, before: set<Cell>, neighbor: Cell, rest: set<Cell>, b: Box, sub: Box)
    requires before <= candidates && neighbor in before && rest <= before - {neighbor}
    requires IsBox({start} + (candidates - before), b)
    requires IsBox({neighbor} + ((before - {neighbor}) - rest), sub)
    requires Closed(candidates - before, before, Neighbors)
    requires Closed({neighbor} + ((before - {neighbor}) - rest), rest, Neighbors)
    ensures IsBox({start} + (candidates - rest), Join(b, sub))
    ensures Closed(candidates - rest, rest, Neighbors)
  {
    var visited := {neighbor} + ((before - {neighbor}) - rest);
    assert ({start} + (candidates - before)) + visited == {start} + (candidates - rest);
    JoinBox({start} + (candidates - before), b, visited, sub);
    assert candidates - rest == (candidates - before) + visited;
  }

  /** The component of an adjacent neighbour joins the cells reached from `start`. */
  lemma RootedStep(start: Cell, candidates: set<Cell>, before: set<Cell>, neighbor: Cell, rest: set<Cell>)
    requires before <= candidates && neighbor in before && rest <= before - {neighbor} && neighbor in Neighbors(start)
    requires RootedAt({start} + (candidates - before), start, Neighbors)
    requires RootedAt({neighbor} + ((before - {neighbor}) - rest), neighbor, Neighbors)
    ensures RootedAt({start} + (candidates - rest), start, Neighbors)
  {
    var visited := {neighbor} + ((before - {neighbor}) - rest);
    RootedUnion({start} + (candidates - before), start, visited, neighbor, Neighbors);
    assert ({start} + (candidates - before)) + visited == {start} + (candidates - rest);
  }

  lemma NotRemaining(neighbors: seq<Cell>, i: int, before: set<Cell>, rest: set<Cell>)
    requires 0 <= i < |neighbors| && rest <= before - {neighbors[i]}
    requires forall k :: 0 <= k < i ==> neighbors[k] !in before
    ensures forall k :: 0 <= k < i + 1 ==> neighbors[k] !in rest
  {
  }

  lemma WithStart(start: Cell, candidates: set<Cell>, remaining: set<Cell>, neighbors: seq<Cell>)
    requires Closed(candidates - remaining, remaining, Neighbors)
    requires |neighbors| == 8 && forall x :: x in neighbors <==> x in Neighbors(start)
    requires forall k :: 0 <= k < 8 ==> neighbors[k] !in remaining
    ensures Closed({start} + (candidates - remaining), remaining, Neighbors)
  {
    forall c, n | c in {start} + (candidates - remaining) && n in Neighbors(c) ensures n !in remaining {
      if c == start {
        var k :| 0 <= k < 8 && neighbors[k] == n;
      }
    }
  }

  /** The non-ignored cells: `np.argwhere(grid.state != ignore)` as a set. */
  function Foreground(g: Grid, ignore: int): (s: set<Cell>)
    requires Rect(g)
    ensures forall c :: c in s <==> InShape(g, c) && g[c.0][c.1] != ignore
  {
    SelectedCells(SelectAllColors(g, ignore))
  }

  /** Crop k is the grid inside the tightest box around cell set k. */
  ghost predicate Cropped(g: Grid, sets: seq<set<Cell>>, boxes: seq<Box>, crops: seq<Grid>)
    requires Rect(g)
  {
    |crops| == |sets| == |boxes| &&
    forall k :: 0 <= k < |sets| ==> IsBox(sets[k], boxes[k]) && BoxIn(g, boxes[k]) && crops[k] == Crop(g, boxes[k])
  }

  lemma CroppedAppend(g: Grid, sets: seq<set<Cell>>, boxes: seq<Box>, crops: seq<Grid>, s: set<Cell>, b: Box)
    requires Rect(g) && Cropped(g, sets, boxes, crops)
    requires IsBox(s, b) && BoxIn(g, b)
    ensures Cropped(g, sets + [s], boxes + [b], crops + [Crop(g, b)])
  {
    var sets', boxes', crops' := sets + [s], boxes + [b], crops + [Crop(g, b)];
    forall k | 0 <= k < |sets'|
      ensures IsBox(sets'[k], boxes'[k]) && BoxIn(g, boxes'[k]) && crops'[k] == Crop(g, boxes'[k])
    {
      if k < |sets| {
        assert sets'[k] == sets[k] && boxes'[k] == boxes[k] && crops'[k] == crops[k];
      }
    }
  }

  lemma IslandStep(g: Grid, all: set<Cell>, unassigned: set<Cell>, groups: seq<set<Cell>>, boxes: seq<Box>, islands: seq<Grid>,
                   start: Cell, island: set<Cell>, box: Box, rest: set<Cell>)
    requires Rect(g) && (forall c :: c in all ==> InShape(g, c))
    requires Areas(all, unassigned, groups, Neighbors) && Cropped(g, groups, boxes, islands)
    requires start in unassigned && rest <= unassigned - {start}
    requires island == {start} + ((unassigned - {start}) - rest)
    requires IsBox(island, box) && Closed(island, rest, Neighbors)
    requires AllConnected(groups, Neighbors) && RootedAt(island, start, Neighbors)
    ensures BoxIn(g, box) && |rest| < |unassigned|
    ensures Areas(all, rest, groups + [island], Neighbors) && AllConnected(groups + [island], Neighbors)
    ensures Cropped(g, groups + [island], boxes + [box], islands + [Crop(g, box)])
  {
    AddArea(all, unassigned, groups, Neighbors, start, island, rest);
    AddConnected(groups, Neighbors, start, island);
    AreaInside(start, unassigned, island, rest);
    BoxInside(g, island, box);
    CroppedAppend(g, groups, boxes, islands, island, box);
    Shrinks(start, unassigned, rest);
  }

  /**
   * `extract_islands`: repeatedly takes an unassigned non-ignored cell, finds
   * its island with `NeighborBounds` and crops the island's bounding box.
   * The islands (returned as ghost `groups`) partition the non-ignored cells
   * and each is connected and closed under 8-adjacency, so they are the
   * 8-connected components; crop k is the grid inside the tightest box
   * around group k.
   */
  method ExtractIslands(g: Grid, ignore: int) returns (islands: seq<Grid>, ghost groups: seq<set<Cell>>, ghost boxes: seq<Box>)
    requires Rect(g)
    ensures Areas(Foreground(g, ignore), {}, groups, Neighbors) && AllConnected(groups, Neighbors)
    ensures forall k, c, n :: 0 <= k < |groups| && c in groups[k] && n in Neighbors(c) && n in Foreground(g, ignore) ==> n in groups[k]
    ensures Cropped(g, groups, boxes, islands)
  {
    var all := Foreground(g, ignore);
    var unassigned := all;
    islands, groups, boxes := [], [], [];
    while |unassigned| > 0
      invariant Areas(all, unassigned, groups, Neighbors) && AllConnected(groups, Neighbors)
      invariant Cropped(g, groups, boxes, islands)
      decreases |unassigned|
    {
      var start :| start in unassigned;
      var box, rest := NeighborBounds(start, unassigned - {start});
      ghost var island := {start} + ((unassigned - {start}) - rest);
      IslandStep(g, all, unassigned, groups, boxes, islands, start, island, box, rest);
      islands := islands + [Crop(g, box)];
      groups := groups + [island];
      boxes := boxes + [box];
      unassigned := rest;
    }
    NeighborsSymmetric();
    AreasClosed(all, groups, Neighbors);
  }

  // ---- colour patches ----

  /** The used colours other than `ignore`, ascending. */
  function PatchColors(colors: seq<int>, ignore: int): (r: seq<int>)
    ensures forall c :: c in r <==> c in colors && c != ignore
  {
    if colors == [] then []
    else
      var init := PatchColors(colors[..|colors| - 1], ignore);
      var last := colors[|colors| - 1];
      assert colors == colors[..|colors| - 1] + [last];
      if last != ignore then init + [last] else init
  }

  /** The rows of a non-empty sequence of cells (`np.min`/`np.max` reduce over them). */
  function MinRow(cells: seq<Cell>): (r: int)
    requires |cells| > 0
    ensures exists k :: 0 <= k < |cells| && cells[k].0 == r
    ensures forall k :: 0 <= k < |cells| ==> r <= cells[k].0
  {
    if |cells| == 1 then cells[0].0 else Min(cells[0].0, MinRow(cells[1..]))
  }

  function MaxRow(cells: seq<Cell>): (r: int)
    requires |cells| > 0
    ensures exists k :: 0 <= k < |cells| && cells[k].0 == r
    ensures forall k :: 0 <= k < |cells| ==> cells[k].0 <= r
  {
    if |cells| == 1 then cells[0].0 else Max(cells[0].0, MaxRow(cells[1..]))
  }

  function MinCol(cells: seq<Cell>): (r: int)
    requires |cells| > 0
    ensures exists k :: 0 <= k < |cells| && cells[k].1 == r
    ensures forall k :: 0 <= k < |cells| ==> r <= cells[k].1
  {
    if |cells| == 1 then cells[0].1 else Min(cells[0].1, MinCol(cells[1..]))
  }

  function MaxCol(cells: seq<Cell>): (r: int)
    requires |cells| > 0
    ensures exists k :: 0 <= k < |cells| && cells[k].1 == r
    ensures forall k :: 0 <= k < |cells| ==> cells[k].1 <= r
  {
    if |cells| == 1 then cells[0].1 else Max(cells[0].1, MaxCol(cells[1..]))
  }

  /** `top, left = np.min(indices, axis=0)`, `bottom, right = np.max(indices, axis=0) + 1`. */
  function Bounds(cells: seq<Cell>): (b: Box)
    requires |cells| > 0
    ensures IsBox(Elems(cells), b)
  {
    var b := Box(MinRow(cells), MaxRow(cells) + 1, MinCol(cells), MaxCol(cells) + 1);
    ghost var s := Elems(cells);
    assert forall c :: c in s ==> b.top <= c.0 < b.bottom && b.left <= c.1 < b.right by {
      forall c | c in s ensures b.top <= c.0 < b.bottom && b.left <= c.1 < b.right {
        var k :| 0 <= k < |cells| && cells[k] == c;
      }
    }
    var k1 :| 0 <= k1 < |cells| && cells[k1].0 == b.top;
    var k2 :| 0 <= k2 < |cells| && cells[k2].0 == b.bottom - 1;
    var k3 :| 0 <= k3 < |cells| && cells[k3].1 == b.left;
    var k4 :| 0 <= k4 < |cells| && cells[k4].1 == b.right - 1;
    assert cells[k1] in s && cells[k2] in s && cells[k3] in s && cells[k4] in s;
    b
  }

  /** The cells of each colour in `colors`. */
  ghost function ColorCells(g: Grid, colors: seq<int>): (r: seq<set<Cell>>)
    requires Rect(g)
    ensures |r| == |colors|
    ensures forall k :: 0 <= k < |colors| ==> r[k] == SelectedCells(SelectColor(g, colors[k]))
  {
    seq(|colors|, k requires 0 <= k < |colors| => SelectedCells(SelectColor(g, colors[k])))
  }

  lemma PatchColorsStep(colors: seq<int>, i: int, ignore: int)
    requires 0 <= i < |colors|
    ensures PatchColors(colors[..i + 1], ignore) ==
      PatchColors(colors[..i], ignore) + (if colors[i] != ignore then [colors[i]] else [])
  {
    assert colors[..i + 1][..i] == colors[..i];
  }

  lemma ColorCellsAppend(g: Grid, colors: seq<int>, c: int)
    requires Rect(g)
    ensures ColorCells(g, colors + [c]) == ColorCells(g, colors) + [SelectedCells(SelectColor(g, c))]
  {
  }

  /**
   * `extract_color_patches`: for each used colour other than `ignore`, in
   * ascending order, the crop of the tightest box around that colour's cells.
   */
  method ExtractColorPatches(g: Grid, ignore: int) returns (patches: seq<Grid>, ghost boxes: seq<Box>)
    requires Rect(g)
    ensures Cropped(g, ColorCells(g, PatchColors(UsedColors(g), ignore)), boxes, patches)
  {
    var colors := UsedColors(g);
    patches, boxes := [], [];
    for i := 0 to |colors|
      invariant Cropped(g, ColorCells(g, PatchColors(colors[..i], ignore)), boxes, patches)
    {
      var color := colors[i];
      ghost var done := PatchColors(colors[..i], ignore);
      PatchColorsStep(colors, i, ignore);
      if color != ignore {
        assert color in colors;
        ColorCellsInShape(g, color);
        var patch, box := Patch(g, SelectedCells(SelectColor(g, color)));
        ColorCellsAppend(g, done, color);
        CroppedAppend(g, ColorCells(g, done), boxes, patches, SelectedCells(SelectColor(g, color)), box);
        patches := patches + [patch];
        boxes := boxes + [box];
      }
    }
    assert colors[..|colors|] == colors;
  }

  /** The cells of a used colour: at least one, all inside the grid. */
  lemma ColorCellsInShape(g: Grid, color: int)
    requires Rect(g) && color in UsedColors(g)
    ensures SelectedCells(SelectColor(g, color)) != {}
    ensures forall c :: c in SelectedCells(SelectColor(g, color)) ==> InShape(g, c)
  {
    SelectColorAny(g, color);
    var a, b :| 0 <= a < Height(g) && 0 <= b < Width(g) && SelectColor(g, color)[a][b];
    assert (a, b) in SelectedCells(SelectColor(g, color));
  }

  /** `grid[top:bottom, left:right]` around a non-empty set of cells of the grid. */
  method Patch(g: Grid, cells: set<Cell>) returns (patch: Grid, ghost box: Box)
    requires Rect(g) && cells != {} && forall c :: c in cells ==> InShape(g, c)
    ensures IsBox(cells, box) && BoxIn(g, box)
    ensures patch == Crop(g, box)
  {
    var indices := SetToSeq(cells);
    var bounds := Bounds(indices);
    assert Elems(indices) == cells;
    BoxInside(g, cells, bounds);
    box := bounds;
    patch := Crop(g, bounds);
  }
}
