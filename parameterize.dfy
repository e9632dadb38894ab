/**
 * The operations the state-tree solver may try on an argument, partially
 * applied with "sensible" parameters, and the wrapped operations themselves.
 * Each operation receives one argument per constraint and unwraps it with
 * the `expect_*` decorators; when unwrapping fails the operation gives None
 * and a parameterizer gives no operations.
 */
module Parameterize {
  import opened Wrappers
  import opened Arguments
  import opened Argument
  import Logic
  import Color
  import Segmentation
  import Selection

  /** A partially applied operation (`partial(...)` or a decorated operation). */
  datatype Op =
    | ExtractIslandsOp(ignore: int)
    | ExtractColorPatchesOp(ignore: int)
    | EqualAndOp
    | EqualOrOp
    | XorOp
    | SwitchColorOp(a: int, b: int)

  /** Every grid and selection inside the argument is a rectangle, as the numpy state of the classes is. */
  predicate WellFormed(a: Arg) {
    match a
    case GridArg(g) => Rect(g)
    case SelectionArg(m) => Rect(m)
    case ListArg(items) => forall x :: x in items ==> WellFormed(x)
    case NoneArg => true
  }

  lemma {:induction false} ExtractWellFormed(a: Arg, t: ArgType)
    ensures WellFormed(a) && ExtractScalar(a, t).Some? ==> WellFormed(ExtractScalar(a, t).value)
    decreases a
  {
    if WellFormed(a) && ExtractScalar(a, t).Some? && !IsA(a, t) {
      assert a.items[0] in a.items;
      ExtractWellFormed(a.items[0], t);
    }
  }

  /** The grid `expect_scalar` hands to a grid operation, if any. */
  function ScalarGrid(a: Arg): (r: Option<Grid>)
    ensures r.Some? <==> ExtractScalar(a, GridType).Some?
    ensures r.Some? ==> ExtractScalar(a, GridType) == Some(GridArg(r.value))
    ensures r.Some? && WellFormed(a) ==> Rect(r.value)
  {
    ExtractWellFormed(a, GridType);
    match ExtractScalar(a, GridType)
    case Some(x) => Some(x.grid)
    case None => None
  }

  // ---- parameterize_segmentation ----

  /**
   * `parameterize_segmentation`: `extract_islands` and then
   * `extract_color_patches`, each once per used colour as the ignored colour.
   * The `extract_color_patch` list is built but not returned.
   */
  function SegmentationOps(a: Arg): (r: seq<Op>)
    ensures ScalarGrid(a).None? ==> r == []
    ensures ScalarGrid(a).Some? ==>
      var cs := UsedColors(ScalarGrid(a).value);
      |r| == 2 * |cs| &&
      (forall k :: 0 <= k < |cs| ==> r[k] == ExtractIslandsOp(cs[k]) && r[|cs| + k] == ExtractColorPatchesOp(cs[k]))
  {
    match ScalarGrid(a)
    case None => []
    case Some(g) =>
      var cs := UsedColors(g);
      seq(|cs|, k requires 0 <= k < |cs| => ExtractIslandsOp(cs[k])) +
      seq(|cs|, k requires 0 <= k < |cs| => ExtractColorPatchesOp(cs[k]))
  }

  // ---- parameterize_logic ----

  function LogicOpsOf(xs: seq<Arg>): seq<Op> {
    if |xs| >= 2 && ShapeOf(xs[0]) != ShapeOf(xs[1]) then [] else [EqualAndOp, EqualOrOp, XorOp]
  }

  /**
   * `parameterize_logic(arg)`: the three logic operations when the argument
   * unwraps to two grids of one shape; none otherwise.
   */
  function LogicOps(a: Arg): seq<Op> {
    ExpectTuple(LogicOpsOf, [], [a], 2, GridType)
  }

  /** The three logic operations are offered exactly for a pair of same-shaped grids; otherwise nothing is. */
  lemma LogicOpsCases(a: Arg)
    ensures |LogicOps(a)| == 3 || LogicOps(a) == []
    ensures |LogicOps(a)| == 3 <==>
      ExtractTuple(a, 2, GridType).Some? &&
      Shape(ExtractTuple(a, 2, GridType).value[0].grid) == Shape(ExtractTuple(a, 2, GridType).value[1].grid)
  {
    assert [a][..Min(2, 1)] == [a];
    assert ExtractTuple(ListArg([a]), 2, GridType) == ExtractTuple(a, 2, GridType);
    var t := ExtractTuple(a, 2, GridType);
    if t.Some? {
      assert t.value + [a][1..] == t.value;
    }
  }

  // ---- parameterize_color ----

  /** `switch_color(a=c, b=t)` for each `t` in `range(n)` other than `c`, in order. */
  function SwitchesBelow(c: int, n: nat): (r: seq<Op>)
    ensures |r| == if 0 <= c < n then n - 1 else n
    ensures forall op :: op in r <==> op.SwitchColorOp? && op.a == c && 0 <= op.b < n && op.b != c
  {
    if n == 0 then []
    else
      var init := SwitchesBelow(c, n - 1);
      if n - 1 != c then init + [SwitchColorOp(c, n - 1)] else init
  }

  /** The switches for each source colour of `cs`, source by source. */
  function SwitchOps(cs: seq<int>): (r: seq<Op>)
    ensures forall op :: op in r <==> op.SwitchColorOp? && op.a in cs && 0 <= op.b < 10 && op.b != op.a
  {
    if cs == [] then []
    else
      var init := cs[..|cs| - 1];
      assert cs == init + [cs[|cs| - 1]];
      SwitchOps(init) + SwitchesBelow(cs[|cs| - 1], 10)
  }

  /** `parameterize_color(arg)`: all switches from each used colour to each other colour of 0..9. */
  function ColorOps(a: Arg): seq<Op> {
    match ScalarGrid(a)
    case None => []
    case Some(g) => SwitchOps(UsedColors(g))
  }

  /** With the colours in 0..9, as in every task, there are 9 switches per used colour. */
  lemma {:induction false} SwitchOpsCount(cs: seq<int>)
    requires forall c :: c in cs ==> 0 <= c < 10
    ensures |SwitchOps(cs)| == 9 * |cs|
  {
    if cs != [] {
      var init := cs[..|cs| - 1];
      assert forall c :: c in init ==> c in cs;
      SwitchOpsCount(init);
      assert cs[|cs| - 1] in cs;
    }
  }

  /**
   * `parameterize_color` as written: nested loops over the used colours and
   * `range(10)`, appending a switch whenever the two colours differ.
   */
  method ParameterizeColor(a: Arg) returns (r: seq<Op>)
    ensures r == ColorOps(a)
  {
    var grid := ScalarGrid(a);
    if grid.None? {
      return [];
    }
    var colors := UsedColors(grid.value);
    r := [];
    for i := 0 to |colors|
      invariant r == SwitchOps(colors[..i])
    {
      var source := colors[i];
      ghost var before := r;
      for target := 0 to 10
        invariant r == before + SwitchesBelow(source, target)
      {
        if source != target {
          r := r + [SwitchColorOp(source, target)];
        }
      }
      assert colors[..i + 1][..i] == colors[..i];
    }
    assert colors[..|colors|] == colors;
  }

  /** `valid_functions(arg)`: everything any of the three parameterizers offers. */
  function ValidOps(a: Arg): (r: set<Op>)
    ensures forall op :: op in r <==> op in SegmentationOps(a) || op in LogicOps(a) || op in ColorOps(a)
  {
    set op | op in SegmentationOps(a) + LogicOps(a) + ColorOps(a)
  }

  /** What the solver may try on a grid: island and patch extraction per used colour, the logic operations on pairs, and the switches. */
  lemma ValidOpsOfGrid(g: Grid, op: Op)
    requires Rect(g)
    ensures op in ValidOps(GridArg(g)) <==>
      (op.ExtractIslandsOp? && op.ignore in UsedColors(g)) ||
      (op.ExtractColorPatchesOp? && op.ignore in UsedColors(g)) ||
      (op.SwitchColorOp? && op.a in UsedColors(g) && 0 <= op.b < 10 && op.b != op.a)
  {
    var a := GridArg(g);
    assert ScalarGrid(a) == Some(g);
    var cs := UsedColors(g);
    var seg := SegmentationOps(a);
    assert ExtractTuple(ListArg([a]), 2, GridType).None?;
    assert LogicOps(a) == [];
    if op.ExtractIslandsOp? && op.ignore in cs {
      var k :| 0 <= k < |cs| && cs[k] == op.ignore;
      assert seg[k] == op;
    }
    if op.ExtractColorPatchesOp? && op.ignore in cs {
      var k :| 0 <= k < |cs| && cs[k] == op.ignore;
      assert seg[|cs| + k] == op;
    }
    if op in seg {
      var k :| 0 <= k < |seg| && seg[k] == op;
      if k < |cs| {
        assert cs[k] in cs;
      } else {
        assert cs[k - |cs|] in cs;
      }
    }
  }

  // ---- the wrapped operations ----

  /** The value a grid operation returns, as an argument: a grid or None. */
  function GridResult(r: Option<Grid>): Arg {
    match r
    case Some(g) => GridArg(g)
    case None => NoneArg
  }

  function Grids(gs: seq<Grid>): (r: Arg)
    ensures r.ListArg? && |r.items| == |gs| && forall k :: 0 <= k < |gs| ==> r.items[k] == GridArg(gs[k])
  {
    ListArg(seq(|gs|, k requires 0 <= k < |gs| => GridArg(gs[k])))
  }

  /** A logic operation on the pair of grids `expect_tuple(length=2)` unwraps, or None. */
  function LogicResult(op: Op, a: Arg): Arg
    requires WellFormed(a)
    requires op.EqualAndOp? || op.EqualOrOp? || op.XorOp?
  {
    match ExtractTuple(a, 2, GridType)
    case None => NoneArg
    case Some(pair) =>
      ExtractAllWellFormed(a, 2);
      var (x, y) := (pair[0].grid, pair[1].grid);
      GridResult(
        if op.EqualAndOp? then Logic.EqualAnd(x, y)
        else if op.EqualOrOp? then Logic.EqualOr(x, y)
        else Logic.Xor(x, y))
  }

  lemma {:induction false} ExtractAllWellFormed(a: Arg, length: nat)
    requires WellFormed(a) && ExtractTuple(a, length, GridType).Some?
    ensures forall k :: 0 <= k < length ==> Rect(ExtractTuple(a, length, GridType).value[k].grid)
    decreases a
  {
    var xs := a.items;
    if |xs| == length {
      var r := ExtractAll(xs, GridType).value;
      forall k | 0 <= k < length ensures Rect(r[k].grid) {
        assert xs[k] in xs;
        ExtractWellFormed(xs[k], GridType);
      }
    } else {
      assert xs[0] in xs;
      ExtractAllWellFormed(xs[0], length);
    }
  }

  /** The islands of `g`: crops around a partition of the non-ignored cells into 8-connected groups. */
  ghost predicate IslandCrops(g: Grid, ignore: int, crops: seq<Grid>)
    requires Rect(g)
  {
    exists groups, boxes ::
      Selection.Areas(Segmentation.Foreground(g, ignore), {}, groups, Selection.Neighbors) &&
      Segmentation.Cropped(g, groups, boxes, crops)
  }

  /** The colour patches of `g`: a crop around the cells of each used colour other than `ignore`, in colour order. */
  ghost predicate PatchCrops(g: Grid, ignore: int, crops: seq<Grid>)
    requires Rect(g)
  {
    exists boxes ::
      Segmentation.Cropped(g, Segmentation.ColorCells(g, Segmentation.PatchColors(UsedColors(g), ignore)), boxes, crops)
  }

  /** `function(arg)` for one of the operations the parameterizers hand out. */
  method Apply(op: Op, a: Arg) returns (r: Arg)
    requires WellFormed(a)
    ensures (op.EqualAndOp? || op.EqualOrOp? || op.XorOp?) ==> r == LogicResult(op, a)
    ensures op.SwitchColorOp? ==>
      r == (match ScalarGrid(a) case None => NoneArg case Some(g) => GridArg(Color.Switched(g, op.a, op.b)))
    ensures (op.ExtractIslandsOp? || op.ExtractColorPatchesOp?) ==> (r == NoneArg <==> ScalarGrid(a).None?)
    ensures op.ExtractIslandsOp? && ScalarGrid(a).Some? ==>
      Rect(ScalarGrid(a).value) && exists crops :: r == Grids(crops) && IslandCrops(ScalarGrid(a).value, op.ignore, crops)
    ensures op.ExtractColorPatchesOp? && ScalarGrid(a).Some? ==>
      Rect(ScalarGrid(a).value) && exists crops :: r == Grids(crops) && PatchCrops(ScalarGrid(a).value, op.ignore, crops)
  {
    match op {
      case EqualAndOp => r := LogicResult(op, a);
      case EqualOrOp => r := LogicResult(op, a);
      case XorOp => r := LogicResult(op, a);
      case SwitchColorOp(x, y) =>
        var grid := ScalarGrid(a);
        if grid.None? {
          r := NoneArg;
        } else {
          var switched := Color.SwitchColor(grid.value, x, y);
          r := GridArg(switched);
        }
      case ExtractIslandsOp(ignore) =>
        var grid := ScalarGrid(a);
        if grid.None? {
          r := NoneArg;
        } else {
          var islands, groups, boxes := Segmentation.ExtractIslands(grid.value, ignore);
          r := Grids(islands);
        }
      case ExtractColorPatchesOp(ignore) =>
        var grid := ScalarGrid(a);
        if grid.None? {
          r := NoneArg;
        } else {
          var patches, boxes := Segmentation.ExtractColorPatches(grid.value, ignore);
          r := Grids(patches);
        }
    }
  }
}
