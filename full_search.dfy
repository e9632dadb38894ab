/**
 * The breadth-first search of `full_search.py`. A round samples expandable
 * nodes, files them by type, asks every generator for candidate functions
 * over them, keeps the candidates whose value is new, and reports one whose
 * value is the target.
 *
 * Nodes are equal when their values are, so every pool here is a map from a
 * value tuple to the term of the node that holds it. The generators read
 * values only; a batch lists the nodes of each type in the order the set
 * yields them, which matters for the generators that form pairs.
 */
module FullSearch {
  import opened Wrappers
  import opened Arguments
  import opened Values
  import opened Terms
  import opened Collections

  /** `Constant(repeat(c))` for a colour or count `c`. */
  function Const(c: int): Arg {
    Lit(Some(IntV(c)))
  }

  /** The sampled nodes of one round: `of_type(k)` for the four kinds a generator asks for. */
  datatype Batch = Batch(pool: map<Vector, Term>, grid: seq<Vector>, selection: seq<Vector>,
                         grids: seq<Vector>, selections: seq<Vector>)

  predicate Listed(xs: seq<Vector>, pool: map<Vector, Term>) {
    forall i :: 0 <= i < |xs| ==> xs[i] in pool
  }

  /** Every listed node is in the pool, and the grid nodes hold grids at one or more positions. */
  predicate BatchOK(b: Batch) {
    Listed(b.grid, b.pool) && Listed(b.selection, b.pool) &&
    Listed(b.grids, b.pool) && Listed(b.selections, b.pool) &&
    forall i :: 0 <= i < |b.grid| ==> |b.grid[i]| > 0 && AllGrids(b.grid[i])
  }

  /** The targets the generators compare with: grids, one per constraint, at least one. */
  predicate TargetOK(target: Vector) {
    |target| > 0 && AllGrids(target)
  }

  function NodeArg(b: Batch, v: Vector): Arg
    requires v in b.pool
  {
    Sub(b.pool[v])
  }

  /** A node computed by `switch_color`, which `switch_color_functions` does not switch again. */
  predicate IsSwitch(t: Term) {
    t.Apply? && t.op == SwitchColor
  }

  // ---- the generators ----

  /** `map_color_functions`: map a colour of the node to a different colour of the target. */
  function MapColorFunctions(b: Batch, target: Vector): set<Term>
    requires BatchOK(b) && TargetOK(target)
  {
    set i, x, y | 0 <= i < |b.grid| && x in UsedColorsOf(b.grid[i]) && y in UsedColorsOf(target) && x != y ::
      Apply(MapColor, [NodeArg(b, b.grid[i]), Const(x), Const(y)])
  }

  /** `map_color_in_selection_functions`: recolour the background inside a same-shape selection. */
  function MapColorInSelectionFunctions(b: Batch, target: Vector): set<Term>
    requires BatchOK(b) && TargetOK(target)
  {
    set i, j, y | 0 <= i < |b.grid| && 0 <= j < |b.selection| &&
      ShapeVector(b.grid[i]) == ShapeVector(b.selection[j]) && y in UsedColorsOf(target) ::
      Apply(MapColorInSelection, [NodeArg(b, b.grid[i]), NodeArg(b, b.selection[j]), Const(0), Const(y)])
  }

  /** `switch_color_functions`: swap two colours of a node that is not itself a swap. */
  function SwitchColorFunctions(b: Batch): set<Term>
    requires BatchOK(b)
  {
    set i, x, y | 0 <= i < |b.grid| && !IsSwitch(b.pool[b.grid[i]]) &&
      x in UsedColorsOf(b.grid[i]) && y in UsedColorsOf(b.grid[i]) && x < y ::
      Apply(SwitchColor, [NodeArg(b, b.grid[i]), Const(x), Const(y)])
  }

  /** `set_selected_to_color_functions`: paint a same-shape selection in a target colour. */
  function SetSelectedToColorFunctions(b: Batch, target: Vector): set<Term>
    requires BatchOK(b) && TargetOK(target)
  {
    set i, j, y | 0 <= i < |b.grid| && 0 <= j < |b.selection| &&
      ShapeVector(b.grid[i]) == ShapeVector(b.selection[j]) && y in UsedColorsOf(target) ::
      Apply(SetSelectedToColor, [NodeArg(b, b.grid[i]), NodeArg(b, b.selection[j]), Const(y)])
  }

  /** `select_color_functions`: select each colour the node uses. */
  function SelectColorFunctions(b: Batch): set<Term>
    requires BatchOK(b)
  {
    set i, x | 0 <= i < |b.grid| && x in UsedColorsOf(b.grid[i]) ::
      Apply(SelectColor, [NodeArg(b, b.grid[i]), Const(x)])
  }

  /** `select_all_colors_functions`: select all but one colour, for nodes with more than two colours. */
  function SelectAllColorsFunctions(b: Batch): set<Term>
    requires BatchOK(b)
  {
    set i, x | 0 <= i < |b.grid| && x in UsedColorsOf(b.grid[i]) && |UsedColorsOf(b.grid[i])| > 2 ::
      Apply(SelectAllColors, [NodeArg(b, b.grid[i]), Const(x)])
  }

  /** The operations that take one node and nothing else. */
  function Unary(b: Batch, xs: seq<Vector>, op: OpName): set<Term>
    requires Listed(xs, b.pool)
  {
    set i | 0 <= i < |xs| :: Apply(op, [NodeArg(b, xs[i])])
  }

  /** `split_selection_into_connected_areas_functions`: the three neighbourhoods. */
  function SplitSelectionFunctions(b: Batch): set<Term>
    requires BatchOK(b)
  {
    Unary(b, b.selection, SplitSelectionIntoConnectedAreas) +
    Unary(b, b.selection, SplitSelectionIntoConnectedAreasNoDiagonals) +
    Unary(b, b.selection, SplitSelectionIntoConnectedAreasSkipGaps)
  }

  /** `filter_selections_functions`. */
  function FilterSelectionsFunctions(b: Batch): set<Term>
    requires BatchOK(b)
  {
    Unary(b, b.selections, FilterSelectionsTouchingEdge) + Unary(b, b.selections, FilterSelectionsNotTouchingEdge)
  }

  /** `merge_selections_functions`: only tuples of two or more selections of one shape. */
  function MergeSelectionsFunctions(b: Batch): set<Term>
    requires BatchOK(b)
  {
    set i | 0 <= i < |b.selections| && IsMatchingShape(ItemShapesVector(b.selections[i])) ::
      Apply(MergeSelections, [NodeArg(b, b.selections[i])])
  }

  /** `extend_selection_to_bounds_functions` and `extend_selections_to_bounds_functions`. */
  function ExtendToBoundsFunctions(b: Batch): set<Term>
    requires BatchOK(b)
  {
    Unary(b, b.selection, ExtendSelectionToBounds) + Unary(b, b.selections, ExtendSelectionsToBounds)
  }

  /** `extract_selected_area_functions`: a same-shape selection, when the target's shape differs. */
  function ExtractSelectedAreaFunctions(b: Batch, target: Vector): set<Term>
    requires BatchOK(b)
  {
    set i, j | 0 <= i < |b.grid| && 0 <= j < |b.selection| &&
      ShapeVector(b.grid[i]) == ShapeVector(b.selection[j]) && ShapeVector(b.grid[i]) != ShapeVector(target) ::
      Apply(ExtractSelectedArea, [NodeArg(b, b.grid[i]), NodeArg(b, b.selection[j])])
  }

  /** `extract_selected_areas_functions`: selections all of the grid's shape, when the target's shape differs. */
  function ExtractSelectedAreasFunctions(b: Batch, target: Vector): set<Term>
    requires BatchOK(b)
  {
    set i, j | 0 <= i < |b.grid| && 0 <= j < |b.selections| &&
      IsMatchingShape(AppendShapes(b.selections[j], b.grid[i])) && ShapeVector(b.grid[i]) != ShapeVector(target) ::
      Apply(ExtractSelectedAreas, [NodeArg(b, b.grid[i]), NodeArg(b, b.selections[j])])
  }

  /** The three colour crops: one candidate per colour of a node whose shape is not the target's. */
  function CropFunctions(b: Batch, target: Vector, op: OpName): set<Term>
    requires BatchOK(b)
  {
    set i, x | 0 <= i < |b.grid| && ShapeVector(b.grid[i]) != ShapeVector(target) && x in UsedColorsOf(b.grid[i]) ::
      Apply(op, [NodeArg(b, b.grid[i]), Const(x)])
  }

  /** The grid nodes whose doubled heights are the target's, in batch order. */
  function HalfHeight(xs: seq<Vector>, target: Vector): (r: seq<Vector>)
    ensures forall k :: 0 <= k < |r| ==> r[k] in xs && Multiply(HeightVector(r[k]), 2) == HeightVector(target)
  {
    if xs == [] then []
    else
      var rest := HalfHeight(xs[..|xs| - 1], target);
      var x := xs[|xs| - 1];
      if Multiply(HeightVector(x), 2) == HeightVector(target) then rest + [x] else rest
  }

  function HalfWidth(xs: seq<Vector>, target: Vector): (r: seq<Vector>)
    ensures forall k :: 0 <= k < |r| ==> r[k] in xs && Multiply(WidthVector(r[k]), 2) == WidthVector(target)
  {
    if xs == [] then []
    else
      var rest := HalfWidth(xs[..|xs| - 1], target);
      var x := xs[|xs| - 1];
      if Multiply(WidthVector(x), 2) == WidthVector(target) then rest + [x] else rest
  }

  /**
   * `concatenate_functions`: stack two half-height nodes of equal width, or
   * place two half-width nodes of equal height side by side; the pairs are
   * `combinations_with_replacement`, so a node may meet itself.
   */
  function ConcatenateFunctions(b: Batch, target: Vector): set<Term>
    requires BatchOK(b)
  {
    var hs := HalfHeight(b.grid, target);
    var ws := HalfWidth(b.grid, target);
    (set i, j | 0 <= i <= j < |hs| && WidthVector(hs[i]) == WidthVector(hs[j]) ::
      Apply(ConcatenateTopBottom, [NodeArg(b, hs[i]), NodeArg(b, hs[j])])) +
    (set i, j | 0 <= i <= j < |ws| && HeightVector(ws[i]) == HeightVector(ws[j]) ::
      Apply(ConcatenateLeftRight, [NodeArg(b, ws[i]), NodeArg(b, ws[j])]))
  }

  /** `concatenate_sequence_functions`: a tuple of grids whose widths match the target's and whose heights add up to it, or the transpose. */
  function ConcatenateSequenceFunctions(b: Batch, target: Vector): set<Term>
    requires BatchOK(b)
  {
    (set i | 0 <= i < |b.grids| && IsMatchingWidth(AppendShapes(b.grids[i], target)) &&
      HeightSum(b.grids[i]) == HeightVector(target) ::
      Apply(ConcatenateTopToBottom, [NodeArg(b, b.grids[i])])) +
    (set i | 0 <= i < |b.grids| && IsMatchingHeight(AppendShapes(b.grids[i], target)) &&
      WidthSum(b.grids[i]) == WidthVector(target) ::
      Apply(ConcatenateLeftToRight, [NodeArg(b, b.grids[i])]))
  }

  /** `split_functions`: split in 2 or 3 parts only when the node is exactly that many times the target. */
  function SplitFunctions(b: Batch, target: Vector): set<Term>
    requires BatchOK(b)
  {
    (set i | 0 <= i < |b.grid| && HeightVector(b.grid[i]) == Multiply(HeightVector(target), 2) ::
      Apply(SplitTopBottom, [NodeArg(b, b.grid[i])])) +
    (set i | 0 <= i < |b.grid| && HeightVector(b.grid[i]) == Multiply(HeightVector(target), 3) ::
      Apply(SplitTopMiddleBottom, [NodeArg(b, b.grid[i])])) +
    (set i | 0 <= i < |b.grid| && WidthVector(b.grid[i]) == Multiply(WidthVector(target), 2) ::
      Apply(SplitLeftRight, [NodeArg(b, b.grid[i])])) +
    (set i | 0 <= i < |b.grid| && WidthVector(b.grid[i]) == Multiply(WidthVector(target), 3) ::
      Apply(SplitLeftMiddleRight, [NodeArg(b, b.grid[i])]))
  }

  /** `is_matching_shape_pair`: every position is a tuple of exactly two items of one shape. */
  predicate IsMatchingShapePair(v: Vector) {
    forall i :: 0 <= i < |v| ==>
      ItemShapes(v[i]).Some? && |ItemShapes(v[i]).value| == 2 && ItemShapes(v[i]).value[0] == ItemShapes(v[i]).value[1]
  }

  /**
   * `logic_functions`: the three cell-wise operations on the two halves of a
   * matching pair, and `elementwise_equal_or` on two distinct same-shape grid
   * nodes.
   */
  function LogicFunctions(b: Batch): set<Term>
    requires BatchOK(b)
  {
    (set i, op | 0 <= i < |b.grids| && IsMatchingShapePair(b.grids[i]) &&
      op in {ElementwiseEqualAnd, ElementwiseEqualOr, ElementwiseXor} ::
      Apply(op, [Sub(Apply(TakeFirst, [NodeArg(b, b.grids[i])])), Sub(Apply(TakeLast, [NodeArg(b, b.grids[i])]))])) +
    (set i, j | 0 <= i < j < |b.grid| && ShapeVector(b.grid[i]) == ShapeVector(b.grid[j]) ::
      Apply(ElementwiseEqualOr, [NodeArg(b, b.grid[i]), NodeArg(b, b.grid[j])]))
  }

  /** `symmetry_functions`: five symmetries of every grid node, and their within-bounds forms for same-shape selections. */
  function SymmetryFunctions(b: Batch): set<Term>
    requires BatchOK(b)
  {
    (set i, op | 0 <= i < |b.grid| && op in {FlipUpDown, FlipLeftRight, Rotate90, Rotate180, Rotate270} ::
      Apply(op, [NodeArg(b, b.grid[i])])) +
    (set i, j, op | 0 <= i < |b.grid| && 0 <= j < |b.selection| &&
      ShapeVector(b.grid[i]) == ShapeVector(b.selection[j]) &&
      op in {FlipUpDownWithinBounds, FlipLeftRightWithinBounds, Rotate90WithinBounds,
             Rotate180WithinBounds, Rotate270WithinBounds} ::
      Apply(op, [NodeArg(b, b.grid[i]), NodeArg(b, b.selection[j])]))
  }

  /** `take_functions`: first and last item of every tuple node, and the grid with unique colours. */
  function TakeFunctions(b: Batch): set<Term>
    requires BatchOK(b)
  {
    Unary(b, b.grids, TakeFirst) + Unary(b, b.selections, TakeFirst) +
    Unary(b, b.grids, TakeLast) + Unary(b, b.selections, TakeLast) +
    Unary(b, b.grids, TakeGridWithUniqueColors)
  }

  /** `sort_by_area_functions`. */
  function SortByAreaFunctions(b: Batch): set<Term>
    requires BatchOK(b)
  {
    Unary(b, b.grids, SortByArea) + Unary(b, b.selections, SortByArea)
  }

  /** `generate_functions`: the union of every generator's candidates. */
  function GenerateFunctions(b: Batch, target: Vector): set<Term>
    requires BatchOK(b) && TargetOK(target)
  {
    MapColorFunctions(b, target) + MapColorInSelectionFunctions(b, target) + SwitchColorFunctions(b) +
    SetSelectedToColorFunctions(b, target) + SelectColorFunctions(b) + SelectAllColorsFunctions(b) +
    SplitSelectionFunctions(b) + FilterSelectionsFunctions(b) + MergeSelectionsFunctions(b) +
    ExtendToBoundsFunctions(b) + ExtractSelectedAreaFunctions(b, target) +
    ExtractSelectedAreasFunctions(b, target) + CropFunctions(b, target, ExtractIslands) +
    CropFunctions(b, target, ExtractColorPatches) + CropFunctions(b, target, ExtractColorPatch) +
    ConcatenateFunctions(b, target) + ConcatenateSequenceFunctions(b, target) + SplitFunctions(b, target) +
    LogicFunctions(b) + SymmetryFunctions(b) + TakeFunctions(b) + SortByAreaFunctions(b)
  }

  // ---- what the heuristics guarantee ----

  /** A `map_color` candidate maps a colour every source grid uses to a different colour every target grid uses. */
  lemma MapColorHeuristic(b: Batch, target: Vector, t: Term)
    requires BatchOK(b) && TargetOK(target) && t in MapColorFunctions(b, target)
    ensures t.Apply? && t.op == MapColor && |t.args| == 3 && t.args[0].Sub?
    ensures exists i, x, y ::
      && 0 <= i < |b.grid| && t.args[0].term == b.pool[b.grid[i]]
      && t.args[1] == Const(x) && t.args[2] == Const(y) && x != y
      && (forall k :: 0 <= k < |b.grid[i]| ==> Occurs(b.grid[i][k].value.grid, x))
      && (forall k :: 0 <= k < |target| ==> Occurs(target[k].value.grid, y))
  {
    var i, x, y := MapColorMember(b, target, t);
    UsedColorsOccur(b.grid[i], x);
    UsedColorsOccur(target, y);
    assert t.args[0].term == b.pool[b.grid[i]] && t.args[1] == Const(x) && t.args[2] == Const(y);
  }

  lemma MapColorMember(b: Batch, target: Vector, t: Term) returns (i: int, x: int, y: int)
    requires BatchOK(b) && TargetOK(target) && t in MapColorFunctions(b, target)
    ensures 0 <= i < |b.grid| && x in UsedColorsOf(b.grid[i]) && y in UsedColorsOf(target) && x != y
    ensures t == Apply(MapColor, [NodeArg(b, b.grid[i]), Const(x), Const(y)])
  {
    i, x, y :| 0 <= i < |b.grid| && x in UsedColorsOf(b.grid[i]) && y in UsedColorsOf(target) && x != y &&
      t == Apply(MapColor, [NodeArg(b, b.grid[i]), Const(x), Const(y)]);
  }

  /** A `switch_color` candidate never switches a switched node, and swaps two distinct colours. */
  lemma SwitchHeuristic(b: Batch, t: Term)
    requires BatchOK(b) && t in SwitchColorFunctions(b)
    ensures t.Apply? && t.op == SwitchColor && |t.args| == 3 && t.args[0].Sub? && !IsSwitch(t.args[0].term)
    ensures exists x, y :: t.args[1] == Const(x) && t.args[2] == Const(y) && x < y
  {
  }

  /** `split_top_bottom` is proposed only for a node exactly twice as high as the target, at every position. */
  lemma SplitHeuristic(b: Batch, target: Vector, t: Term)
    requires BatchOK(b) && TargetOK(target) && t in SplitFunctions(b, target) && t.op == SplitTopBottom
    ensures exists i ::
      && 0 <= i < |b.grid| && t.args == [NodeArg(b, b.grid[i])]
      && |b.grid[i]| == |target|
      && forall k :: 0 <= k < |target| ==> Height(b.grid[i][k].value.grid) == 2 * Height(target[k].value.grid)
  {
    var halves := set i | 0 <= i < |b.grid| && HeightVector(b.grid[i]) == Multiply(HeightVector(target), 2) ::
      Apply(SplitTopBottom, [NodeArg(b, b.grid[i])]);
    assert t in halves;
    var i :| 0 <= i < |b.grid| && HeightVector(b.grid[i]) == Multiply(HeightVector(target), 2) &&
      t == Apply(SplitTopBottom, [NodeArg(b, b.grid[i])]);
    HalfPositions(b.grid[i], target);
  }

  /** Position by position, a height vector that doubles the target's means twice the target's grid height. */
  lemma HalfPositions(x: Vector, target: Vector)
    requires AllGrids(x) && AllGrids(target) && HeightVector(x) == Multiply(HeightVector(target), 2)
    ensures |x| == |target|
    ensures forall k :: 0 <= k < |target| ==> Height(x[k].value.grid) == 2 * Height(target[k].value.grid)
  {
    assert |x| == |HeightVector(x)| == |Multiply(HeightVector(target), 2)| == |target|;
    forall k | 0 <= k < |target|
      ensures Height(x[k].value.grid) == 2 * Height(target[k].value.grid)
    {
      assert HeightVector(x)[k] == Multiply(HeightVector(target), 2)[k];
    }
  }

  /** Stacked halves have the target's height between them, position by position. */
  lemma ConcatenateHeuristic(b: Batch, target: Vector, t: Term)
    requires BatchOK(b) && TargetOK(target) && t in ConcatenateFunctions(b, target) && t.op == ConcatenateTopBottom
    ensures exists p, q ::
      && 0 <= p < |b.grid| && 0 <= q < |b.grid|
      && t.args == [NodeArg(b, b.grid[p]), NodeArg(b, b.grid[q])]
      && Stacks(b.grid[p], b.grid[q], target)
  {
    var hs := HalfHeight(b.grid, target);
    var stacked := set i, j | 0 <= i <= j < |hs| && WidthVector(hs[i]) == WidthVector(hs[j]) ::
      Apply(ConcatenateTopBottom, [NodeArg(b, hs[i]), NodeArg(b, hs[j])]);
    assert t in stacked;
    var i, j :| 0 <= i <= j < |hs| && WidthVector(hs[i]) == WidthVector(hs[j]) &&
      t == Apply(ConcatenateTopBottom, [NodeArg(b, hs[i]), NodeArg(b, hs[j])]);
    assert hs[i] in b.grid && hs[j] in b.grid;
    var p :| 0 <= p < |b.grid| && b.grid[p] == hs[i];
    var q :| 0 <= q < |b.grid| && b.grid[q] == hs[j];
    HalvesFill(b.grid[p], b.grid[q], target);
  }

  /** Two grid tuples, one per constraint, whose grids stacked have the target's height, and whose widths agree. */
  predicate Stacks(top: Vector, bottom: Vector, target: Vector)
    requires AllGrids(top) && AllGrids(bottom) && AllGrids(target)
  {
    && |top| == |bottom| == |target|
    && forall k :: 0 <= k < |target| ==>
      && Height(top[k].value.grid) + Height(bottom[k].value.grid) == Height(target[k].value.grid)
      && Width(top[k].value.grid) == Width(bottom[k].value.grid)
  }

  /** Two half-height vectors of equal widths fill the target's heights between them. */
  lemma HalvesFill(top: Vector, bottom: Vector, target: Vector)
    requires AllGrids(top) && AllGrids(bottom) && AllGrids(target)
    requires Multiply(HeightVector(top), 2) == HeightVector(target)
    requires Multiply(HeightVector(bottom), 2) == HeightVector(target)
    requires WidthVector(top) == WidthVector(bottom)
    ensures Stacks(top, bottom, target)
  {
    assert |top| == |Multiply(HeightVector(top), 2)| == |target|;
    assert |bottom| == |Multiply(HeightVector(bottom), 2)| == |target|;
    forall k | 0 <= k < |target|
      ensures Height(top[k].value.grid) + Height(bottom[k].value.grid) == Height(target[k].value.grid)
      ensures Width(top[k].value.grid) == Width(bottom[k].value.grid)
    {
      assert Multiply(HeightVector(top), 2)[k] == HeightVector(target)[k];
      assert Multiply(HeightVector(bottom), 2)[k] == HeightVector(target)[k];
      assert WidthVector(top)[k] == WidthVector(bottom)[k];
    }
  }

  /** Every term of the pool is well formed. */
  predicate PoolWellFormed(pool: map<Vector, Term>) {
    forall v :: v in pool ==> WellFormed(pool[v])
  }

  predicate AllWellFormed(ts: set<Term>) {
    forall t :: t in ts ==> WellFormed(t)
  }

  // Each candidate shape is well formed when its nodes are; proved once per shape.

  lemma NodeWellFormed(pool: map<Vector, Term>, v: Vector, op: OpName)
    requires v in pool && PoolWellFormed(pool)
    ensures WellFormed(Apply(op, [Sub(pool[v])]))
  {
    assert WellFormed(pool[v]);
  }

  lemma NodeAndConstantWellFormed(pool: map<Vector, Term>, v: Vector, op: OpName, x: int)
    requires v in pool && PoolWellFormed(pool)
    ensures WellFormed(Apply(op, [Sub(pool[v]), Const(x)]))
  {
    assert WellFormed(pool[v]);
  }

  lemma NodeAndConstantsWellFormed(pool: map<Vector, Term>, v: Vector, op: OpName, x: int, y: int)
    requires v in pool && PoolWellFormed(pool)
    ensures WellFormed(Apply(op, [Sub(pool[v]), Const(x), Const(y)]))
  {
    assert WellFormed(pool[v]);
  }

  lemma TwoTermsWellFormed(s: Term, u: Term, op: OpName)
    requires WellFormed(s) && WellFormed(u)
    ensures WellFormed(Apply(op, [Sub(s), Sub(u)]))
  {
  }

  lemma TwoNodesWellFormed(pool: map<Vector, Term>, v: Vector, w: Vector, op: OpName)
    requires v in pool && w in pool && PoolWellFormed(pool)
    ensures WellFormed(Apply(op, [Sub(pool[v]), Sub(pool[w])]))
  {
    TwoTermsWellFormed(pool[v], pool[w], op);
  }

  lemma TwoNodesAndConstantWellFormed(pool: map<Vector, Term>, v: Vector, w: Vector, op: OpName, y: int)
    requires v in pool && w in pool && PoolWellFormed(pool)
    ensures WellFormed(Apply(op, [Sub(pool[v]), Sub(pool[w]), Const(y)]))
  {
    assert WellFormed(pool[v]) && WellFormed(pool[w]);
  }

  lemma TwoNodesAndConstantsWellFormed(pool: map<Vector, Term>, v: Vector, w: Vector, op: OpName, x: int, y: int)
    requires v in pool && w in pool && PoolWellFormed(pool)
    ensures WellFormed(Apply(op, [Sub(pool[v]), Sub(pool[w]), Const(x), Const(y)]))
  {
    assert WellFormed(pool[v]) && WellFormed(pool[w]);
  }

  lemma UnaryWellFormed(b: Batch, xs: seq<Vector>, op: OpName)
    requires Listed(xs, b.pool) && PoolWellFormed(b.pool)
    ensures AllWellFormed(Unary(b, xs, op))
  {
    forall t | t in Unary(b, xs, op) ensures WellFormed(t) {
      var i :| 0 <= i < |xs| && t == Apply(op, [NodeArg(b, xs[i])]);
      NodeWellFormed(b.pool, xs[i], op);
    }
  }

  lemma MapColorWellFormed(b: Batch, target: Vector)
    requires BatchOK(b) && TargetOK(target) && PoolWellFormed(b.pool)
    ensures AllWellFormed(MapColorFunctions(b, target))
  {
    forall t | t in MapColorFunctions(b, target) ensures WellFormed(t) {
      MapColorTermWellFormed(b, target, t);
    }
  }

  lemma MapColorTermWellFormed(b: Batch, target: Vector, t: Term)
    requires BatchOK(b) && TargetOK(target) && PoolWellFormed(b.pool) && t in MapColorFunctions(b, target)
    ensures WellFormed(t)
  {
    var i, x, y := MapColorMember(b, target, t);
    NodeAndConstantsWellFormed(b.pool, b.grid[i], MapColor, x, y);
  }

  lemma MapColorInSelectionWellFormed(b: Batch, target: Vector)
    requires BatchOK(b) && TargetOK(target) && PoolWellFormed(b.pool)
    ensures AllWellFormed(MapColorInSelectionFunctions(b, target))
  {
    forall t | t in MapColorInSelectionFunctions(b, target) ensures WellFormed(t) {
      MapColorInSelectionTermWellFormed(b, target, t);
    }
  }

  lemma MapColorInSelectionTermWellFormed(b: Batch, target: Vector, t: Term)
    requires BatchOK(b) && TargetOK(target) && PoolWellFormed(b.pool) && t in MapColorInSelectionFunctions(b, target)
    ensures WellFormed(t)
  {
    var i, j, y :| 0 <= i < |b.grid| && 0 <= j < |b.selection| &&
      t == Apply(MapColorInSelection, [NodeArg(b, b.grid[i]), NodeArg(b, b.selection[j]), Const(0), Const(y)]);
    TwoNodesAndConstantsWellFormed(b.pool, b.grid[i], b.selection[j], MapColorInSelection, 0, y);
  }

  lemma ColorFunctionsWellFormed(b: Batch, target: Vector)
    requires BatchOK(b) && TargetOK(target) && PoolWellFormed(b.pool)
    ensures AllWellFormed(MapColorFunctions(b, target)) && AllWellFormed(MapColorInSelectionFunctions(b, target))
  {
    MapColorWellFormed(b, target);
    MapColorInSelectionWellFormed(b, target);
  }

  lemma SwitchColorWellFormed(b: Batch)
    requires BatchOK(b) && PoolWellFormed(b.pool)
    ensures AllWellFormed(SwitchColorFunctions(b))
  {
    forall t | t in SwitchColorFunctions(b) ensures WellFormed(t) {
      SwitchColorTermWellFormed(b, t);
    }
  }

  lemma SwitchColorTermWellFormed(b: Batch, t: Term)
    requires BatchOK(b) && PoolWellFormed(b.pool) && t in SwitchColorFunctions(b)
    ensures WellFormed(t)
  {
    var i, x, y :| 0 <= i < |b.grid| && t == Apply(SwitchColor, [NodeArg(b, b.grid[i]), Const(x), Const(y)]);
    NodeAndConstantsWellFormed(b.pool, b.grid[i], SwitchColor, x, y);
  }

  lemma SetSelectedToColorWellFormed(b: Batch, target: Vector)
    requires BatchOK(b) && TargetOK(target) && PoolWellFormed(b.pool)
    ensures AllWellFormed(SetSelectedToColorFunctions(b, target))
  {
    forall t | t in SetSelectedToColorFunctions(b, target) ensures WellFormed(t) {
      SetSelectedToColorTermWellFormed(b, target, t);
    }
  }

  lemma SetSelectedToColorTermWellFormed(b: Batch, target: Vector, t: Term)
    requires BatchOK(b) && TargetOK(target) && PoolWellFormed(b.pool) && t in SetSelectedToColorFunctions(b, target)
    ensures WellFormed(t)
  {
    var i, j, y :| 0 <= i < |b.grid| && 0 <= j < |b.selection| &&
      t == Apply(SetSelectedToColor, [NodeArg(b, b.grid[i]), NodeArg(b, b.selection[j]), Const(y)]);
    TwoNodesAndConstantWellFormed(b.pool, b.grid[i], b.selection[j], SetSelectedToColor, y);
  }

  lemma SwitchFunctionsWellFormed(b: Batch, target: Vector)
    requires BatchOK(b) && TargetOK(target) && PoolWellFormed(b.pool)
    ensures AllWellFormed(SwitchColorFunctions(b)) && AllWellFormed(SetSelectedToColorFunctions(b, target))
  {
    SwitchColorWellFormed(b);
    SetSelectedToColorWellFormed(b, target);
  }

  lemma SelectColorWellFormed(b: Batch)
    requires BatchOK(b) && PoolWellFormed(b.pool)
    ensures AllWellFormed(SelectColorFunctions(b))
  {
    forall t | t in SelectColorFunctions(b) ensures WellFormed(t) {
      SelectColorTermWellFormed(b, t);
    }
  }

  lemma SelectColorTermWellFormed(b: Batch, t: Term)
    requires BatchOK(b) && PoolWellFormed(b.pool) && t in SelectColorFunctions(b)
    ensures WellFormed(t)
  {
    var i, x :| 0 <= i < |b.grid| && t == Apply(SelectColor, [NodeArg(b, b.grid[i]), Const(x)]);
    NodeAndConstantWellFormed(b.pool, b.grid[i], SelectColor, x);
  }

  lemma SelectAllColorsWellFormed(b: Batch)
    requires BatchOK(b) && PoolWellFormed(b.pool)
    ensures AllWellFormed(SelectAllColorsFunctions(b))
  {
    forall t | t in SelectAllColorsFunctions(b) ensures WellFormed(t) {
      SelectAllColorsTermWellFormed(b, t);
    }
  }

  lemma SelectAllColorsTermWellFormed(b: Batch, t: Term)
    requires BatchOK(b) && PoolWellFormed(b.pool) && t in SelectAllColorsFunctions(b)
    ensures WellFormed(t)
  {
    var i, x :| 0 <= i < |b.grid| && t == Apply(SelectAllColors, [NodeArg(b, b.grid[i]), Const(x)]);
    NodeAndConstantWellFormed(b.pool, b.grid[i], SelectAllColors, x);
  }

  lemma SelectFunctionsWellFormed(b: Batch)
    requires BatchOK(b) && PoolWellFormed(b.pool)
    ensures AllWellFormed(SelectColorFunctions(b)) && AllWellFormed(SelectAllColorsFunctions(b))
  {
    SelectColorWellFormed(b);
    SelectAllColorsWellFormed(b);
  }

  lemma ExtractAreasWellFormed(b: Batch, target: Vector)
    requires BatchOK(b) && PoolWellFormed(b.pool)
    ensures AllWellFormed(ExtractSelectedAreaFunctions(b, target)) && AllWellFormed(ExtractSelectedAreasFunctions(b, target))
  {
    forall t | t in ExtractSelectedAreaFunctions(b, target) ensures WellFormed(t) {
      var i, j :| 0 <= i < |b.grid| && 0 <= j < |b.selection| &&
        t == Apply(ExtractSelectedArea, [NodeArg(b, b.grid[i]), NodeArg(b, b.selection[j])]);
      TwoNodesWellFormed(b.pool, b.grid[i], b.selection[j], ExtractSelectedArea);
    }
    forall t | t in ExtractSelectedAreasFunctions(b, target) ensures WellFormed(t) {
      var i, j :| 0 <= i < |b.grid| && 0 <= j < |b.selections| &&
        t == Apply(ExtractSelectedAreas, [NodeArg(b, b.grid[i]), NodeArg(b, b.selections[j])]);
      TwoNodesWellFormed(b.pool, b.grid[i], b.selections[j], ExtractSelectedAreas);
    }
  }

  lemma SelectionFunctionsWellFormed(b: Batch, target: Vector)
    requires BatchOK(b) && TargetOK(target) && PoolWellFormed(b.pool)
    ensures AllWellFormed(SplitSelectionFunctions(b)) && AllWellFormed(FilterSelectionsFunctions(b))
    ensures AllWellFormed(MergeSelectionsFunctions(b)) && AllWellFormed(ExtendToBoundsFunctions(b))
    ensures AllWellFormed(ExtractSelectedAreaFunctions(b, target)) && AllWellFormed(ExtractSelectedAreasFunctions(b, target))
  {
    UnaryWellFormed(b, b.selection, SplitSelectionIntoConnectedAreas);
    UnaryWellFormed(b, b.selection, SplitSelectionIntoConnectedAreasNoDiagonals);
    UnaryWellFormed(b, b.selection, SplitSelectionIntoConnectedAreasSkipGaps);
    UnaryWellFormed(b, b.selections, FilterSelectionsTouchingEdge);
    UnaryWellFormed(b, b.selections, FilterSelectionsNotTouchingEdge);
    UnaryWellFormed(b, b.selection, ExtendSelectionToBounds);
    UnaryWellFormed(b, b.selections, ExtendSelectionsToBounds);
    forall t | t in MergeSelectionsFunctions(b) ensures WellFormed(t) {
      var i :| 0 <= i < |b.selections| && t == Apply(MergeSelections, [NodeArg(b, b.selections[i])]);
      NodeWellFormed(b.pool, b.selections[i], MergeSelections);
    }
    ExtractAreasWellFormed(b, target);
  }

  lemma CropWellFormed(b: Batch, target: Vector, op: OpName)
    requires BatchOK(b) && PoolWellFormed(b.pool)
    ensures AllWellFormed(CropFunctions(b, target, op))
  {
    forall t | t in CropFunctions(b, target, op) ensures WellFormed(t) {
      CropTermWellFormed(b, target, op, t);
    }
  }

  lemma CropTermWellFormed(b: Batch, target: Vector, op: OpName, t: Term)
    requires BatchOK(b) && PoolWellFormed(b.pool) && t in CropFunctions(b, target, op)
    ensures WellFormed(t)
  {
    var i, x :| 0 <= i < |b.grid| && t == Apply(op, [NodeArg(b, b.grid[i]), Const(x)]);
    NodeAndConstantWellFormed(b.pool, b.grid[i], op, x);
  }

  lemma CropFunctionsWellFormed(b: Batch, target: Vector)
    requires BatchOK(b) && TargetOK(target) && PoolWellFormed(b.pool)
    ensures AllWellFormed(CropFunctions(b, target, ExtractIslands))
    ensures AllWellFormed(CropFunctions(b, target, ExtractColorPatches))
    ensures AllWellFormed(CropFunctions(b, target, ExtractColorPatch))
  {
    CropWellFormed(b, target, ExtractIslands);
    CropWellFormed(b, target, ExtractColorPatches);
    CropWellFormed(b, target, ExtractColorPatch);
  }

  lemma ConcatenateWellFormed(b: Batch, target: Vector)
    requires BatchOK(b) && PoolWellFormed(b.pool)
    ensures AllWellFormed(ConcatenateFunctions(b, target))
  {
    forall t | t in ConcatenateFunctions(b, target) ensures WellFormed(t) {
      ConcatenateTermWellFormed(b, target, t);
    }
  }

  lemma ConcatenateTermWellFormed(b: Batch, target: Vector, t: Term)
    requires BatchOK(b) && PoolWellFormed(b.pool) && t in ConcatenateFunctions(b, target)
    ensures WellFormed(t)
  {
    var hs := HalfHeight(b.grid, target);
    var ws := HalfWidth(b.grid, target);
    assert Listed(hs, b.pool) && Listed(ws, b.pool);
    if i, j :| 0 <= i <= j < |hs| && t == Apply(ConcatenateTopBottom, [NodeArg(b, hs[i]), NodeArg(b, hs[j])]) {
      TwoNodesWellFormed(b.pool, hs[i], hs[j], ConcatenateTopBottom);
    } else {
      var i, j :| 0 <= i <= j < |ws| && t == Apply(ConcatenateLeftRight, [NodeArg(b, ws[i]), NodeArg(b, ws[j])]);
      TwoNodesWellFormed(b.pool, ws[i], ws[j], ConcatenateLeftRight);
    }
  }

  lemma ConcatenateSequenceWellFormed(b: Batch, target: Vector)
    requires BatchOK(b) && PoolWellFormed(b.pool)
    ensures AllWellFormed(ConcatenateSequenceFunctions(b, target))
  {
    forall t | t in ConcatenateSequenceFunctions(b, target) ensures WellFormed(t) {
      ConcatenateSequenceTermWellFormed(b, target, t);
    }
  }

  lemma ConcatenateSequenceTermWellFormed(b: Batch, target: Vector, t: Term)
    requires BatchOK(b) && PoolWellFormed(b.pool) && t in ConcatenateSequenceFunctions(b, target)
    ensures WellFormed(t)
  {
    var i :| 0 <= i < |b.grids| && t.Apply? && t == Apply(t.op, [NodeArg(b, b.grids[i])]);
    NodeWellFormed(b.pool, b.grids[i], t.op);
  }

  lemma SplitWellFormed(b: Batch, target: Vector)
    requires BatchOK(b) && PoolWellFormed(b.pool)
    ensures AllWellFormed(SplitFunctions(b, target))
  {
    forall t | t in SplitFunctions(b, target) ensures WellFormed(t) {
      SplitTermWellFormed(b, target, t);
    }
  }

  lemma SplitTermWellFormed(b: Batch, target: Vector, t: Term)
    requires BatchOK(b) && PoolWellFormed(b.pool) && t in SplitFunctions(b, target)
    ensures WellFormed(t)
  {
    var i :| 0 <= i < |b.grid| && t.Apply? && t == Apply(t.op, [NodeArg(b, b.grid[i])]);
    NodeWellFormed(b.pool, b.grid[i], t.op);
  }

  lemma ShapeFunctionsWellFormed(b: Batch, target: Vector)
    requires BatchOK(b) && TargetOK(target) && PoolWellFormed(b.pool)
    ensures AllWellFormed(ConcatenateFunctions(b, target)) && AllWellFormed(ConcatenateSequenceFunctions(b, target))
    ensures AllWellFormed(SplitFunctions(b, target))
  {
    ConcatenateWellFormed(b, target);
    ConcatenateSequenceWellFormed(b, target);
    SplitWellFormed(b, target);
  }

  lemma LogicWellFormed(b: Batch)
    requires BatchOK(b) && PoolWellFormed(b.pool)
    ensures AllWellFormed(LogicFunctions(b))
  {
    forall t | t in LogicFunctions(b) ensures WellFormed(t) {
      LogicTermWellFormed(b, t);
    }
  }

  lemma LogicTermWellFormed(b: Batch, t: Term)
    requires BatchOK(b) && PoolWellFormed(b.pool) && t in LogicFunctions(b)
    ensures WellFormed(t)
  {
    if i, op :| 0 <= i < |b.grids| && t == Apply(op, [Sub(Apply(TakeFirst, [NodeArg(b, b.grids[i])])), Sub(Apply(TakeLast, [NodeArg(b, b.grids[i])]))]) {
      NodeWellFormed(b.pool, b.grids[i], TakeFirst);
      NodeWellFormed(b.pool, b.grids[i], TakeLast);
      TwoTermsWellFormed(Apply(TakeFirst, [NodeArg(b, b.grids[i])]), Apply(TakeLast, [NodeArg(b, b.grids[i])]), op);
    } else {
      var i, j :| 0 <= i < j < |b.grid| && t == Apply(ElementwiseEqualOr, [NodeArg(b, b.grid[i]), NodeArg(b, b.grid[j])]);
      TwoNodesWellFormed(b.pool, b.grid[i], b.grid[j], ElementwiseEqualOr);
    }
  }

  lemma SymmetryWellFormed(b: Batch)
    requires BatchOK(b) && PoolWellFormed(b.pool)
    ensures AllWellFormed(SymmetryFunctions(b))
  {
    forall t | t in SymmetryFunctions(b) ensures WellFormed(t) {
      SymmetryTermWellFormed(b, t);
    }
  }

  lemma SymmetryTermWellFormed(b: Batch, t: Term)
    requires BatchOK(b) && PoolWellFormed(b.pool) && t in SymmetryFunctions(b)
    ensures WellFormed(t)
  {
    if i :| 0 <= i < |b.grid| && t.Apply? && t == Apply(t.op, [NodeArg(b, b.grid[i])]) {
      NodeWellFormed(b.pool, b.grid[i], t.op);
    } else {
      var i, j :| 0 <= i < |b.grid| && 0 <= j < |b.selection| &&
        t.Apply? && t == Apply(t.op, [NodeArg(b, b.grid[i]), NodeArg(b, b.selection[j])]);
      TwoNodesWellFormed(b.pool, b.grid[i], b.selection[j], t.op);
    }
  }

  lemma OtherFunctionsWellFormed(b: Batch)
    requires BatchOK(b) && PoolWellFormed(b.pool)
    ensures AllWellFormed(LogicFunctions(b)) && AllWellFormed(SymmetryFunctions(b))
    ensures AllWellFormed(TakeFunctions(b)) && AllWellFormed(SortByAreaFunctions(b))
  {
    LogicWellFormed(b);
    SymmetryWellFormed(b);
    UnaryWellFormed(b, b.grids, TakeFirst);
    UnaryWellFormed(b, b.selections, TakeFirst);
    UnaryWellFormed(b, b.grids, TakeLast);
    UnaryWellFormed(b, b.selections, TakeLast);
    UnaryWellFormed(b, b.grids, TakeGridWithUniqueColors);
    UnaryWellFormed(b, b.grids, SortByArea);
    UnaryWellFormed(b, b.selections, SortByArea);
  }

  /** Every candidate applies its operation to a node first, over well-formed nodes. */
  lemma GeneratedWellFormed(b: Batch, target: Vector)
    requires BatchOK(b) && TargetOK(target) && PoolWellFormed(b.pool)
    ensures AllWellFormed(GenerateFunctions(b, target))
  {
    ColorFunctionsWellFormed(b, target);
    SwitchFunctionsWellFormed(b, target);
    SelectFunctionsWellFormed(b);
    SelectionFunctionsWellFormed(b, target);
    CropFunctionsWellFormed(b, target);
    ShapeFunctionsWellFormed(b, target);
    OtherFunctionsWellFormed(b);
  }

  // ---- the sampled batch ----

  /** The type of the first position, when every position has it; `next` on an empty tuple raises. */
  function FirstType(v: Vector): (r: Option<Kind>)
    requires |v| > 0
    ensures r == CommonType(v)
  {
    if forall i :: 0 <= i < |v| ==> KindOf(v[i]) == KindOf(v[0]) then Some(KindOf(v[0])) else None
  }

  /** The `NodeCollection` of `full_search.py`: a set of nodes filed by the type all their positions share. */
  class NodeCollection {
    var members: set<Vector>
    var byType: map<Kind, set<Vector>>

    ghost predicate Valid()
      reads this
    {
      forall k :: Lookup(byType, k) == set v | v in members && CommonType(v) == Some(k)
    }

    /** `NodeCollection(iterable)`: the set of the nodes, filed by `_filter_by_type`. */
    constructor (nodes: seq<Vector>)
      requires forall i :: 0 <= i < |nodes| ==> |nodes[i]| > 0
      ensures members == Members(nodes) && Valid()
    {
      members := Members(nodes);
      byType := map[];
      new;
      for i := 0 to |nodes|
        invariant members == Members(nodes)
        invariant forall k :: Lookup(byType, k) == set v | v in Members(nodes[..i]) && CommonType(v) == Some(k)
      {
        PrefixSet(nodes, i);
        var t := FirstType(nodes[i]);
        if t.Some? {
          ghost var before := byType;
          byType := byType[t.value := Lookup(byType, t.value) + {nodes[i]}];
          forall q ensures Lookup(byType, q) == set v | v in Members(nodes[..i + 1]) && CommonType(v) == Some(q) {
            if q != t.value {
              assert Lookup(byType, q) == Lookup(before, q);
            }
          }
        }
      }
      assert nodes[..|nodes|] == nodes;
    }

    /** `of_type(type_)`: the nodes of that type; the key is created when missing. */
    method OfType(k: Kind) returns (r: set<Vector>)
      requires Valid()
      modifies this`byType
      ensures r == set v | v in members && CommonType(v) == Some(k)
      ensures byType == old(byType)[k := r] && Valid()
    {
      r := Lookup(byType, k);
      byType := byType[k := r];
      forall q ensures Lookup(byType, q) == set v | v in members && CommonType(v) == Some(q) {
        if q != k {
          assert Lookup(byType, q) == Lookup(old(byType), q);
        }
      }
    }
  }

  /** A set iterated: each member once, in an order the model does not fix. */
  predicate Distinct(xs: seq<Vector>) {
    forall i, j :: 0 <= i < j < |xs| ==> xs[i] != xs[j]
  }

  lemma MembersAppend(xs: seq<Vector>, x: Vector)
    ensures Members(xs + [x]) == Members(xs) + {x}
  {
    PrefixSet(xs + [x], |xs|);
    assert (xs + [x])[..|xs|] == xs && (xs + [x])[..|xs| + 1] == xs + [x];
  }

  lemma DistinctAppend(xs: seq<Vector>, x: Vector)
    requires Distinct(xs) && x !in Members(xs)
    ensures Distinct(xs + [x])
  {
    forall i | 0 <= i < |xs| ensures xs[i] != x {
      assert xs[i] in Members(xs);
    }
  }

  /** `for v in s`: the members of a set, each once, in some order. */
  method Enumerate(s: set<Vector>) returns (xs: seq<Vector>)
    ensures Members(xs) == s && Distinct(xs)
  {
    xs := [];
    var rest := s;
    while rest != {}
      invariant rest <= s && Members(xs) == s - rest && Distinct(xs)
      decreases |rest|
    {
      var x :| x in rest;
      MembersAppend(xs, x);
      DistinctAppend(xs, x);
      xs := xs + [x];
      rest := rest - {x};
    }
  }

  /**
   * The set a generator comprehension builds: nodes are equal when their
   * values are, so it keeps one node per value, whichever came first.
   */
  method Dedupe(ts: set<Term>, src: Vector, sem: Semantics) returns (m: map<Vector, Term>)
    ensures DedupedFrom(m, ts, src, sem)
  {
    m := map[];
    var rest := ts;
    while rest != {}
      invariant rest <= ts
      invariant forall v :: v in m ==> m[v] in ts && ValueOf(m[v], src, sem) == v
      invariant forall t :: t in ts && t !in rest ==> ValueOf(t, src, sem) in m
      decreases |rest|
    {
      var t :| t in rest;
      var v := ValueOf(t, src, sem);
      if v !in m {
        m := m[v := t];
      }
      rest := rest - {t};
    }
  }

  /** `m` keeps one node of `ts` per value, and every value of `ts` has one. */
  ghost predicate DedupedFrom(m: map<Vector, Term>, ts: set<Term>, src: Vector, sem: Semantics) {
    && (forall v :: v in m ==> m[v] in ts && ValueOf(m[v], src, sem) == v)
    && (forall t :: t in ts ==> ValueOf(t, src, sem) in m)
  }

  /** The nodes of `m` whose values `nodes` does not hold yet. */
  function Unseen(m: map<Vector, Term>, nodes: map<Vector, Term>): map<Vector, Term> {
    map v | v in m && v !in nodes :: m[v]
  }

  /** Every node the batch files is one of `candidates`. */
  ghost predicate SampledFrom(b: Batch, candidates: set<Vector>) {
    forall v :: v in b.grid || v in b.selection || v in b.grids || v in b.selections ==> v in candidates
  }

  lemma ListedFrom(xs: seq<Vector>, s: set<Vector>, candidates: set<Vector>, pool: map<Vector, Term>)
    requires Members(xs) == s && s <= candidates && candidates <= pool.Keys
    ensures Listed(xs, pool) && forall v :: v in xs ==> v in candidates
  {
    assert forall i :: 0 <= i < |xs| ==> xs[i] in Members(xs);
  }

  /** The nodes filed under `Grid` hold a grid at every position, and have at least one. */
  lemma FiledGrids(xs: seq<Vector>, s: set<Vector>)
    requires Members(xs) == s && forall v :: v in s ==> CommonType(v) == Some(GridK)
    ensures forall i :: 0 <= i < |xs| ==> |xs[i]| > 0 && AllGrids(xs[i])
  {
    forall i | 0 <= i < |xs| ensures |xs[i]| > 0 && AllGrids(xs[i]) {
      assert xs[i] in Members(xs);
      var v := xs[i];
      forall k | 0 <= k < |v| ensures v[k].Some? && v[k].value.GridV? {
        assert KindOf(v[k]) == GridK;
      }
    }
  }

  /** A pool of nodes, each filed under the value it computes from the source. */
  predicate Pooled(m: map<Vector, Term>, src: Vector, sem: Semantics) {
    forall v :: v in m ==> WellFormed(m[v]) && ValueOf(m[v], src, sem) == v
  }

  /** Every node of a pool has one position per constraint. */
  lemma PooledLength(m: map<Vector, Term>, src: Vector, sem: Semantics, v: Vector)
    requires Pooled(m, src, sem) && v in m
    ensures |v| == |src|
  {
    ValuePointwise(m[v], src, sem);
  }

  /** The outcome of one `_expand`: a node whose value is the target, none yet, or `NoExpandableNodes`. */
  datatype Step = Solved(node: Term) | Pending | NoExpandable

  /** `Graph` of `full_search.py`: every node found so far, and those still worth expanding. */
  class Graph {
    const target: Vector
    const src: Vector
    const sem: Semantics
    const maxDepth: nat
    const maxUsages: nat
    const batchSize: nat
    /** How often a node has been used; `full_search.py` reads a `usages` attribute no node defines. */
    const usages: Term -> nat
    var nodes: map<Vector, Term>
    var expandable: map<Vector, Term>

    ghost predicate Valid()
      reads this
    {
      && TargetOK(target) && |src| > 0
      && Pooled(nodes, src, sem) && Pooled(expandable, src, sem)
      && expandable.Keys <= nodes.Keys
      && forall v :: v in expandable ==> IsValid(v) && Depth(expandable[v]) < maxDepth
    }

    /** The new nodes `_process` files as expandable: valid values, shallower than the limit. */
    function WorthExpanding(m: map<Vector, Term>): map<Vector, Term>
      requires forall v :: v in m ==> WellFormed(m[v])
    {
      map v | v in m && IsValid(v) && Depth(m[v]) < maxDepth :: m[v]
    }

    /** `Graph(initial_nodes, target, ...)`: processes the initial nodes and ignores whether one is the target. */
    constructor (initial: map<Vector, Term>, target: Vector, src: Vector, sem: Semantics, usages: Term -> nat,
                 maxDepth: nat, maxUsages: nat, batchSize: nat)
      requires TargetOK(target) && |src| > 0 && Pooled(initial, src, sem)
      ensures Valid()
      ensures this.target == target && this.src == src && this.sem == sem && this.usages == usages
      ensures this.maxDepth == maxDepth && this.maxUsages == maxUsages && this.batchSize == batchSize
      ensures nodes == initial && expandable == WorthExpanding(initial)
    {
      this.target := target;
      this.src := src;
      this.sem := sem;
      this.usages := usages;
      this.maxDepth := maxDepth;
      this.maxUsages := maxUsages;
      this.batchSize := batchSize;
      nodes := map[];
      expandable := map[];
      new;
      var _ := Process(initial);
      assert initial + map[] == initial;
      assert WorthExpanding(initial) + map[] == WorthExpanding(initial);
    }

    /**
     * `_process(new_nodes)`: add the nodes (an equal one already present
     * stays), file the expandable ones, and return the one whose value is
     * the target, if any.
     */
    method Process(added: map<Vector, Term>) returns (found: Option<Term>)
      requires Valid() && Pooled(added, src, sem)
      modifies this`nodes, this`expandable
      ensures Valid()
      ensures nodes == added + old(nodes)
      ensures expandable == WorthExpanding(added) + old(expandable)
      ensures found.Some? <==> target in added
      ensures found.Some? ==> found.value == added[target]
    {
      nodes := added + nodes;
      expandable := WorthExpanding(added) + expandable;
      var pending := added.Keys;
      while pending != {}
        invariant pending <= added.Keys
        invariant target in added ==> target in pending
        decreases |pending|
      {
        var v :| v in pending;
        if v == target {
          return Some(added[v]);
        }
        pending := pending - {v};
      }
      return None;
    }

    /** The expandable nodes used at most `max_usages` times. */
    function Candidates(): set<Vector>
      reads this`expandable
    {
      set v | v in expandable && usages(expandable[v]) <= maxUsages
    }

    /** `random.choices(candidates, weights, k)`: `k` draws with replacement, `k` the smaller of the two sizes. */
    method Draw(candidates: set<Vector>) returns (chosen: seq<Vector>)
      requires candidates != {}
      ensures |chosen| == if |candidates| < batchSize then |candidates| else batchSize
      ensures forall i :: 0 <= i < |chosen| ==> chosen[i] in candidates
    {
      var sampleSize := if |candidates| < batchSize then |candidates| else batchSize;
      var c :| c in candidates;
      ghost var repeated := seq(sampleSize, i => c);
      assert |repeated| == sampleSize && forall i :: 0 <= i < |repeated| ==> repeated[i] in candidates;
      chosen :| |chosen| == sampleSize && forall i :: 0 <= i < |chosen| ==> chosen[i] in candidates;
    }

    /**
     * The batch `_expand` hands to the generators: `random.choices` draws
     * up to `expand_batch_size` candidates with replacement, and
     * `NodeCollection` files the distinct ones by type.
     */
    method Sample(candidates: set<Vector>) returns (b: Batch)
      requires Valid() && candidates != {} && candidates <= expandable.Keys
      ensures BatchOK(b) && b.pool == expandable && SampledFrom(b, candidates)
    {
      var chosen := Draw(candidates);
      forall i | 0 <= i < |chosen| ensures |chosen[i]| > 0 {
        PooledLength(expandable, src, sem, chosen[i]);
      }
      var expandNext := new NodeCollection(chosen);
      var gridSet := expandNext.OfType(GridK);
      var selectionSet := expandNext.OfType(SelectionK);
      var gridsSet := expandNext.OfType(GridsK);
      var selectionsSet := expandNext.OfType(SelectionsK);
      var grid := Enumerate(gridSet);
      var selection := Enumerate(selectionSet);
      var grids := Enumerate(gridsSet);
      var selections := Enumerate(selectionsSet);
      b := Batch(expandable, grid, selection, grids, selections);
      assert expandNext.members <= candidates;
      ListedFrom(grid, gridSet, candidates, expandable);
      ListedFrom(selection, selectionSet, candidates, expandable);
      ListedFrom(grids, gridsSet, candidates, expandable);
      ListedFrom(selections, selectionsSet, candidates, expandable);
      FiledGrids(grid, gridSet);
    }

    /**
     * `_expand`: sample up to `expand_batch_size` candidates (with
     * replacement, by a likelihood the model does not fix), generate every
     * function over them, and process the ones whose value is new. The
     * ghost `batch` is the sample and `generated` the candidates kept one
     * per value.
     */
    method Expand() returns (step: Step, ghost batch: Batch, ghost generated: map<Vector, Term>)
      requires Valid()
      modifies this`nodes, this`expandable
      ensures Valid()
      ensures step.NoExpandable? <==> old(Candidates()) == {}
      ensures step.NoExpandable? ==> nodes == old(nodes) && expandable == old(expandable)
      ensures !step.NoExpandable? ==> BatchOK(batch) && batch.pool == old(expandable) && SampledFrom(batch, old(Candidates()))
      ensures !step.NoExpandable? ==> DedupedFrom(generated, GenerateFunctions(batch, target), src, sem)
      ensures !step.NoExpandable? ==> Pooled(generated, src, sem)
      ensures !step.NoExpandable? ==> nodes == Unseen(generated, old(nodes)) + old(nodes)
      ensures !step.NoExpandable? ==> expandable == WorthExpanding(Unseen(generated, old(nodes))) + old(expandable)
      ensures step.Solved? <==> !step.NoExpandable? && target in generated && target !in old(nodes)
      ensures step.Solved? ==> step.node == generated[target]
      ensures forall v :: v in old(nodes) ==> v in nodes && nodes[v] == old(nodes)[v]
      ensures forall v :: v in old(expandable) ==> v in expandable && expandable[v] == old(expandable)[v]
      ensures step.Solved? ==> target !in old(nodes) && target in nodes && nodes[target] == step.node
      ensures step.Solved? ==> WellFormed(step.node) && ValueOf(step.node, src, sem) == target
    {
      var candidates := Candidates();
      if candidates == {} {
        return NoExpandable, Batch(map[], [], [], [], []), map[];
      }
      var b := Sample(candidates);
      GeneratedWellFormed(b, target);
      var kept := Dedupe(GenerateFunctions(b, target), src, sem);
      var found := Process(Unseen(kept, nodes));
      step, batch, generated := if found.Some? then Solved(found.value) else Pending, b, kept;
    }

    /** `solve`: expand until a node is the target or nothing is left to expand, at most `fuel` times. */
    method Solve(fuel: nat) returns (r: Option<Term>)
      requires Valid()
      modifies this`nodes, this`expandable
      ensures Valid()
      ensures r.Some? ==> WellFormed(r.value) && ValueOf(r.value, src, sem) == target
      ensures r.Some? ==> target in nodes && nodes[target] == r.value
    {
      for i := 0 to fuel
        invariant Valid()
      {
        var step;
        ghost var batch, generated;
        step, batch, generated := Expand();
        if step.Solved? {
          return Some(step.node);
        }
        if step.NoExpandable? {
          return None;
        }
      }
      return None;
    }
  }

  // ---- the search as written ----

  /**
   * The expandability test of `full_search.py` as written: it compares the
   * bound method `node.depth` with an integer, which raises `TypeError`
   * once the value is valid (the `and` skips it otherwise).
   */
  function ExpandableAsWritten(v: Vector): (r: Result<bool>)
  {
    if IsValid(v) then Failure("TypeError") else Success(false)
  }

  /** Processing any node with a valid value raises, so the graph cannot even hold the source. */
  lemma DepthGuardRaises(v: Vector)
    ensures ExpandableAsWritten(v).Failure? <==> IsValid(v)
    ensures ExpandableAsWritten(v).Success? ==> !ExpandableAsWritten(v).value
  {
  }

  /** The candidate list as written: reading `node.usages` raises `AttributeError` for any expandable node. */
  function CandidatesAsWritten(expandable: map<Vector, Term>): (r: Result<set<Vector>>)
  {
    if expandable == map[] then Success({}) else Failure("AttributeError")
  }

  /** A graph that has anything to expand raises instead of sampling from it. */
  lemma UsagesRaises(expandable: map<Vector, Term>)
    ensures CandidatesAsWritten(expandable).Success? <==> expandable == map[]
    ensures CandidatesAsWritten(expandable).Success? ==> CandidatesAsWritten(expandable).value == {}
  {
  }

  /**
   * The switch test of both generator files as written: a `Function` has
   * no `operation` attribute (its callable is `callable_`), so the test
   * raises `AttributeError` for every node that is not a constant.
   */
  function SwitchGuardAsWritten(t: Term): (r: Result<bool>)
  {
    if t.Apply? then Failure("AttributeError") else Success(true)
  }

  /** As written, any computed grid node in the batch stops `switch_color_functions`; as intended, only a swap is skipped. */
  lemma SwitchGuardRaises(t: Term)
    ensures SwitchGuardAsWritten(t).Failure? <==> t.Apply?
    ensures t.Apply? && t.op != SwitchColor ==> !IsSwitch(t)
    ensures SwitchGuardAsWritten(t).Success? ==> !IsSwitch(t)
  {
  }
}
