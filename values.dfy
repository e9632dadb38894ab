/**
 * The values the function graph works on. A node's value holds one element
 * per constraint (a "value tuple"); an element is a grid, a selection, a
 * tuple of either, a colour, or `None` where an operation did not apply.
 * The helpers here are the vectorized properties the candidate generators
 * and the typed index ask of such tuples.
 */
module Values {
  import opened Wrappers
  import opened Arguments

  /** One position of a value tuple; `None` is the source's `None`. */
  type Elem = Option<Value>

  /** A value tuple, one element per constraint. */
  type Vector = seq<Elem>

  /** The Python type of an element, as `type(element)` distinguishes them. */
  datatype Kind = GridK | SelectionK | GridsK | SelectionsK | IntK | NoneK

  function KindOf(e: Elem): Kind {
    match e
    case None => NoneK
    case Some(GridV(_)) => GridK
    case Some(SelectionV(_)) => SelectionK
    case Some(GridsV(_)) => GridsK
    case Some(SelectionsV(_)) => SelectionsK
    case Some(IntV(_)) => IntK
  }

  function Kinds(v: Vector): (r: seq<Kind>)
    ensures |r| == |v| && forall i :: 0 <= i < |v| ==> r[i] == KindOf(v[i])
  {
    seq(|v|, i requires 0 <= i < |v| => KindOf(v[i]))
  }

  /** `common_type`: the type every position has, or None for a mixed or empty tuple. */
  function CommonType(v: Vector): (r: Option<Kind>)
    ensures r.Some? <==> |v| > 0 && forall i :: 0 <= i < |v| ==> KindOf(v[i]) == KindOf(v[0])
    ensures r.Some? ==> forall i :: 0 <= i < |v| ==> KindOf(v[i]) == r.value
  {
    Common(Kinds(v))
  }

  /** `is_valid`: no position is `None`. */
  predicate IsValid(v: Vector) {
    forall i :: 0 <= i < |v| ==> v[i].Some?
  }

  /** `is_scalar(node, type_)`: every position has type `k`. */
  predicate IsScalar(v: Vector, k: Kind) {
    forall i :: 0 <= i < |v| ==> KindOf(v[i]) == k
  }

  predicate IsSequenceKind(k: Kind) {
    k == GridsK || k == SelectionsK
  }

  /** Grids, selections and tuples of them carry shapes. */
  predicate HasShape(k: Kind) {
    k in {GridK, SelectionK, GridsK, SelectionsK}
  }

  /** The grids of a tuple whose every position is a grid. */
  predicate AllGrids(v: Vector) {
    forall i :: 0 <= i < |v| ==> v[i].Some? && v[i].value.GridV?
  }

  // ---- element properties: `element.shape`, `.height`, `.width` ----

  /** `element.shape`: a scalar's shape, a tuple's common shape, None for a tuple whose shapes differ. */
  function ShapeOf(e: Elem): Option<(nat, nat)> {
    match e
    case Some(GridV(g)) => Some(Shape(g))
    case Some(SelectionV(m)) => Some(Shape(m))
    case Some(GridsV(gs)) => SeqShape(gs)
    case Some(SelectionsV(ms)) => SeqShape(ms)
    case _ => None
  }

  function HeightOf(e: Elem): Option<nat> {
    match e
    case Some(GridV(g)) => Some(Height(g))
    case Some(SelectionV(m)) => Some(Height(m))
    case Some(GridsV(gs)) => SeqHeight(gs)
    case Some(SelectionsV(ms)) => SeqHeight(ms)
    case _ => None
  }

  function WidthOf(e: Elem): Option<nat> {
    match e
    case Some(GridV(g)) => Some(Width(g))
    case Some(SelectionV(m)) => Some(Width(m))
    case Some(GridsV(gs)) => SeqWidth(gs)
    case Some(SelectionsV(ms)) => SeqWidth(ms)
    case _ => None
  }

  /** The shapes of a tuple element's items, in order; None for a scalar. */
  function ItemShapes(e: Elem): Option<seq<(nat, nat)>> {
    match e
    case Some(GridsV(gs)) => Some(Shapes(gs))
    case Some(SelectionsV(ms)) => Some(Shapes(ms))
    case _ => None
  }

  /** The number of items of a tuple element; None for a scalar. */
  function ItemCount(e: Elem): Option<nat> {
    match e
    case Some(GridsV(gs)) => Some(|gs|)
    case Some(SelectionsV(ms)) => Some(|ms|)
    case _ => None
  }

  // ---- vectorized properties ----

  /** `shape(vector)`: the shape of every position. */
  function ShapeVector(v: Vector): (r: seq<Option<(nat, nat)>>)
    ensures |r| == |v| && forall i :: 0 <= i < |v| ==> r[i] == ShapeOf(v[i])
  {
    seq(|v|, i requires 0 <= i < |v| => ShapeOf(v[i]))
  }

  function HeightVector(v: Vector): (r: seq<Option<nat>>)
    ensures |r| == |v| && forall i :: 0 <= i < |v| ==> r[i] == HeightOf(v[i])
  {
    seq(|v|, i requires 0 <= i < |v| => HeightOf(v[i]))
  }

  function WidthVector(v: Vector): (r: seq<Option<nat>>)
    ensures |r| == |v| && forall i :: 0 <= i < |v| ==> r[i] == WidthOf(v[i])
  {
    seq(|v|, i requires 0 <= i < |v| => WidthOf(v[i]))
  }

  function SumHeights(gs: seq<Grid>): nat {
    if gs == [] then 0 else SumHeights(gs[..|gs| - 1]) + Height(gs[|gs| - 1])
  }

  function SumWidths(gs: seq<Grid>): nat {
    if gs == [] then 0 else SumWidths(gs[..|gs| - 1]) + Width(gs[|gs| - 1])
  }

  /** `height_sum(vector)`: the total height of the grids of each tuple; None where a position is not a tuple of grids. */
  function HeightSum(v: Vector): (r: seq<Option<nat>>)
    ensures |r| == |v|
    ensures forall i :: 0 <= i < |v| ==> (r[i].Some? <==> v[i].Some? && v[i].value.GridsV?)
  {
    seq(|v|, i requires 0 <= i < |v| => if v[i].Some? && v[i].value.GridsV? then Some(SumHeights(v[i].value.grids)) else None)
  }

  function WidthSum(v: Vector): (r: seq<Option<nat>>)
    ensures |r| == |v|
    ensures forall i :: 0 <= i < |v| ==> (r[i].Some? <==> v[i].Some? && v[i].value.GridsV?)
  {
    seq(|v|, i requires 0 <= i < |v| => if v[i].Some? && v[i].value.GridsV? then Some(SumWidths(v[i].value.grids)) else None)
  }

  /**
   * `multiply(vector, factor)`: every position times `factor`. A missing
   * value (None) is kept, where `None * factor` would raise `TypeError`.
   * The callers multiply the heights or widths of grid nodes and of the
   * target, which holds the task's output grids, so no position is None
   * there.
   */
  function Multiply(xs: seq<Option<nat>>, factor: nat): (r: seq<Option<nat>>)
    ensures |r| == |xs|
    ensures forall i :: 0 <= i < |xs| ==> r[i].Some? == xs[i].Some?
    ensures forall i :: 0 <= i < |xs| && xs[i].Some? ==> r[i].value == xs[i].value * factor
  {
    seq(|xs|, i requires 0 <= i < |xs| => if xs[i].Some? then Some(xs[i].value * factor) else None)
  }

  /** Equal heights at every position exactly when the doubled heights are equal: the halving heuristic loses nothing. */
  lemma {:induction false} MultiplyInjective(xs: seq<Option<nat>>, ys: seq<Option<nat>>, factor: nat)
    requires factor > 0 && |xs| == |ys|
    ensures Multiply(xs, factor) == Multiply(ys, factor) <==> xs == ys
  {
    if Multiply(xs, factor) == Multiply(ys, factor) {
      forall i | 0 <= i < |xs| ensures xs[i] == ys[i] {
        assert Multiply(xs, factor)[i] == Multiply(ys, factor)[i];
        if xs[i].Some? {
          Cancel(xs[i].value, ys[i].value, factor);
        }
      }
    }
  }

  lemma Cancel(a: nat, b: nat, factor: nat)
    requires factor > 0 && a * factor == b * factor
    ensures a == b
  {
  }

  // ---- `is_matching_*`: the predicate holds at every position ----

  /** At least two items, all alike: the body of `is_matching_shape`/`_height`/`_width`. */
  predicate AllAlike<T(==)>(xs: seq<T>) {
    |xs| >= 2 && forall k :: 0 <= k < |xs| ==> xs[k] == xs[0]
  }

  function Heights(shapes: seq<(nat, nat)>): (r: seq<nat>)
    ensures |r| == |shapes| && forall k :: 0 <= k < |r| ==> r[k] == shapes[k].0
  {
    seq(|shapes|, k requires 0 <= k < |shapes| => shapes[k].0)
  }

  function Widths(shapes: seq<(nat, nat)>): (r: seq<nat>)
    ensures |r| == |shapes| && forall k :: 0 <= k < |r| ==> r[k] == shapes[k].1
  {
    seq(|shapes|, k requires 0 <= k < |shapes| => shapes[k].1)
  }

  /** `is_matching_shape` over a tuple of item-shape lists: every position has two or more items of one shape. */
  predicate IsMatchingShape(lists: seq<Option<seq<(nat, nat)>>>) {
    forall i :: 0 <= i < |lists| ==> lists[i].Some? && AllAlike(lists[i].value)
  }

  predicate IsMatchingHeight(lists: seq<Option<seq<(nat, nat)>>>) {
    forall i :: 0 <= i < |lists| ==> lists[i].Some? && AllAlike(Heights(lists[i].value))
  }

  predicate IsMatchingWidth(lists: seq<Option<seq<(nat, nat)>>>) {
    forall i :: 0 <= i < |lists| ==> lists[i].Some? && AllAlike(Widths(lists[i].value))
  }

  /** The item shapes of every position of a vector of tuples. */
  function ItemShapesVector(v: Vector): (r: seq<Option<seq<(nat, nat)>>>)
    ensures |r| == |v| && forall i :: 0 <= i < |v| ==> r[i] == ItemShapes(v[i])
  {
    seq(|v|, i requires 0 <= i < |v| => ItemShapes(v[i]))
  }

  /**
   * The item shapes of `append(sequences, scalars)`: each tuple with the
   * scalar at the same position added at its end; as long as the shorter
   * argument, as `zip` is.
   */
  function AppendShapes(sequences: Vector, scalars: Vector): (r: seq<Option<seq<(nat, nat)>>>)
    ensures |r| == if |sequences| <= |scalars| then |sequences| else |scalars|
    ensures forall i :: 0 <= i < |r| ==>
      r[i] == (if ItemShapes(sequences[i]).Some? && ShapeOf(scalars[i]).Some?
               then Some(ItemShapes(sequences[i]).value + [ShapeOf(scalars[i]).value]) else None)
  {
    var n := if |sequences| <= |scalars| then |sequences| else |scalars|;
    seq(n, i requires 0 <= i < n =>
      if ItemShapes(sequences[i]).Some? && ShapeOf(scalars[i]).Some?
      then Some(ItemShapes(sequences[i]).value + [ShapeOf(scalars[i]).value]) else None)
  }

  /**
   * A vector of tuples matches in shape exactly when every tuple has at
   * least two items and a common shape: `is_matching_shape` agrees with the
   * tuple's own `shape` property.
   */
  lemma {:induction false} MatchingShapeIsCommonShape(v: Vector)
    requires forall i :: 0 <= i < |v| ==> v[i].Some? && v[i].value.GridsV?
    ensures IsMatchingShape(ItemShapesVector(v)) <==>
      forall i :: 0 <= i < |v| ==> |v[i].value.grids| >= 2 && SeqShape(v[i].value.grids).Some?
  {
    var lists := ItemShapesVector(v);
    forall i | 0 <= i < |v|
      ensures (lists[i].Some? && AllAlike(lists[i].value)) <==> (|v[i].value.grids| >= 2 && SeqShape(v[i].value.grids).Some?)
    {
      var gs := v[i].value.grids;
      assert lists[i] == Some(Shapes(gs));
      assert forall k :: 0 <= k < |gs| ==> Shapes(gs)[k] == Shape(gs[k]);
    }
  }

  // ---- colours ----

  /** `set(grid.used_colors())`. */
  function ColorSet(g: Grid): (r: set<int>)
    ensures forall c :: c in r <==> c in UsedColors(g)
  {
    set c | c in UsedColors(g)
  }

  /**
   * `used_colors(grid_vector)`: the colours every grid of the tuple uses.
   * `set.intersection` of nothing raises, and a non-grid has no colours, so
   * the tuple must be a non-empty tuple of grids.
   */
  function UsedColorsOf(v: Vector): (r: set<int>)
    requires |v| > 0 && AllGrids(v)
    ensures forall c :: c in r <==> forall i :: 0 <= i < |v| ==> c in UsedColors(v[i].value.grid)
  {
    var here := ColorSet(v[|v| - 1].value.grid);
    if |v| == 1 then here
    else
      var rest := UsedColorsOf(v[..|v| - 1]);
      assert forall i :: 0 <= i < |v| - 1 ==> v[..|v| - 1][i] == v[i];
      rest * here
  }

  /** The colours of a one-grid tuple are the grid's colours. */
  lemma UsedColorsSingle(g: Grid)
    ensures UsedColorsOf([Some(GridV(g))]) == ColorSet(g)
  {
  }

  /** A colour is used by the tuple exactly when it occurs in every grid. */
  lemma UsedColorsOccur(v: Vector, c: int)
    requires |v| > 0 && AllGrids(v)
    ensures c in UsedColorsOf(v) <==> forall i :: 0 <= i < |v| ==> Occurs(v[i].value.grid, c)
  {
  }

  // ---- the typed buckets of `function_generation.Graph` ----

  /** A tuple element all of whose items have type `k` (an empty tuple qualifies for any `k`). */
  predicate ItemsOfKind(e: Elem, k: Kind) {
    match e
    case Some(GridsV(gs)) => k == GridK || |gs| == 0
    case Some(SelectionsV(ms)) => k == SelectionK || |ms| == 0
    case _ => false
  }

  /** `is_sequence(node, type_)` as intended: every position is a tuple whose items all have type `k`. */
  predicate IsSequence(v: Vector, k: Kind) {
    forall i :: 0 <= i < |v| ==> ItemsOfKind(v[i], k)
  }

  /**
   * `is_sequence(node, type_)` as written: each position is tested only for
   * having a length, because the item test is a generator expression, which
   * is always true.
   */
  predicate IsSequenceAsWritten(v: Vector, k: Kind) {
    forall i :: 0 <= i < |v| ==> v[i].Some? && IsSequenceKind(KindOf(v[i]))
  }

  /** As written, a tuple of selections is sorted among the sequences of grids. */
  lemma SelectionsAmongGridSequences(m: Mask)
    ensures IsSequenceAsWritten([Some(SelectionsV([m]))], GridK)
    ensures !IsSequence([Some(SelectionsV([m]))], GridK)
  {
    var v := [Some(SelectionsV([m]))];
    assert !ItemsOfKind(v[0], GridK);
  }

  /** The intended test implies the written one, and for `k` the bucket it checks, the converse fails only on mixed kinds. */
  lemma {:induction false} SequenceTests(v: Vector, k: Kind)
    ensures IsSequence(v, k) ==> IsSequenceAsWritten(v, k)
    ensures IsSequenceAsWritten(v, GridK) && (forall i :: 0 <= i < |v| ==> KindOf(v[i]) == GridsK) ==> IsSequence(v, GridK)
  {
    if IsSequence(v, k) {
      forall i | 0 <= i < |v| ensures v[i].Some? && IsSequenceKind(KindOf(v[i])) {
        assert ItemsOfKind(v[i], k);
      }
    }
  }
}
