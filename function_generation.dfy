/**
 * The function generation of `function_generation.py`: a graph that admits
 * nodes with a value at every position, keeps the ones whose every position
 * is a grid or a mask (and the tuples of grids or of masks) at hand, and
 * generators that propose the next functions over those.
 *
 * As in the breadth-first search, nodes are equal when their values are, so
 * the graph keeps a map from a value tuple to the term of its node. Masks
 * are the `Selection` values of the language.
 */
module FunctionGeneration {
  import opened Wrappers
  import opened Arguments
  import opened Values
  import opened Terms
  import opened Collections
  import FullSearch
  import Selection

  /** The kinds `add` files under `_scalars` and `_sequences`. */
  const Tracked: set<Kind> := {GridK, SelectionK}

  /** `{node for node in nodes if is_valid(node)}`. */
  function Admitted(added: map<Vector, Term>): (r: map<Vector, Term>)
    ensures forall v :: v in r <==> v in added && IsValid(v)
    ensures forall v :: v in r ==> r[v] == added[v]
  {
    map v | v in added && IsValid(v) :: added[v]
  }

  /** What `scalars(k)` holds once the graph has the given nodes. */
  function ScalarsOf(nodes: map<Vector, Term>, k: Kind): set<Vector> {
    if k in Tracked then set v | v in nodes && IsScalar(v, k) else {}
  }

  /** What `sequences(k)` holds once the graph has the given nodes. */
  function SequencesOf(nodes: map<Vector, Term>, k: Kind): set<Vector> {
    if k in Tracked then set v | v in nodes && IsSequence(v, k) else {}
  }

  /** `Graph` of `function_generation.py`. */
  class Graph {
    const target: Vector
    /** The source the node values are computed from, and what the operations do; neither is a field of the original. */
    ghost const src: Vector
    ghost const sem: Semantics
    var nodes: map<Vector, Term>
    var scalars: map<Kind, set<Vector>>
    var sequences: map<Kind, set<Vector>>

    ghost predicate Valid()
      reads this
    {
      NodesOK() && ScalarsFiled() && SequencesFiled()
    }

    /** The admitted nodes: each has a value at every position, and is filed under that value. */
    ghost predicate NodesOK()
      reads this`nodes
    {
      && FullSearch.TargetOK(target) && |src| > 0
      && FullSearch.Pooled(nodes, src, sem)
      && (forall v :: v in nodes ==> IsValid(v))
    }

    ghost predicate ScalarsFiled()
      reads this`nodes, this`scalars
    {
      forall k :: Lookup(scalars, k) == ScalarsOf(nodes, k)
    }

    ghost predicate SequencesFiled()
      reads this`nodes, this`sequences
    {
      forall k :: Lookup(sequences, k) == SequencesOf(nodes, k)
    }

    /** `Graph(target)`: no nodes yet. */
    constructor (target: Vector, ghost src: Vector, ghost sem: Semantics)
      requires FullSearch.TargetOK(target) && |src| > 0
      ensures Valid() && this.target == target && this.src == src && this.sem == sem
      ensures nodes == map[] && scalars == map[] && sequences == map[]
    {
      this.target := target;
      this.src := src;
      this.sem := sem;
      nodes := map[];
      scalars := map[];
      sequences := map[];
    }

    /**
     * `add(nodes)`: admit the nodes with a value at every position (an equal
     * node already present stays) and file them under the grid and mask
     * buckets.
     */
    method Add(added: map<Vector, Term>)
      requires Valid() && FullSearch.Pooled(added, src, sem)
      modifies this`nodes, this`scalars, this`sequences
      ensures Valid()
      ensures nodes == Admitted(added) + old(nodes)
      ensures scalars == old(scalars)[GridK := ScalarsOf(nodes, GridK)][SelectionK := ScalarsOf(nodes, SelectionK)]
      ensures sequences == old(sequences)[GridK := SequencesOf(nodes, GridK)][SelectionK := SequencesOf(nodes, SelectionK)]
    {
      var valid := Admitted(added);
      nodes := valid + nodes;
      FileScalars(valid, old(nodes));
      FileSequences(valid, old(nodes));
    }

    /** The `_scalars` half of `add`. */
    method FileScalars(valid: map<Vector, Term>, ghost before: map<Vector, Term>)
      requires nodes == valid + before && forall k :: Lookup(scalars, k) == ScalarsOf(before, k)
      modifies this`scalars
      ensures ScalarsFiled()
      ensures scalars == old(scalars)[GridK := ScalarsOf(nodes, GridK)][SelectionK := ScalarsOf(nodes, SelectionK)]
    {
      BucketsGrow(valid, before, GridK);
      BucketsGrow(valid, before, SelectionK);
      scalars := scalars[GridK := Lookup(scalars, GridK) + set v | v in valid && IsScalar(v, GridK)];
      scalars := scalars[SelectionK := Lookup(scalars, SelectionK) + set v | v in valid && IsScalar(v, SelectionK)];
      forall k ensures Lookup(scalars, k) == ScalarsOf(nodes, k) {
        if k !in Tracked {
          assert Lookup(scalars, k) == Lookup(old(scalars), k);
        }
      }
    }

    /** The `_sequences` half of `add`. */
    method FileSequences(valid: map<Vector, Term>, ghost before: map<Vector, Term>)
      requires nodes == valid + before && forall k :: Lookup(sequences, k) == SequencesOf(before, k)
      modifies this`sequences
      ensures SequencesFiled()
      ensures sequences == old(sequences)[GridK := SequencesOf(nodes, GridK)][SelectionK := SequencesOf(nodes, SelectionK)]
    {
      BucketsGrow(valid, before, GridK);
      BucketsGrow(valid, before, SelectionK);
      sequences := sequences[GridK := Lookup(sequences, GridK) + set v | v in valid && IsSequence(v, GridK)];
      sequences := sequences[SelectionK := Lookup(sequences, SelectionK) + set v | v in valid && IsSequence(v, SelectionK)];
      forall k ensures Lookup(sequences, k) == SequencesOf(nodes, k) {
        if k !in Tracked {
          assert Lookup(sequences, k) == Lookup(old(sequences), k);
        }
      }
    }

    /** `scalars(k)`: the admitted nodes whose every position has type `k`; the key is created when missing. */
    method Scalars(k: Kind) returns (r: set<Vector>)
      requires Valid()
      modifies this`scalars
      ensures r == ScalarsOf(nodes, k) && scalars == old(scalars)[k := r] && Valid()
      ensures forall v :: v in r ==> v in nodes && IsValid(v) && forall i :: 0 <= i < |v| ==> KindOf(v[i]) == k
    {
      r := Lookup(scalars, k);
      scalars := scalars[k := r];
    }

    /** `sequences(k)`: the admitted nodes whose every position is a tuple of `k`s; the key is created when missing. */
    method Sequences(k: Kind) returns (r: set<Vector>)
      requires Valid()
      modifies this`sequences
      ensures r == SequencesOf(nodes, k) && sequences == old(sequences)[k := r] && Valid()
      ensures forall v :: v in r ==> v in nodes && IsValid(v) && forall i :: 0 <= i < |v| ==> ItemsOfKind(v[i], k)
    {
      r := Lookup(sequences, k);
      sequences := sequences[k := r];
    }

    /** `generate_functions(graph)`: the candidates over the graph's grid and mask buckets. */
    method Generate() returns (ts: set<Term>)
      requires Valid()
      modifies this`scalars, this`sequences
      ensures Valid() && nodes == old(nodes)
      ensures ViewOK(Buckets(nodes)) && ts == GenerateFunctions(Buckets(nodes), target)
      ensures forall t :: t in ts ==> WellFormed(t)
    {
      var grid := Scalars(GridK);
      var mask := Scalars(SelectionK);
      var gridSeqs := Sequences(GridK);
      var maskSeqs := Sequences(SelectionK);
      BucketsOK(nodes, src, sem);
      GeneratedWellFormed(Buckets(nodes), target);
      ts := GenerateFunctions(Buckets(nodes), target);
    }
  }

  /** Adding nodes adds to each bucket exactly the added nodes that belong there. */
  lemma BucketsGrow(valid: map<Vector, Term>, nodes: map<Vector, Term>, k: Kind)
    requires k in Tracked
    ensures ScalarsOf(valid + nodes, k) == ScalarsOf(nodes, k) + set v | v in valid && IsScalar(v, k)
    ensures SequencesOf(valid + nodes, k) == SequencesOf(nodes, k) + set v | v in valid && IsSequence(v, k)
  {
  }

  // ---- what the generators see ----

  /** The graph's nodes and its four buckets, as the generators read them. */
  datatype View = View(pool: map<Vector, Term>, grid: set<Vector>, mask: set<Vector>,
                       gridSeqs: set<Vector>, maskSeqs: set<Vector>)

  function Buckets(nodes: map<Vector, Term>): View {
    View(nodes, ScalarsOf(nodes, GridK), ScalarsOf(nodes, SelectionK),
         SequencesOf(nodes, GridK), SequencesOf(nodes, SelectionK))
  }

  /** Every bucketed node is in the pool; grid nodes and mask-tuple nodes have a position. */
  predicate ViewOK(w: View) {
    && w.grid <= w.pool.Keys && w.mask <= w.pool.Keys && w.gridSeqs <= w.pool.Keys && w.maskSeqs <= w.pool.Keys
    && (forall v :: v in w.grid ==> |v| > 0 && AllGrids(v))
    && (forall v :: v in w.maskSeqs ==> |v| > 0)
  }

  /** The buckets of a valid graph are what the generators need. */
  lemma BucketsOK(nodes: map<Vector, Term>, src: Vector, sem: Semantics)
    requires FullSearch.Pooled(nodes, src, sem) && |src| > 0
    ensures ViewOK(Buckets(nodes))
  {
    var w := Buckets(nodes);
    forall v: Vector | v in w.grid ensures |v| > 0 && AllGrids(v) {
      FullSearch.PooledLength(nodes, src, sem, v);
      forall i | 0 <= i < |v| ensures v[i].Some? && v[i].value.GridV? {
        assert KindOf(v[i]) == GridK;
      }
    }
    forall v: Vector | v in w.maskSeqs ensures |v| > 0 {
      FullSearch.PooledLength(nodes, src, sem, v);
    }
  }

  function Node(w: View, v: Vector): Arg
    requires v in w.pool
  {
    Sub(w.pool[v])
  }

  // ---- the generators ----

  /** `map_color_functions`: map any colour of a grid node to any colour of the target, itself included. */
  function MapColorFunctions(w: View, target: Vector): set<Term>
    requires ViewOK(w) && FullSearch.TargetOK(target)
  {
    set v, x, y | v in w.grid && x in UsedColorsOf(v) && y in UsedColorsOf(target) ::
      Apply(MapColor, [Node(w, v), FullSearch.Const(x), FullSearch.Const(y)])
  }

  /** `switch_color_functions`: swap two colours of a grid node that is not itself a swap. */
  function SwitchColorFunctions(w: View): set<Term>
    requires ViewOK(w)
  {
    set v, x, y | v in w.grid && !FullSearch.IsSwitch(w.pool[v]) && x in UsedColorsOf(v) && y in UsedColorsOf(v) && x < y ::
      Apply(SwitchColor, [Node(w, v), FullSearch.Const(x), FullSearch.Const(y)])
  }

  /** `mask_for_color_functions`: mask each colour a grid node uses. */
  function MaskForColorFunctions(w: View): set<Term>
    requires ViewOK(w)
  {
    set v, x | v in w.grid && x in UsedColorsOf(v) :: Apply(MaskForColor, [Node(w, v), FullSearch.Const(x)])
  }

  /** `mask_for_all_colors_functions`: mask all but one colour, for grid nodes with more than two colours. */
  function MaskForAllColorsFunctions(w: View): set<Term>
    requires ViewOK(w)
  {
    set v, x | v in w.grid && x in UsedColorsOf(v) && |UsedColorsOf(v)| > 2 ::
      Apply(MaskForAllColors, [Node(w, v), FullSearch.Const(x)])
  }

  /** `split_mask_islands_functions`. */
  function SplitMaskIslandsFunctions(w: View): set<Term>
    requires ViewOK(w)
  {
    set v | v in w.mask :: Apply(SplitMaskIslands, [Node(w, v)])
  }

  /** `set_mask_to_color_functions`: paint a same-shape mask in a target colour, when the target's shape differs. */
  function SetMaskToColorFunctions(w: View, target: Vector): set<Term>
    requires ViewOK(w) && FullSearch.TargetOK(target)
  {
    set g, m, y | g in w.grid && m in w.mask && ShapeVector(g) == ShapeVector(m) &&
      ShapeVector(g) != ShapeVector(target) && y in UsedColorsOf(target) ::
      Apply(SetMaskToColor, [Node(w, g), Node(w, m), FullSearch.Const(y)])
  }

  /** `extract_masked_area_functions`: a same-shape mask, when the target's shape differs. */
  function ExtractMaskedAreaFunctions(w: View, target: Vector): set<Term>
    requires ViewOK(w)
  {
    set g, m | g in w.grid && m in w.mask && ShapeVector(g) == ShapeVector(m) && ShapeVector(g) != ShapeVector(target) ::
      Apply(ExtractMaskedArea, [Node(w, g), Node(w, m)])
  }

  /** `shape(masks_arg()[0])`: the shapes of the masks at the first position, one per mask. */
  function FirstItemShapes(v: Vector): seq<Option<(nat, nat)>>
    requires |v| > 0
  {
    match ItemShapes(v[0])
    case Some(shapes) => seq(|shapes|, i requires 0 <= i < |shapes| => Some(shapes[i]))
    case None => []
  }

  /**
   * `extract_masked_areas_functions`: the grid's shapes, one per position,
   * are compared with the shapes of the masks at the first position only,
   * and the operation named is the single-mask `extract_masked_area`.
   */
  function ExtractMaskedAreasFunctions(w: View, target: Vector): set<Term>
    requires ViewOK(w)
  {
    set g, ms | g in w.grid && ms in w.maskSeqs && ShapeVector(g) == FirstItemShapes(ms) &&
      ShapeVector(g) != ShapeVector(target) ::
      Apply(ExtractMaskedArea, [Node(w, g), Node(w, ms)])
  }

  /** The three colour crops: one candidate per colour of a grid node whose shape is not the target's. */
  function CropFunctions(w: View, target: Vector, op: OpName): set<Term>
    requires ViewOK(w)
  {
    set v, x | v in w.grid && ShapeVector(v) != ShapeVector(target) && x in UsedColorsOf(v) ::
      Apply(op, [Node(w, v), FullSearch.Const(x)])
  }

  /** A tuple element of exactly two items, of kinds `a` and `b`, of one shape. */
  predicate PairOf(e: Elem, a: Kind, b: Kind) {
    match e
    case Some(GridsV(gs)) => |gs| == 2 && a == GridK && b == GridK && Shape(gs[0]) == Shape(gs[1])
    case Some(SelectionsV(ms)) => |ms| == 2 && a == SelectionK && b == SelectionK && Shape(ms[0]) == Shape(ms[1])
    case _ => false
  }

  /**
   * `is_matching_shape_pair(values_tuple, type_a, type_b)`: every position is
   * a pair of the two kinds with one shape. Only tuples reach it; a scalar
   * has no length, and counts as no pair here.
   */
  predicate IsMatchingShapePairOf(v: Vector, a: Kind, b: Kind) {
    forall i :: 0 <= i < |v| ==> PairOf(v[i], a, b)
  }

  /** `Function(get_item, node, Constant(repeat(index)))`. */
  function Item(w: View, v: Vector, index: int): Term
    requires v in w.pool
  {
    Apply(GetItem, [Node(w, v), FullSearch.Const(index)])
  }

  /** `logic_functions`: the three cell-wise operations on the two items of each same-shape pair of grids. */
  function LogicFunctions(w: View): set<Term>
    requires ViewOK(w)
  {
    set v, op | v in w.gridSeqs && IsMatchingShapePairOf(v, GridK, GridK) &&
      op in {ElementwiseEqualAnd, ElementwiseEqualOr, ElementwiseXor} ::
      Apply(op, [Sub(Item(w, v, 0)), Sub(Item(w, v, 1))])
  }

  /** `shape_matching_pairs(graph.sequences(Grid), Grid, Grid)`: the grid-tuple nodes that are same-shape pairs. */
  function PairNodes(w: View): set<Vector> {
    set v | v in w.gridSeqs && IsMatchingShapePairOf(v, GridK, GridK)
  }

  /** The three cell-wise operations on the two items of the pair node `v`. */
  function PairCandidates(w: View, v: Vector): (r: set<Term>)
    requires v in w.pool
    ensures |r| == 3
  {
    var a, b := Sub(Item(w, v, 0)), Sub(Item(w, v, 1));
    {Apply(ElementwiseEqualAnd, [a, b]), Apply(ElementwiseEqualOr, [a, b]), Apply(ElementwiseXor, [a, b])}
  }

  /**
   * `logic_functions` as the code runs it. `unpack` builds a set of lazy
   * generator expressions that read the comprehension variable only when
   * they are consumed, by which time it holds the last pair node the set
   * comprehension visited, in an order the set does not fix. So every
   * pair the loop sees is the two items of that one node `last`, and the
   * other pair nodes contribute nothing.
   */
  function LogicFunctionsAsWritten(w: View, last: Option<Vector>): (r: set<Term>)
    requires ViewOK(w)
    requires last.Some? ==> last.value in PairNodes(w)
    requires last.None? ==> PairNodes(w) == {}
    ensures last.None? ==> r == {} && LogicFunctions(w) == {}
    ensures last.Some? ==> |r| == 3 && r <= LogicFunctions(w)
  {
    LogicFunctionsOnlyPairs(w);
    if last.Some? then LogicFunctionsCover(w, last.value); PairCandidates(w, last.value) else {}
  }

  /** A pair node contributes all three of its candidates. */
  lemma LogicFunctionsCover(w: View, v: Vector)
    requires ViewOK(w) && v in PairNodes(w)
    ensures PairCandidates(w, v) <= LogicFunctions(w)
  { }

  /** Every candidate is one of a pair node's three. */
  lemma LogicFunctionsOnlyPairs(w: View)
    requires ViewOK(w)
    ensures forall t :: t in LogicFunctions(w) ==> exists v :: v in PairNodes(w) && t in PairCandidates(w, v)
  {
    forall t | t in LogicFunctions(w) ensures exists v :: v in PairNodes(w) && t in PairCandidates(w, v) {
      var v, op :| v in w.gridSeqs && IsMatchingShapePairOf(v, GridK, GridK) &&
        op in {ElementwiseEqualAnd, ElementwiseEqualOr, ElementwiseXor} &&
        t == Apply(op, [Sub(Item(w, v, 0)), Sub(Item(w, v, 1))]);
      assert v in PairNodes(w) && t in PairCandidates(w, v);
    }
  }

  /** The candidates of two pair nodes of different terms share nothing. */
  lemma PairCandidatesDisjoint(w: View, p: Vector, q: Vector)
    requires p in w.pool && q in w.pool && w.pool[p] != w.pool[q]
    ensures PairCandidates(w, p) !! PairCandidates(w, q)
  { }

  /**
   * With two pair nodes of different terms, the code as written proposes
   * three candidates where the generator means six: the other node's
   * candidates are all missing.
   */
  lemma LateBinding(w: View, p: Vector, q: Vector)
    requires ViewOK(w) && p in PairNodes(w) && q in PairNodes(w) && w.pool[p] != w.pool[q]
    ensures |LogicFunctionsAsWritten(w, Some(p))| == 3
    ensures PairCandidates(w, q) !! LogicFunctionsAsWritten(w, Some(p))
    ensures LogicFunctionsAsWritten(w, Some(p)) + PairCandidates(w, q) <= LogicFunctions(w)
    ensures |LogicFunctions(w)| >= 6
  {
    var written, other := LogicFunctionsAsWritten(w, Some(p)), PairCandidates(w, q);
    PairCandidatesDisjoint(w, p, q);
    LogicFunctionsCover(w, q);
    DisjointUnionSize(written, other);
    Selection.SubsetCard(written + other, LogicFunctions(w));
  }

  lemma DisjointUnionSize<T>(a: set<T>, b: set<T>)
    requires a !! b
    ensures |a + b| == |a| + |b|
  {
    assert (a + b) - a == b;
  }

  /** `symmetry_functions`: both flips and the three rotations of every grid node. */
  function SymmetryFunctions(w: View): set<Term>
    requires ViewOK(w)
  {
    (set v, op | v in w.grid && op in {FlipUpDown, FlipLeftRight} :: Apply(op, [Node(w, v)])) +
    (set v, n | v in w.grid && n in {1, 2, 3} :: Apply(Rotate, [Node(w, v), FullSearch.Const(n)]))
  }

  /** `generate_functions(graph)`: the union of eleven generators. */
  function GenerateFunctions(w: View, target: Vector): set<Term>
    requires ViewOK(w) && FullSearch.TargetOK(target)
  {
    SwitchColorFunctions(w) + MapColorFunctions(w, target) + MaskForColorFunctions(w) +
    MaskForAllColorsFunctions(w) + ExtractMaskedAreaFunctions(w, target) + SplitMaskIslandsFunctions(w) +
    CropFunctions(w, target, ExtractIslands) + CropFunctions(w, target, ExtractColorPatches) +
    CropFunctions(w, target, ExtractColorPatch) + LogicFunctions(w) + SymmetryFunctions(w)
  }

  // ---- what the heuristics guarantee ----

  /** A `map_color` candidate maps a colour every position of the node uses to one every target grid uses. */
  lemma MapColorHeuristic(w: View, target: Vector, t: Term)
    requires ViewOK(w) && FullSearch.TargetOK(target) && t in MapColorFunctions(w, target)
    ensures exists v: Vector, x: int, y: int ::
      && v in w.grid && t == Apply(MapColor, [Node(w, v), FullSearch.Const(x), FullSearch.Const(y)])
      && (forall k :: 0 <= k < |v| ==> Occurs(v[k].value.grid, x))
      && (forall k :: 0 <= k < |target| ==> Occurs(target[k].value.grid, y))
  {
    var v, x, y :| v in w.grid && x in UsedColorsOf(v) && y in UsedColorsOf(target) &&
      t == Apply(MapColor, [Node(w, v), FullSearch.Const(x), FullSearch.Const(y)]);
    UsedColorsOccur(v, x);
    UsedColorsOccur(target, y);
  }

  /** No `switch_color` candidate is applied to a node that is itself a swap, and its colours are distinct. */
  lemma SwitchHeuristic(w: View, t: Term)
    requires ViewOK(w) && t in SwitchColorFunctions(w)
    ensures t.Apply? && t.op == SwitchColor && |t.args| == 3 && t.args[0].Sub? && !FullSearch.IsSwitch(t.args[0].term)
    ensures exists x, y :: t.args[1] == FullSearch.Const(x) && t.args[2] == FullSearch.Const(y) && x < y
  {
  }

  /** `mask_for_all_colors` is proposed only for nodes with more than two common colours. */
  lemma MaskForAllColorsHeuristic(w: View, t: Term)
    requires ViewOK(w) && t in MaskForAllColorsFunctions(w)
    ensures exists v: Vector, x: int ::
      && v in w.grid && t == Apply(MaskForAllColors, [Node(w, v), FullSearch.Const(x)])
      && x in UsedColorsOf(v) && |UsedColorsOf(v)| >= 3
  {
  }

  /** The typed pair test is the kind-blind one of `full_search.py` on tuples of grids. */
  lemma {:induction false} PairTests(v: Vector)
    ensures IsMatchingShapePairOf(v, GridK, GridK) <==> FullSearch.IsMatchingShapePair(v) && IsSequence(v, GridK)
  {
    if FullSearch.IsMatchingShapePair(v) && IsSequence(v, GridK) {
      forall i | 0 <= i < |v| ensures PairOf(v[i], GridK, GridK) {
        assert ItemsOfKind(v[i], GridK);
        assert ItemShapes(v[i]).Some? && |ItemShapes(v[i]).value| == 2;
      }
    }
    if IsMatchingShapePairOf(v, GridK, GridK) {
      forall i | 0 <= i < |v|
        ensures ItemShapes(v[i]).Some? && |ItemShapes(v[i]).value| == 2
        ensures ItemShapes(v[i]).value[0] == ItemShapes(v[i]).value[1] && ItemsOfKind(v[i], GridK)
      {
        assert PairOf(v[i], GridK, GridK);
      }
    }
  }

  predicate AllWellFormed(ts: set<Term>) {
    forall t :: t in ts ==> WellFormed(t)
  }

  lemma SwitchWellFormed(w: View)
    requires ViewOK(w) && FullSearch.PoolWellFormed(w.pool)
    ensures AllWellFormed(SwitchColorFunctions(w))
  {
  }

  lemma MapColorWellFormed(w: View, target: Vector)
    requires ViewOK(w) && FullSearch.TargetOK(target) && FullSearch.PoolWellFormed(w.pool)
    ensures AllWellFormed(MapColorFunctions(w, target))
  {
    forall t | t in MapColorFunctions(w, target) ensures WellFormed(t) {
      var v, x, y :| v in w.grid && t == Apply(MapColor, [Node(w, v), FullSearch.Const(x), FullSearch.Const(y)]);
      FullSearch.NodeAndConstantsWellFormed(w.pool, v, MapColor, x, y);
    }
  }

  lemma MaskForColorWellFormed(w: View)
    requires ViewOK(w) && FullSearch.PoolWellFormed(w.pool)
    ensures AllWellFormed(MaskForColorFunctions(w))
  {
  }

  lemma MaskForAllColorsWellFormed(w: View)
    requires ViewOK(w) && FullSearch.PoolWellFormed(w.pool)
    ensures AllWellFormed(MaskForAllColorsFunctions(w))
  {
  }

  lemma ExtractMaskedAreaWellFormed(w: View, target: Vector)
    requires ViewOK(w) && FullSearch.TargetOK(target) && FullSearch.PoolWellFormed(w.pool)
    ensures AllWellFormed(ExtractMaskedAreaFunctions(w, target))
  {
  }

  lemma SplitMaskIslandsWellFormed(w: View)
    requires ViewOK(w) && FullSearch.PoolWellFormed(w.pool)
    ensures AllWellFormed(SplitMaskIslandsFunctions(w))
  {
  }

  lemma CropWellFormed(w: View, target: Vector, op: OpName)
    requires ViewOK(w) && FullSearch.TargetOK(target) && FullSearch.PoolWellFormed(w.pool)
    ensures AllWellFormed(CropFunctions(w, target, op))
  {
    forall t | t in CropFunctions(w, target, op) ensures WellFormed(t) {
      var v, x :| v in w.grid && t == Apply(op, [Node(w, v), FullSearch.Const(x)]);
      FullSearch.NodeAndConstantWellFormed(w.pool, v, op, x);
    }
  }

  lemma PairFunctionsWellFormed(w: View)
    requires ViewOK(w) && FullSearch.PoolWellFormed(w.pool)
    ensures AllWellFormed(LogicFunctions(w)) && AllWellFormed(SymmetryFunctions(w))
  {
    forall t | t in LogicFunctions(w) ensures WellFormed(t) {
      var v, op :| v in w.gridSeqs && t == Apply(op, [Sub(Item(w, v, 0)), Sub(Item(w, v, 1))]);
      FullSearch.NodeAndConstantWellFormed(w.pool, v, GetItem, 0);
      FullSearch.NodeAndConstantWellFormed(w.pool, v, GetItem, 1);
      FullSearch.TwoTermsWellFormed(Item(w, v, 0), Item(w, v, 1), op);
    }
    forall t | t in SymmetryFunctions(w) ensures WellFormed(t) {
      if v, op :| v in w.grid && t == Apply(op, [Node(w, v)]) {
        FullSearch.NodeWellFormed(w.pool, v, op);
      } else {
        var v, n :| v in w.grid && t == Apply(Rotate, [Node(w, v), FullSearch.Const(n)]);
        FullSearch.NodeAndConstantWellFormed(w.pool, v, Rotate, n);
      }
    }
  }

  /** Every candidate applies its operation to a node first, over well-formed nodes. */
  lemma GeneratedWellFormed(w: View, target: Vector)
    requires ViewOK(w) && FullSearch.TargetOK(target) && FullSearch.PoolWellFormed(w.pool)
    ensures AllWellFormed(GenerateFunctions(w, target))
  {
    SwitchWellFormed(w);
    MapColorWellFormed(w, target);
    MaskForColorWellFormed(w);
    MaskForAllColorsWellFormed(w);
    ExtractMaskedAreaWellFormed(w, target);
    SplitMaskIslandsWellFormed(w);
    CropWellFormed(w, target, ExtractIslands);
    CropWellFormed(w, target, ExtractColorPatches);
    CropWellFormed(w, target, ExtractColorPatch);
    PairFunctionsWellFormed(w);
  }
}
