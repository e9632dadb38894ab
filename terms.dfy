/**
 * Programs of the function graph as terms. A node is the source, or an
 * operation applied to argument nodes and wrapped constants
 * (`Constant(repeat(c))`). Evaluating a term applies each operation
 * vectorized, position by position; `ElemEval` is the same program run on
 * a single element, and the lemmas here show the two agree position by
 * position, which is why a program found on all constraints can be replayed
 * on one new input.
 *
 * What an operation does to one element is the parameter `sem`: most of the
 * operations the generators name live outside the files modelled here.
 */
module Terms {
  import opened Wrappers
  import opened Values
  import opened Vectorize

  /** The operations the candidate generators apply. */
  datatype OpName =
    | MapColor | MapColorInSelection | SwitchColor | SetSelectedToColor
    | SelectColor | SelectAllColors
    | SplitSelectionIntoConnectedAreas | SplitSelectionIntoConnectedAreasNoDiagonals
    | SplitSelectionIntoConnectedAreasSkipGaps
    | FilterSelectionsTouchingEdge | FilterSelectionsNotTouchingEdge | MergeSelections
    | ExtendSelectionToBounds | ExtendSelectionsToBounds
    | ExtractSelectedArea | ExtractSelectedAreas
    | ExtractIslands | ExtractColorPatches | ExtractColorPatch
    | ConcatenateTopBottom | ConcatenateLeftRight | ConcatenateTopToBottom | ConcatenateLeftToRight
    | SplitTopBottom | SplitTopMiddleBottom | SplitLeftRight | SplitLeftMiddleRight
    | TakeFirst | TakeLast | TakeGridWithUniqueColors | SortByArea
    | ElementwiseEqualAnd | ElementwiseEqualOr | ElementwiseXor
    | FlipUpDown | FlipLeftRight | Rotate90 | Rotate180 | Rotate270
    | FlipUpDownWithinBounds | FlipLeftRightWithinBounds
    | Rotate90WithinBounds | Rotate180WithinBounds | Rotate270WithinBounds
    | MaskForColor | MaskForAllColors | ExtractMaskedArea | SplitMaskIslands | SetMaskToColor
    | Rotate | GetItem

  /** What an operation computes from the elements at one position. */
  type Semantics = (OpName, seq<Elem>) -> Elem

  datatype Term = Source | Apply(op: OpName, args: seq<Arg>)

  /** An argument: a subterm (a node), or a constant repeated at every position. */
  datatype Arg = Sub(term: Term) | Lit(value: Elem)

  /** Every operation has a node as first argument, so that `zip` ends. */
  predicate WellFormed(t: Term)
    decreases t
  {
    match t
    case Source => true
    case Apply(op, args) =>
      |args| > 0 && args[0].Sub? &&
      forall i :: 0 <= i < |args| ==> args[i].Sub? ==> WellFormed(args[i].term)
  }

  /** `vectorize(op)` as a callable over whole argument tuples. */
  function Lift(sem: Semantics, op: OpName): seq<Iter<Elem>> -> Iter<Elem> {
    xs => match Call(ys => sem(op, ys), xs)
          case Some(r) => Items(r)
          case None => Items([])
  }

  /** The value of a term: the source's value, or the vectorized operation over its arguments' values. */
  function Eval(t: Term, src: Iter<Elem>, sem: Semantics): (r: Iter<Elem>)
    ensures t.Source? ==> r == src
    ensures t.Apply? ==> r.Items?
    decreases t
  {
    match t
    case Source => src
    case Apply(op, args) => Lift(sem, op)(ArgValues(t, src, sem))
  }

  function ArgValues(t: Term, src: Iter<Elem>, sem: Semantics): (r: seq<Iter<Elem>>)
    requires t.Apply?
    ensures |r| == |t.args|
    decreases t, 0
  {
    seq(|t.args|, i requires 0 <= i < |t.args| =>
      match t.args[i]
      case Sub(u) => Eval(u, src, sem)
      case Lit(e) => Repeat(e))
  }

  /** The value tuple of a term over the source tuple. */
  function ValueOf(t: Term, src: Vector, sem: Semantics): Vector {
    Elements(Eval(t, Items(src), sem))
  }

  /** The program run on a single element: the reference for what a term computes at one position. */
  function ElemEval(t: Term, x: Elem, sem: Semantics): Elem
    decreases t
  {
    match t
    case Source => x
    case Apply(op, args) =>
      sem(op, seq(|args|, i requires 0 <= i < |args| =>
        match args[i]
        case Sub(u) => ElemEval(u, x, sem)
        case Lit(e) => e))
  }

  /** `depth()`: 0 for the source and constants, one more than the deepest node argument for an operation. */
  function Depth(t: Term): (d: nat)
    requires WellFormed(t)
    ensures t.Apply? ==> d > Depth(t.args[0].term)
    decreases t
  {
    match t
    case Source => 0
    case Apply(op, args) => 1 + MaxArgDepth(t, |args|)
  }

  function MaxArgDepth(t: Term, k: nat): (m: nat)
    requires t.Apply? && WellFormed(t) && 0 < k <= |t.args|
    ensures forall i :: 0 <= i < k && t.args[i].Sub? ==> Depth(t.args[i].term) <= m
    decreases t, k
  {
    var here := if t.args[k - 1].Sub? then Depth(t.args[k - 1].term) else 0;
    if k == 1 then here
    else
      var rest := MaxArgDepth(t, k - 1);
      if here > rest then here else rest
  }

  /** Over a finite source every value is finite and exactly as long as the source. */
  lemma {:induction false} EvalLength(t: Term, src: Iter<Elem>, sem: Semantics)
    requires WellFormed(t) && Finite(src)
    ensures Finite(Eval(t, src, sem)) && Length(Eval(t, src, sem)) == Length(src)
    decreases t
  {
    if t.Apply? {
      var xs := ArgValues(t, src, sem);
      forall i | 0 <= i < |xs| && Finite(xs[i]) ensures Length(xs[i]) == Length(src) {
        EvalLength(t.args[i].term, src, sem);
      }
      EvalLength(t.args[0].term, src, sem);
      assert Finite(xs[0]);
      var r := Call(ys => sem(t.op, ys), xs);
      assert r.Some?;
      var j :| 0 <= j < |xs| && Finite(xs[j]) && ZipLength(xs).value == Length(xs[j]);
    }
  }

  /** Position `i` of the vectorized value is the program run on position `i` of the source. */
  lemma {:induction false} Pointwise(t: Term, src: Iter<Elem>, sem: Semantics, i: nat)
    requires WellFormed(t) && Finite(src) && i < Length(src)
    ensures Finite(Eval(t, src, sem)) && i < Length(Eval(t, src, sem))
    ensures At(Eval(t, src, sem), i) == ElemEval(t, At(src, i), sem)
    decreases t
  {
    EvalLength(t, src, sem);
    if t.Apply? {
      var xs := ArgValues(t, src, sem);
      var f := ys => sem(t.op, ys);
      EvalLength(t, src, sem);
      var r := Call(f, xs);
      assert Eval(t, src, sem) == Items(r.value);
      var col := Column(xs, i);
      var inner := seq(|t.args|, k requires 0 <= k < |t.args| =>
        match t.args[k]
        case Sub(u) => ElemEval(u, At(src, i), sem)
        case Lit(e) => e);
      forall k | 0 <= k < |t.args| ensures col[k] == inner[k] {
        if t.args[k].Sub? {
          Pointwise(t.args[k].term, src, sem, i);
        }
      }
      assert col == inner;
    }
  }

  /** The value tuple of a term over the source tuple has the program's result at every position. */
  lemma {:induction false} ValuePointwise(t: Term, src: Vector, sem: Semantics)
    requires WellFormed(t)
    ensures |ValueOf(t, src, sem)| == |src|
    ensures forall i :: 0 <= i < |src| ==> ValueOf(t, src, sem)[i] == ElemEval(t, src[i], sem)
  {
    EvalLength(t, Items(src), sem);
    forall i | 0 <= i < |src| ensures ValueOf(t, src, sem)[i] == ElemEval(t, src[i], sem) {
      Pointwise(t, Items(src), sem, i);
    }
  }

  /** Run on `repeat_once(x)`, a term yields exactly one element: the program run on `x`. */
  lemma {:induction false} EvalOnce(t: Term, x: Elem, sem: Semantics)
    requires WellFormed(t)
    ensures Finite(Eval(t, RepeatOnce(x), sem))
    ensures Elements(Eval(t, RepeatOnce(x), sem)) == [ElemEval(t, x, sem)]
  {
    EvalLength(t, RepeatOnce(x), sem);
    Pointwise(t, RepeatOnce(x), sem, 0);
  }
}
