/**
 * Argument unwrapping of the state-tree solver. Operations hand each other
 * grids, selections, lists of them or None; an operation that wants one grid
 * (or a fixed number of grids) digs it out of single-element lists and
 * otherwise reports an `ArgumentError`, which the decorators turn into a
 * fixed fallback result.
 */
module Argument {
  import opened Wrappers
  import opened Arguments

  /** A value passed between operations: a grid, a selection, a list or tuple of values, or None. */
  datatype Arg =
    | GridArg(grid: Grid)
    | SelectionArg(mask: Mask)
    | ListArg(items: seq<Arg>)
    | NoneArg

  /** The classes an operation can ask for (`expected_type`). */
  datatype ArgType = GridType | SelectionType

  /** `isinstance(argument, expected_type)`. */
  predicate IsA(a: Arg, t: ArgType) {
    match t
    case GridType => a.GridArg?
    case SelectionType => a.SelectionArg?
  }

  /** `x` packed into `n` nested single-element lists. */
  function Wrap(x: Arg, n: nat): Arg {
    if n == 0 then x else ListArg([Wrap(x, n - 1)])
  }

  // ---- extract_scalar ----

  /**
   * `extract_scalar` as written: the recursive call leaves out
   * `expected_type`, so below the first list level it always looks for a grid.
   */
  function ExtractScalarAsWritten(a: Arg, t: ArgType): Option<Arg> {
    if IsA(a, t) then Some(a)
    else if a.ListArg? && |a.items| == 1 then ExtractScalarAsWritten(a.items[0], GridType)
    else None
  }

  /** `extract_scalar` with the expected type passed down, as its contract intends. */
  function ExtractScalar(a: Arg, t: ArgType): (r: Option<Arg>)
    ensures r.Some? ==> IsA(r.value, t)
    ensures IsA(a, t) ==> r == Some(a)
  {
    if IsA(a, t) then Some(a)
    else if a.ListArg? && |a.items| == 1 then ExtractScalar(a.items[0], t)
    else None
  }

  /** Any number of single-element lists around a value of the expected type is removed. */
  lemma {:induction false} ExtractWrapped(x: Arg, n: nat, t: ArgType)
    requires IsA(x, t)
    ensures ExtractScalar(Wrap(x, n), t) == Some(x)
    decreases n
  {
    if n > 0 {
      ExtractWrapped(x, n - 1, t);
    }
  }

  /** Whatever is extracted was the argument itself or its content under single-element lists. */
  lemma {:induction false} ExtractedIsWrapped(a: Arg, t: ArgType)
    requires ExtractScalar(a, t).Some?
    ensures exists n: nat :: Wrap(ExtractScalar(a, t).value, n) == a
    decreases a
  {
    var x := ExtractScalar(a, t).value;
    if IsA(a, t) {
      assert Wrap(x, 0) == a;
    } else {
      ExtractedIsWrapped(a.items[0], t);
      var n: nat :| Wrap(x, n) == a.items[0];
      assert a.items == [a.items[0]];
      assert Wrap(x, n + 1) == a;
    }
  }

  /**
   * The whole behaviour of `extract_scalar`: it succeeds with `x` exactly when
   * the argument is `x`, of the expected type, under zero or more
   * single-element lists. So None, an empty list and a list of two or more
   * values are errors.
   */
  lemma ExtractScalarSpec(a: Arg, t: ArgType, x: Arg)
    ensures ExtractScalar(a, t) == Some(x) <==> IsA(x, t) && exists n: nat :: Wrap(x, n) == a
  {
    if ExtractScalar(a, t) == Some(x) {
      ExtractedIsWrapped(a, t);
    }
    if IsA(x, t) && exists n: nat :: Wrap(x, n) == a {
      var n: nat :| Wrap(x, n) == a;
      ExtractWrapped(x, n, t);
    }
  }

  /** The error cases of `extract_scalar`: None, an empty list and a list of several values. */
  lemma ExtractScalarErrors(items: seq<Arg>, t: ArgType)
    requires |items| != 1
    ensures ExtractScalar(NoneArg, t).None?
    ensures ExtractScalar(ListArg(items), t).None?
  {
  }

  // ---- extract_tuple ----

  /** `tuple(extract_scalar(arg, expected_type) for arg in argument)`: fails when any element fails. */
  function ExtractAll(xs: seq<Arg>, t: ArgType): (r: Option<seq<Arg>>)
    ensures r.Some? <==> forall i :: 0 <= i < |xs| ==> ExtractScalar(xs[i], t).Some?
    ensures r.Some? ==> |r.value| == |xs| && forall i :: 0 <= i < |xs| ==> ExtractScalar(xs[i], t) == Some(r.value[i])
  {
    if xs == [] then Some([])
    else
      match (ExtractScalar(xs[0], t), ExtractAll(xs[1..], t))
      case (Some(x), Some(rest)) =>
        assert forall i :: 1 <= i < |xs| ==> xs[i] == xs[1..][i - 1];
        Some([x] + rest)
      case (Some(_), None) =>
        var i :| 0 <= i < |xs[1..]| && ExtractScalar(xs[1..][i], t).None?;
        assert xs[i + 1] == xs[1..][i];
        None
      case _ => None
  }

  /** `extract_tuple` as written: the recursive call drops `expected_type`. */
  function ExtractTupleAsWritten(a: Arg, length: nat, t: ArgType): Option<seq<Arg>> {
    if a.ListArg? && |a.items| == length then ExtractAll(a.items, t)
    else if a.ListArg? && |a.items| == 1 then ExtractTupleAsWritten(a.items[0], length, GridType)
    else None
  }

  /** `extract_tuple` with the expected type passed down. */
  function ExtractTuple(a: Arg, length: nat, t: ArgType): (r: Option<seq<Arg>>)
    ensures r.Some? ==> |r.value| == length && forall i :: 0 <= i < length ==> IsA(r.value[i], t)
  {
    if a.ListArg? && |a.items| == length then ExtractAll(a.items, t)
    else if a.ListArg? && |a.items| == 1 then ExtractTuple(a.items[0], length, t)
    else None
  }

  /** A list of `length` values of the expected type, under any number of single-element lists, is extracted as it is. */
  lemma {:induction false} ExtractTupleWrapped(xs: seq<Arg>, n: nat, t: ArgType)
    requires forall i :: 0 <= i < |xs| ==> IsA(xs[i], t)
    ensures ExtractTuple(Wrap(ListArg(xs), n), |xs|, t) == Some(xs)
    decreases n
  {
    if n == 0 {
      var r := ExtractAll(xs, t);
      assert r.Some?;
      assert r.value == xs;
    } else if |xs| == 1 {
      var w := Wrap(ListArg(xs), n);
      assert w.items == [Wrap(ListArg(xs), n - 1)];
      WrapOfList(xs[0], n - 1);
      assert xs == [xs[0]];
      ExtractWrapped(xs[0], n, t);
      assert ExtractScalar(w.items[0], t) == Some(xs[0]);
      var r := ExtractAll(w.items, t);
      assert r.Some? && |r.value| == 1 && r.value[0] == xs[0];
      assert r.value == xs;
    } else {
      ExtractTupleWrapped(xs, n - 1, t);
    }
  }

  lemma {:induction false} WrapOfList(x: Arg, n: nat)
    ensures Wrap(ListArg([x]), n) == Wrap(x, n + 1)
    decreases n
  {
    if n > 0 {
      WrapOfList(x, n - 1);
    }
  }

  /** A list of the wrong length that is not a single-element list, and None, are errors. */
  lemma ExtractTupleErrors(items: seq<Arg>, length: nat, t: ArgType)
    requires |items| != length && |items| != 1
    ensures ExtractTuple(NoneArg, length, t).None?
    ensures ExtractTuple(ListArg(items), length, t).None?
  {
  }

  /**
   * The recursion of `extract_scalar` and `extract_tuple` forgets the
   * expected type: a selection in a single-element list is refused where a
   * selection is expected, and a grid in a single-element list is accepted
   * where a selection is expected.
   */
  lemma ExpectedTypeDropped(m: Mask, g: Grid)
    ensures ExtractScalarAsWritten(ListArg([SelectionArg(m)]), SelectionType).None?
    ensures ExtractScalar(ListArg([SelectionArg(m)]), SelectionType) == Some(SelectionArg(m))
    ensures ExtractScalarAsWritten(ListArg([GridArg(g)]), SelectionType) == Some(GridArg(g))
    ensures ExtractScalar(ListArg([GridArg(g)]), SelectionType).None?
    ensures ExtractTupleAsWritten(ListArg([ListArg([SelectionArg(m), SelectionArg(m)])]), 2, SelectionType).None?
    ensures ExtractTuple(ListArg([ListArg([SelectionArg(m), SelectionArg(m)])]), 2, SelectionType) ==
      Some([SelectionArg(m), SelectionArg(m)])
  {
    var pair := [SelectionArg(m), SelectionArg(m)];
    var r := ExtractAll(pair, SelectionType);
    assert ExtractScalar(pair[0], SelectionType).Some? && ExtractScalar(pair[1], SelectionType).Some?;
    assert r.Some? && r.value[0] == pair[0] && r.value[1] == pair[1];
    assert r.value == pair;
  }

  /** With grids expected, as every caller in the solver asks, the two readings agree. */
  lemma {:induction false} AsWrittenAgreesOnGrids(a: Arg, length: nat)
    ensures ExtractScalarAsWritten(a, GridType) == ExtractScalar(a, GridType)
    ensures ExtractTupleAsWritten(a, length, GridType) == ExtractTuple(a, length, GridType)
    decreases a
  {
    if a.ListArg? && |a.items| == 1 {
      AsWrittenAgreesOnGrids(a.items[0], length);
    }
  }

  // ---- the decorators ----

  /** `expect_scalar(on_error_return, expected_type)(func)(argument)`. */
  function ExpectScalar<R>(func: Arg -> R, onError: R, a: Arg, t: ArgType): (r: R)
    ensures ExtractScalar(a, t).None? ==> r == onError
    ensures ExtractScalar(a, t).Some? ==> r == func(ExtractScalar(a, t).value)
  {
    match ExtractScalar(a, t)
    case Some(x) => func(x)
    case None => onError
  }

  /**
   * `expect_tuple(length, on_error_return, expected_type)(func)(*args)`: the
   * first `length` positional arguments (fewer if there are fewer) form the
   * tuple; the rest are passed on behind the extracted values.
   */
  function ExpectTuple<R>(func: seq<Arg> -> R, onError: R, args: seq<Arg>, length: nat, t: ArgType): (r: R)
    ensures ExtractTuple(ListArg(args[..Min(length, |args|)]), length, t).None? ==> r == onError
    ensures ExtractTuple(ListArg(args[..Min(length, |args|)]), length, t).Some? ==>
      r == func(ExtractTuple(ListArg(args[..Min(length, |args|)]), length, t).value + args[Min(length, |args|)..])
  {
    var k := Min(length, |args|);
    match ExtractTuple(ListArg(args[..k]), length, t)
    case Some(xs) => func(xs + args[k..])
    case None => onError
  }

  function Min(a: nat, b: nat): nat {
    if a <= b then a else b
  }

  /**
   * The `.shape` attribute of an argument: a grid's or selection's shape; for
   * a sequence (`_Sequence.shape`), the one shape all its elements share, or
   * None when they do not share exactly one; None has no such attribute.
   * Every `ListArg` is read as a `Grids`/`Selections` sequence: a plain
   * Python list has no `.shape` and would raise `AttributeError`, but the
   * values the state-tree operations pass on are grids, selections, their
   * sequences or None, and no operation shown is wrapped by
   * `expect_same_shape`, so no plain list reaches it.
   */
  function ShapeOf(a: Arg): (r: Result<Option<(nat, nat)>>)
    ensures a.GridArg? ==> r == Success(Some(Shape(a.grid)))
    ensures a.SelectionArg? ==> r == Success(Some(Shape(a.mask)))
    ensures a.NoneArg? ==> r.Failure?
    decreases a
  {
    match a
    case GridArg(g) => Success(Some(Shape(g)))
    case SelectionArg(m) => Success(Some(Shape(m)))
    case NoneArg => Failure("AttributeError")
    case ListArg(items) =>
      if exists x :: x in items && ShapeOf(x).Failure? then Failure("AttributeError")
      else if |items| > 0 && forall x :: x in items ==> ShapeOf(x) == ShapeOf(items[0]) then ShapeOf(items[0])
      else Success(None)
  }

  /** The shapes `expect_same_shape` reads: `args[0].shape`, then each of `args[1:length]`. */
  predicate ShapesReadable(args: seq<Arg>, length: nat)
    requires |args| > 0
  {
    ShapeOf(args[0]).Success? && forall i :: 1 <= i < Min(length, |args|) ==> ShapeOf(args[i]).Success?
  }

  /**
   * `expect_same_shape(length, on_error_return)(func)(*args)`: with no
   * arguments `args[0]` raises `IndexError`; an argument without `.shape`
   * among the first `length` raises `AttributeError`, even after a mismatch,
   * since every shape is read before they are compared; otherwise the call
   * goes through only when arguments 1 .. length-1 have the shape of
   * argument 0.
   */
  function ExpectSameShape<R>(func: seq<Arg> -> R, onError: R, args: seq<Arg>, length: nat): (r: Result<R>)
    ensures |args| == 0 ==> r == Failure("IndexError")
    ensures |args| > 0 && ShapeOf(args[0]).Failure? ==> r == Failure("AttributeError")
    ensures forall i :: 1 <= i < Min(length, |args|) && ShapeOf(args[i]).Failure? ==> r == Failure("AttributeError")
    ensures r.Success? ==> |args| > 0 && ShapesReadable(args, length)
    ensures r.Success? && (forall i :: 1 <= i < Min(length, |args|) ==> ShapeOf(args[i]) == ShapeOf(args[0])) ==>
      r.value == func(args)
    ensures r.Success? && (exists i :: 1 <= i < Min(length, |args|) && ShapeOf(args[i]) != ShapeOf(args[0])) ==>
      r.value == onError
  {
    if |args| == 0 then Failure("IndexError")
    else if !ShapesReadable(args, length) then Failure("AttributeError")
    else if forall i :: 1 <= i < Min(length, |args|) ==> ShapeOf(args[i]) == ShapeOf(args[0]) then Success(func(args))
    else Success(onError)
  }

  /** Grids and selections always have a shape, so on them the decorator never raises. */
  lemma ExpectSameShapeOnShaped<R>(func: seq<Arg> -> R, onError: R, args: seq<Arg>, length: nat)
    requires |args| > 0 && (args[0].GridArg? || args[0].SelectionArg?)
    requires forall i :: 1 <= i < Min(length, |args|) ==> args[i].GridArg? || args[i].SelectionArg?
    ensures ExpectSameShape(func, onError, args, length).Success?
  {
    assert ShapeOf(args[0]).Success?;
    forall i | 1 <= i < Min(length, |args|) ensures ShapeOf(args[i]).Success? {
      assert args[i].GridArg? || args[i].SelectionArg?;
    }
  }

  /**
   * `_Sequence.shape` on grids: their common shape when they all have one,
   * None when two of them differ or there are none.
   */
  lemma SequenceShape(gs: seq<Grid>)
    ensures (|gs| > 0 && forall k :: 0 <= k < |gs| ==> Shape(gs[k]) == Shape(gs[0])) ==>
      ShapeOf(ListArg(seq(|gs|, k requires 0 <= k < |gs| => GridArg(gs[k])))) == Success(Some(Shape(gs[0])))
    ensures (|gs| == 0 || exists k :: 0 <= k < |gs| && Shape(gs[k]) != Shape(gs[0])) ==>
      ShapeOf(ListArg(seq(|gs|, k requires 0 <= k < |gs| => GridArg(gs[k])))) == Success(None)
  {
    var items := seq(|gs|, k requires 0 <= k < |gs| => GridArg(gs[k]));
    forall x | x in items ensures ShapeOf(x).Success? {
      var k :| 0 <= k < |items| && items[k] == x;
    }
    if |gs| > 0 && exists k :: 0 <= k < |gs| && Shape(gs[k]) != Shape(gs[0]) {
      var k :| 0 <= k < |gs| && Shape(gs[k]) != Shape(gs[0]);
      assert items[k] in items && ShapeOf(items[k]) != ShapeOf(items[0]);
    }
    if |gs| > 0 && forall k :: 0 <= k < |gs| ==> Shape(gs[k]) == Shape(gs[0]) {
      forall x | x in items ensures ShapeOf(x) == ShapeOf(items[0]) {
        var k :| 0 <= k < |items| && items[k] == x;
      }
    }
  }
}
