/**
 * The backtracking search of the state-tree solver. Starting from the
 * sources, it tries every operation valid for all current arguments, applies
 * it to each argument and recurses, up to a maximum depth; a branch ends as
 * soon as every argument unwraps to its target. A found program is the list
 * of operations along the branch, applied left to right.
 *
 * Applying an operation is the parameter `apply` (the operations are given by
 * `Parameterize.Apply`, which leaves the order of islands open); the
 * operations tried are `Parameterize.ValidOps`.
 */
module TreeSearch {
  import opened Wrappers
  import opened Arguments
  import opened Argument
  import Parameterize

  type Op = Parameterize.Op

  /** Python truthiness of an argument: None and empty sequences are false, grids and selections true. */
  predicate Truthy(a: Arg) {
    match a
    case NoneArg => false
    case ListArg(items) => |items| > 0
    case _ => true
  }

  predicate AllTruthy(args: seq<Arg>) {
    forall i :: 0 <= i < |args| ==> Truthy(args[i])
  }

  /**
   * `is_solved`: each argument unwraps to a grid equal to its target. An
   * argument that does not unwrap (`ArgumentError`) makes the answer False.
   */
  predicate Solved(args: seq<Arg>, targets: seq<Grid>) {
    forall i :: 0 <= i < |args| && i < |targets| ==> ExtractScalar(args[i], GridType) == Some(GridArg(targets[i]))
  }

  /** `[function(arg) for arg in arguments]`. */
  function Step(apply: (Op, Arg) -> Arg, f: Op, args: seq<Arg>): (r: seq<Arg>)
    ensures |r| == |args| && forall i :: 0 <= i < |args| ==> r[i] == apply(f, args[i])
  {
    seq(|args|, i requires 0 <= i < |args| => apply(f, args[i]))
  }

  /** `set.intersection(*[valid_functions(arg) for arg in arguments])`; Python refuses an empty argument list here. */
  function CommonValid(valid: Arg -> set<Op>, args: seq<Arg>): (r: set<Op>)
    requires |args| > 0
    ensures forall f :: f in r <==> forall i :: 0 <= i < |args| ==> f in valid(args[i])
  {
    set f | f in valid(args[0]) && forall i :: 0 <= i < |args| ==> f in valid(args[i])
  }

  // ---- programs ----

  /** The result of a program: its operations applied to `a` from first to last. */
  function Exec(apply: (Op, Arg) -> Arg, p: seq<Op>, a: Arg): Arg
    decreases |p|
  {
    if p == [] then a else Exec(apply, p[1..], apply(p[0], a))
  }

  /** Running two programs one after the other is running their concatenation. */
  lemma {:induction false} ExecAppend(apply: (Op, Arg) -> Arg, p: seq<Op>, q: seq<Op>, a: Arg)
    ensures Exec(apply, p + q, a) == Exec(apply, q, Exec(apply, p, a))
    decreases |p|
  {
    if p == [] {
      assert p + q == q;
    } else {
      assert (p + q)[1..] == p[1..] + q;
      ExecAppend(apply, p[1..], q, apply(p[0], a));
    }
  }

  /** `Program.__call__`: reassigns the argument once per operation, in list order. */
  method Run(apply: (Op, Arg) -> Arg, p: seq<Op>, a: Arg) returns (r: Arg)
    ensures r == Exec(apply, p, a)
  {
    r := a;
    for i := 0 to |p|
      invariant r == Exec(apply, p[..i], a)
    {
      ExecAppend(apply, p[..i], [p[i]], a);
      assert p[..i + 1] == p[..i] + [p[i]];
      r := apply(p[i], r);
    }
    assert p[..|p|] == p;
  }

  /** `Program.chain`: the operation goes in front of the sub-program. */
  function Chain(f: Op, sub: seq<Op>): seq<Op> {
    [f] + sub
  }

  /** A chained program first applies the operation, then runs the sub-program on its result. */
  lemma ChainRuns(apply: (Op, Arg) -> Arg, f: Op, sub: seq<Op>, a: Arg)
    ensures |Chain(f, sub)| == |sub| + 1
    ensures Exec(apply, Chain(f, sub), a) == Exec(apply, sub, apply(f, a))
  {
    assert Chain(f, sub)[1..] == sub;
  }

  // ---- the search ----

  /**
   * A program the search may accept for `args`: along the way every argument
   * stays truthy, each operation is valid for all current arguments, and at
   * the end every argument unwraps to its target.
   */
  ghost predicate Admissible(apply: (Op, Arg) -> Arg, valid: Arg -> set<Op>, targets: seq<Grid>, p: seq<Op>, args: seq<Arg>)
    decreases |p|
  {
    |args| > 0 && AllTruthy(args) &&
    if p == [] then Solved(args, targets)
    else p[0] in CommonValid(valid, args) && Admissible(apply, valid, targets, p[1..], Step(apply, p[0], args))
  }

  /** An admissible program, run on each argument on its own, turns it into its target. */
  lemma {:induction false} AdmissibleSolves(apply: (Op, Arg) -> Arg, valid: Arg -> set<Op>, targets: seq<Grid>, p: seq<Op>, args: seq<Arg>)
    requires Admissible(apply, valid, targets, p, args)
    ensures forall i :: 0 <= i < |args| && i < |targets| ==>
      ExtractScalar(Exec(apply, p, args[i]), GridType) == Some(GridArg(targets[i]))
    decreases |p|
  {
    if p != [] {
      var next := Step(apply, p[0], args);
      AdmissibleSolves(apply, valid, targets, p[1..], next);
      forall i | 0 <= i < |args| && i < |targets|
        ensures ExtractScalar(Exec(apply, p, args[i]), GridType) == Some(GridArg(targets[i]))
      {
        assert Exec(apply, p, args[i]) == Exec(apply, p[1..], next[i]);
      }
    }
  }

  /** No admissible program of at most `fuel` operations exists. */
  ghost predicate Hopeless(apply: (Op, Arg) -> Arg, valid: Arg -> set<Op>, targets: seq<Grid>, args: seq<Arg>, fuel: nat) {
    forall p :: |p| <= fuel ==> !Admissible(apply, valid, targets, p, args)
  }

  lemma ChainAdmissible(apply: (Op, Arg) -> Arg, valid: Arg -> set<Op>, targets: seq<Grid>, f: Op, sub: seq<Op>, args: seq<Arg>)
    requires |args| > 0 && AllTruthy(args) && f in CommonValid(valid, args)
    requires Admissible(apply, valid, targets, sub, Step(apply, f, args))
    ensures Admissible(apply, valid, targets, Chain(f, sub), args)
  {
    assert Chain(f, sub)[1..] == sub;
  }

  /** When the arguments are not solved, a program must start with a common valid operation. */
  lemma {:induction false} HopelessStep(apply: (Op, Arg) -> Arg, valid: Arg -> set<Op>, targets: seq<Grid>, args: seq<Arg>, fuel: nat)
    requires |args| > 0 && !Solved(args, targets)
    requires fuel > 0 ==> forall g :: g in CommonValid(valid, args) ==> Hopeless(apply, valid, targets, Step(apply, g, args), fuel - 1)
    ensures Hopeless(apply, valid, targets, args, fuel)
  {
    forall p | |p| <= fuel
      ensures !Admissible(apply, valid, targets, p, args)
    {
      if p != [] && p[0] in CommonValid(valid, args) {
        assert !Admissible(apply, valid, targets, p[1..], Step(apply, p[0], args));
      }
    }
  }

  /**
   * `solve_recursive(arguments, depth)`: a falsy argument ends the branch
   * with None; solved arguments give the empty program; at `max_depth` the
   * branch gives up; otherwise each common valid operation is tried, in an
   * unspecified order, and the first that leads to a program is chained in
   * front of it. The search is complete: None means no admissible program
   * of at most `max_depth - depth` operations exists.
   */
  method SolveRecursive(apply: (Op, Arg) -> Arg, valid: Arg -> set<Op>, targets: seq<Grid>, maxDepth: nat, args: seq<Arg>, depth: nat)
    returns (r: Option<seq<Op>>)
    requires |args| > 0 && depth <= maxDepth
    ensures !AllTruthy(args) ==> r.None?
    ensures AllTruthy(args) && Solved(args, targets) ==> r == Some([])
    ensures r.Some? ==> |r.value| <= maxDepth - depth && Admissible(apply, valid, targets, r.value, args)
    ensures r.None? ==> Hopeless(apply, valid, targets, args, maxDepth - depth)
    decreases maxDepth - depth, 1
  {
    if !AllTruthy(args) {
      return None;
    }
    if Solved(args, targets) {
      return Some([]);
    }
    if depth == maxDepth {
      HopelessStep(apply, valid, targets, args, 0);
      return None;
    }
    r := TryOps(apply, valid, targets, maxDepth, args, depth);
  }

  /** `for function in valid_functions: ...`: the first common valid operation that leads to a program wins. */
  method TryOps(apply: (Op, Arg) -> Arg, valid: Arg -> set<Op>, targets: seq<Grid>, maxDepth: nat, args: seq<Arg>, depth: nat)
    returns (r: Option<seq<Op>>)
    requires |args| > 0 && AllTruthy(args) && !Solved(args, targets) && depth < maxDepth
    ensures r.Some? ==> |r.value| <= maxDepth - depth && Admissible(apply, valid, targets, r.value, args)
    ensures r.None? ==> Hopeless(apply, valid, targets, args, maxDepth - depth)
    decreases maxDepth - depth, 0
  {
    var common := CommonValid(valid, args);
    var remaining := common;
    ghost var tried: set<Op> := {};
    while remaining != {}
      invariant remaining + tried == common
      invariant forall g :: g in tried ==> Hopeless(apply, valid, targets, Step(apply, g, args), maxDepth - depth - 1)
      decreases |remaining|
    {
      var f :| f in remaining;
      var results := Step(apply, f, args);
      var sub := SolveRecursive(apply, valid, targets, maxDepth, results, depth + 1);
      if sub.Some? {
        ChainAdmissible(apply, valid, targets, f, sub.value, args);
        return Some(Chain(f, sub.value));
      }
      remaining := remaining - {f};
      tried := tried + {f};
    }
    HopelessStep(apply, valid, targets, args, maxDepth - depth);
    return None;
  }

  function Sources(constraints: seq<(Grid, Grid)>): (r: seq<Arg>)
    ensures |r| == |constraints| && forall i :: 0 <= i < |constraints| ==> r[i] == GridArg(constraints[i].0)
  {
    seq(|constraints|, i requires 0 <= i < |constraints| => GridArg(constraints[i].0))
  }

  function Targets(constraints: seq<(Grid, Grid)>): (r: seq<Grid>)
    ensures |r| == |constraints| && forall i :: 0 <= i < |constraints| ==> r[i] == constraints[i].1
  {
    seq(|constraints|, i requires 0 <= i < |constraints| => constraints[i].1)
  }

  /**
   * `solve(constraints, max_depth)` on (source, target) pairs. Unzipping no
   * pairs into sources and targets raises `ValueError`. A returned program
   * has at most `max_depth` operations and turns every source into its
   * target; the empty program comes back when every source already is its
   * target; None comes back only when no admissible program exists.
   */
  method Solve(apply: (Op, Arg) -> Arg, constraints: seq<(Grid, Grid)>, maxDepth: nat) returns (r: Result<Option<seq<Op>>>)
    ensures |constraints| == 0 <==> r == Failure("ValueError")
    ensures |constraints| > 0 ==> r.Success?
    ensures r.Success? && (forall i :: 0 <= i < |constraints| ==> constraints[i].0 == constraints[i].1) ==> r.value == Some([])
    ensures r.Success? && r.value.Some? ==> |r.value.value| <= maxDepth
    ensures r.Success? && r.value.Some? ==> forall i :: 0 <= i < |constraints| ==>
      ExtractScalar(Exec(apply, r.value.value, GridArg(constraints[i].0)), GridType) == Some(GridArg(constraints[i].1))
    ensures r.Success? ==>
      (r.value.Some? <==> exists p :: |p| <= maxDepth && Admissible(apply, Parameterize.ValidOps, Targets(constraints), p, Sources(constraints)))
  {
    if |constraints| == 0 {
      return Failure("ValueError");
    }
    var program := SolveConstraints(apply, constraints, maxDepth);
    r := Success(program);
  }

  /** `solve_recursive(sources, depth=0)` once there are constraints to unzip. */
  method SolveConstraints(apply: (Op, Arg) -> Arg, constraints: seq<(Grid, Grid)>, maxDepth: nat) returns (r: Option<seq<Op>>)
    requires |constraints| > 0
    ensures (forall i :: 0 <= i < |constraints| ==> constraints[i].0 == constraints[i].1) ==> r == Some([])
    ensures r.Some? ==> |r.value| <= maxDepth
    ensures r.Some? ==> forall i :: 0 <= i < |constraints| ==>
      ExtractScalar(Exec(apply, r.value, GridArg(constraints[i].0)), GridType) == Some(GridArg(constraints[i].1))
    ensures r.Some? <==> exists p :: |p| <= maxDepth && Admissible(apply, Parameterize.ValidOps, Targets(constraints), p, Sources(constraints))
  {
    var sources, targets := Sources(constraints), Targets(constraints);
    r := SolveRecursive(apply, Parameterize.ValidOps, targets, maxDepth, sources, 0);
    if forall i :: 0 <= i < |constraints| ==> constraints[i].0 == constraints[i].1 {
      AlreadySolved(constraints);
    }
    if r.Some? {
      SolvesConstraints(apply, Parameterize.ValidOps, constraints, r.value);
      Found(apply, Parameterize.ValidOps, targets, sources, maxDepth, r.value);
    } else {
      NotFound(apply, Parameterize.ValidOps, targets, sources, maxDepth);
    }
  }

  /** An admissible program turns each source into its target. */
  lemma SolvesConstraints(apply: (Op, Arg) -> Arg, valid: Arg -> set<Op>, constraints: seq<(Grid, Grid)>, p: seq<Op>)
    requires Admissible(apply, valid, Targets(constraints), p, Sources(constraints))
    ensures forall i :: 0 <= i < |constraints| ==>
      ExtractScalar(Exec(apply, p, GridArg(constraints[i].0)), GridType) == Some(GridArg(constraints[i].1))
  {
    var sources, targets := Sources(constraints), Targets(constraints);
    AdmissibleSolves(apply, valid, targets, p, sources);
    forall i | 0 <= i < |constraints|
      ensures ExtractScalar(Exec(apply, p, GridArg(constraints[i].0)), GridType) == Some(GridArg(constraints[i].1))
    {
      assert sources[i] == GridArg(constraints[i].0) && targets[i] == constraints[i].1;
    }
  }

  /** Sources equal to their targets are truthy and already solved. */
  lemma AlreadySolved(constraints: seq<(Grid, Grid)>)
    requires forall i :: 0 <= i < |constraints| ==> constraints[i].0 == constraints[i].1
    ensures AllTruthy(Sources(constraints)) && Solved(Sources(constraints), Targets(constraints))
  {
  }

  lemma Found(apply: (Op, Arg) -> Arg, valid: Arg -> set<Op>, targets: seq<Grid>, args: seq<Arg>, fuel: nat, p: seq<Op>)
    requires |p| <= fuel && Admissible(apply, valid, targets, p, args)
    ensures exists q :: |q| <= fuel && Admissible(apply, valid, targets, q, args)
  {
  }

  lemma NotFound(apply: (Op, Arg) -> Arg, valid: Arg -> set<Op>, targets: seq<Grid>, args: seq<Arg>, fuel: nat)
    requires Hopeless(apply, valid, targets, args, fuel)
    ensures !exists q :: |q| <= fuel && Admissible(apply, valid, targets, q, args)
  {
  }
}
