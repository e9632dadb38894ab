/**
 * The random expansion graph of `function_sampling.py`: each expansion,
 * while the budget lasts, applies `map_color` to a randomly chosen node
 * with two distinct random colours, adds the new node, and reports it when
 * its value is the target.
 *
 * The random draws are nondeterministic choices: any node of the graph and
 * any two distinct colours of the ten may be drawn (every colour has a
 * positive weight, and the permutation draws without replacement).
 */
module FunctionSampling {
  import opened Wrappers
  import opened Values
  import opened Terms
  import FullSearch

  /** `random_permutation(color_probs, 2)`: two distinct colours of `Color`. */
  predicate ColorPair(a: int, b: int) {
    0 <= a < 10 && 0 <= b < 10 && a != b
  }

  /** `Function(vectorize(map_color), node, Constant(repeat(a)), Constant(repeat(b)))`. */
  function MapColorNode(t: Term, a: int, b: int): (r: Term)
    ensures r.Apply? && r.op == MapColor && |r.args| == 3 && r.args[0] == Sub(t)
    ensures WellFormed(r) <==> WellFormed(t)
  {
    Apply(MapColor, [Sub(t), FullSearch.Const(a), FullSearch.Const(b)])
  }

  /** An expansion is one level deeper than the node it expands. */
  lemma MapColorNodeDepth(t: Term, a: int, b: int)
    requires WellFormed(t)
    ensures Depth(MapColorNode(t, a, b)) == Depth(t) + 1
  {
    var r := MapColorNode(t, a, b);
    assert MaxArgDepth(r, 1) == Depth(t);
    assert MaxArgDepth(r, 2) == Depth(t);
  }

  /** `nodes.add(node)`: a node whose value is already there leaves the graph as it is. */
  lemma PoolGrows(m: map<Vector, Term>, t: Term, src: Vector, sem: Semantics)
    requires FullSearch.Pooled(m, src, sem) && WellFormed(t)
    ensures FullSearch.Pooled(map[ValueOf(t, src, sem) := t] + m, src, sem)
  {
  }

  /** `Graph(initial_nodes, target, max_expansions)`. */
  class Graph {
    const target: Option<Vector>
    const src: Vector
    const sem: Semantics
    var nodes: map<Vector, Term>
    var remaining: nat

    ghost predicate Valid()
      reads this
    {
      FullSearch.Pooled(nodes, src, sem)
    }

    constructor (initial: map<Vector, Term>, target: Option<Vector>, maxExpansions: nat, src: Vector, sem: Semantics)
      requires FullSearch.Pooled(initial, src, sem)
      ensures Valid()
      ensures this.target == target && this.src == src && this.sem == sem
      ensures nodes == initial && remaining == maxExpansions
    {
      this.target := target;
      this.src := src;
      this.sem := sem;
      nodes := initial;
      remaining := maxExpansions;
    }

    /** The outcome of expanding with node `t`: it joins the graph unless its value is there, and is reported if it is the target. */
    ghost predicate Expanded(before: map<Vector, Term>, t: Term, r: Result<Option<Term>>)
      reads this
    {
      var v := ValueOf(t, src, sem);
      && nodes == map[v := t] + before
      && r == Success(if target == Some(v) then Some(t) else None)
    }

    /**
     * `expand()`: `NoRemainingExpansions` once the budget is spent;
     * otherwise one unit of budget for a `map_color` node over a drawn node
     * and two distinct drawn colours. Drawing from an empty graph raises
     * `IndexError` after the budget is spent.
     */
    method Expand() returns (r: Result<Option<Term>>)
      requires Valid()
      modifies this`nodes, this`remaining
      ensures Valid()
      ensures old(remaining) == 0 ==> r == Failure("NoRemainingExpansions") && unchanged(this)
      ensures old(remaining) > 0 ==> remaining == old(remaining) - 1
      ensures old(remaining) > 0 && |old(nodes)| == 0 ==> r == Failure("IndexError") && nodes == old(nodes)
      ensures old(remaining) > 0 && |old(nodes)| > 0 ==>
        exists v, a, b :: v in old(nodes) && ColorPair(a, b) && Expanded(old(nodes), MapColorNode(old(nodes)[v], a, b), r)
    {
      if remaining == 0 {
        return Failure("NoRemainingExpansions");
      }
      remaining := remaining - 1;
      if |nodes| == 0 {
        return Failure("IndexError");
      }
      var v :| v in nodes;
      assert ColorPair(0, 1);
      var a, b :| ColorPair(a, b);
      var t := MapColorNode(nodes[v], a, b);
      ghost var before := nodes;
      var value := ValueOf(t, src, sem);
      PoolGrows(nodes, t, src, sem);
      nodes := map[value := t] + nodes;
      r := Success(if target == Some(value) then Some(t) else None);
      assert Expanded(before, MapColorNode(before[v], a, b), r);
    }
  }
}
