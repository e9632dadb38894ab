/**
 * The round-based search of `sampling_search.py`: a graph that starts from
 * the source, adds the valid new functions of each round, and reports a
 * node whose value is the target; and the solution that replays it on a
 * single new input.
 *
 * Which functions a round proposes is the parameter `generate` (the call in
 * the original does not match the generator it imports).
 */
module SamplingSearch {
  import opened Wrappers
  import opened Values
  import opened Vectorize
  import opened Terms
  import opened Nodes
  import opened Programs
  import FullSearch
  import Solver

  /** The nodes of `added` that `add` keeps: those not yet in the graph with a value at every position. */
  function Admitted(added: map<Vector, Term>, nodes: map<Vector, Term>): (r: map<Vector, Term>)
    ensures forall v :: v in r <==> v in added && v !in nodes && IsValid(v)
    ensures forall v :: v in r ==> r[v] == added[v]
  {
    map v | v in added && v !in nodes && IsValid(v) :: added[v]
  }

  /** The loop of `add` that collects the value tuples with a missing position. */
  method Invalid(vs: set<Vector>) returns (invalid: set<Vector>)
    ensures forall v :: v in invalid <==> v in vs && !IsValid(v)
  {
    invalid := {};
    var pending := vs;
    while pending != {}
      invariant pending <= vs
      invariant forall v :: v in invalid <==> v in vs && v !in pending && !IsValid(v)
      decreases |pending|
    {
      var v :| v in pending;
      if !IsValid(v) {
        invalid := invalid + {v};
      }
      pending := pending - {v};
    }
  }

  /** `Graph` of `sampling_search.py`: the source node and every valid node found. */
  class Graph {
    const src: Vector
    ghost const sem: Semantics
    var nodes: map<Vector, Term>

    ghost predicate Valid()
      reads this
    {
      FullSearch.Pooled(nodes, src, sem) && src in nodes
    }

    /** `Graph(source)`: the source alone. */
    constructor (src: Vector, ghost sem: Semantics)
      ensures Valid() && this.src == src && this.sem == sem
      ensures nodes == map[src := Source]
    {
      this.src := src;
      this.sem := sem;
      nodes := map[src := Source];
    }

    /**
     * `add(added_nodes)`: of the nodes not yet present, check each one and
     * keep those with a value at every position.
     */
    method Add(added: map<Vector, Term>)
      requires Valid() && FullSearch.Pooled(added, src, sem)
      modifies this`nodes
      ensures Valid()
      ensures nodes == old(nodes) + Admitted(added, old(nodes))
      ensures forall v :: v in old(nodes) ==> v in nodes && nodes[v] == old(nodes)[v]
      ensures forall v :: v in nodes && v !in old(nodes) ==> v in added && IsValid(v)
    {
      var unseen := map v | v in added && v !in nodes :: added[v];
      var invalid := Invalid(unseen.Keys);
      var kept := map v | v in unseen && v !in invalid :: unseen[v];
      assert kept == Admitted(added, nodes);
      nodes := nodes + kept;
    }

    /** `solution(target)`: a node whose value is the target, if the graph has one. */
    method Solution(target: Vector) returns (r: Option<Term>)
      requires Valid()
      ensures r.Some? <==> target in nodes
      ensures r.Some? ==> r.value == nodes[target]
    {
      var pending := nodes.Keys;
      while pending != {}
        invariant pending <= nodes.Keys
        invariant target in nodes ==> target in pending
        decreases |pending|
      {
        var v :| v in pending;
        if v == target {
          return Some(nodes[v]);
        }
        pending := pending - {v};
      }
      return None;
    }
  }

  /** What a round may propose: well-formed functions, whatever the graph. */
  ghost predicate Proposes(generate: (map<Vector, Term>, Vector) -> set<Term>) {
    forall m, target, t :: t in generate(m, target) ==> WellFormed(t)
  }

  /**
   * `solve(constraints, max_depth)`: `sources, targets = zip(*constraints)`
   * raises `ValueError` when there are no constraints; otherwise the search
   * over the source and target tuples. The constraints are the same
   * `(source, target)` pairs as `Solver.Constraint`.
   */
  method Solve(cs: seq<Solver.Constraint>, maxDepth: nat, sem: Semantics,
               generate: (map<Vector, Term>, Vector) -> set<Term>) returns (r: Result<Option<Term>>, ghost rounds: nat)
    requires Proposes(generate)
    ensures |cs| == 0 <==> r == Failure("ValueError")
    ensures r.Success? ==> rounds <= maxDepth
    ensures r.Success? && r.value.Some? ==> WellFormed(r.value.value) && ValueOf(r.value.value, Solver.Sources(cs), sem) == Solver.Targets(cs)
    ensures r.Success? && r.value.None? ==> rounds == maxDepth
    ensures r.Success? && Solver.Sources(cs) == Solver.Targets(cs) ==> r.value == Some(Source) && rounds == 0
  {
    if |cs| == 0 {
      return Failure("ValueError"), 0;
    }
    var found;
    found, rounds := Search(Solver.Sources(cs), Solver.Targets(cs), maxDepth, sem, generate);
    return Success(found), rounds;
  }

  /**
   * The rounds of `solve` over the source and target tuples: check the
   * source, then run rounds of generation until a node is the target or
   * `max_depth` rounds have run.
   */
  method Search(src: Vector, target: Vector, maxDepth: nat, sem: Semantics,
                generate: (map<Vector, Term>, Vector) -> set<Term>) returns (r: Option<Term>, ghost rounds: nat)
    requires Proposes(generate)
    ensures rounds <= maxDepth
    ensures r.Some? ==> WellFormed(r.value) && ValueOf(r.value, src, sem) == target
    ensures r.None? ==> rounds == maxDepth
    ensures src == target ==> r == Some(Source) && rounds == 0
  {
    var graph := new Graph(src, sem);
    r := graph.Solution(target);
    rounds := 0;
    var depth := 0;
    while r.None? && depth < maxDepth
      invariant graph.Valid() && graph.src == src && graph.sem == sem
      invariant depth <= maxDepth && rounds == depth
      invariant r.Some? ==> target in graph.nodes && r.value == graph.nodes[target]
      invariant src == target ==> r == Some(Source) && depth == 0
      decreases maxDepth - depth
    {
      depth := depth + 1;
      rounds := depth;
      var proposed := generate(graph.nodes, target);
      var added := FullSearch.Dedupe(proposed, src, sem);
      graph.Add(added);
      r := graph.Solution(target);
    }
  }

  /** `Solution(function, source)`: a found node and the source node it reads. */
  class Solution {
    const node: ValueNode
    const source: ValueNode
    ghost const program: Term
    ghost const sem: Semantics

    ghost predicate Valid()
      reads node.Repr`payload, source`payload
    {
      && node.Valid() && source.Valid() && !source.isFunction
      && WellFormed(program) && Represents(node, program, source, sem)
    }

    constructor (node: ValueNode, source: ValueNode, ghost program: Term, ghost sem: Semantics)
      requires node.Valid() && source.Valid() && !source.isFunction
      requires WellFormed(program) && Represents(node, program, source, sem)
      ensures Valid()
      ensures this.node == node && this.source == source && this.program == program && this.sem == sem
    {
      this.node := node;
      this.source := source;
      this.program := program;
      this.sem := sem;
    }

    /** `solution(value)`: load `(value,)` as the source and take position 0 of an uncached evaluation. */
    method Run(v: Elem) returns (r: Elem)
      requires Valid()
      modifies source`payload, node.Repr`cache, node.Repr`calls
      ensures Valid() && source.payload == Items([v])
      ensures r == ElemEval(program, v, sem)
    {
      source.Load(Items([v]));
      var out := node.Call(false);
      FreshIsEval(node, program, source, sem);
      ValuePointwise(program, [v], sem);
      assert Elements(out)[0] == At(out, 0);
      r := At(out, 0);
    }
  }
}
