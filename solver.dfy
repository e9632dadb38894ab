/**
 * The entry point of the function graph solver (`solver.py`): turn the
 * constraints into a source tuple and a target tuple, return the source
 * itself when it already is the target, otherwise search a graph for a node
 * with the target's value; the solution replays that node's program on a
 * single new input. `branching_factor` reports how many children a parent
 * node has on average.
 */
module Solver {
  import opened Wrappers
  import opened Values
  import opened Vectorize
  import opened Terms
  import opened Nodes
  import opened Programs
  import Selection
  import FullSearch

  /** `Constraint(source, target)`: one example pair. */
  datatype Constraint = Constraint(source: Elem, target: Elem)

  function Sources(cs: seq<Constraint>): (r: Vector)
    ensures |r| == |cs| && forall i :: 0 <= i < |cs| ==> r[i] == cs[i].source
  {
    seq(|cs|, i requires 0 <= i < |cs| => cs[i].source)
  }

  function Targets(cs: seq<Constraint>): (r: Vector)
    ensures |r| == |cs| && forall i :: 0 <= i < |cs| ==> r[i] == cs[i].target
  {
    seq(|cs|, i requires 0 <= i < |cs| => cs[i].target)
  }

  /** A program that maps every constraint's source to its target. */
  ghost predicate Solves(t: Term, cs: seq<Constraint>, sem: Semantics) {
    WellFormed(t) && forall i :: 0 <= i < |cs| ==> ElemEval(t, cs[i].source, sem) == cs[i].target
  }

  /** A term whose value over the sources is the target tuple maps each source to its own target. */
  lemma SolvesByValue(t: Term, cs: seq<Constraint>, sem: Semantics)
    requires WellFormed(t) && ValueOf(t, Sources(cs), sem) == Targets(cs)
    ensures Solves(t, cs, sem)
  {
    ValuePointwise(t, Sources(cs), sem);
  }

  /** `Solution(function, source)`: a program's node graph and the source node it reads. */
  class Solution {
    const node: ValueNode
    const source: ValueNode
    ghost const program: Term
    ghost const sem: Semantics

    ghost predicate Valid()
      reads node.Repr`payload, source`payload
    {
      && node.Valid() && source.Valid() && !source.isFunction
      && WellFormed(program) && Represents(node, program, source, sem)
    }

    constructor (node: ValueNode, source: ValueNode, ghost program: Term, ghost sem: Semantics)
      requires node.Valid() && source.Valid() && !source.isFunction
      requires WellFormed(program) && Represents(node, program, source, sem)
      ensures Valid()
      ensures this.node == node && this.source == source && this.program == program && this.sem == sem
    {
      this.node := node;
      this.source := source;
      this.program := program;
      this.sem := sem;
    }

    /** `solution(value)`: load `repeat_once(value)` and take the first element of an uncached evaluation. */
    method Run(v: Elem) returns (r: Elem)
      requires Valid()
      modifies source`payload, node.Repr`cache, node.Repr`calls
      ensures Valid() && source.payload == RepeatOnce(v)
      ensures r == ElemEval(program, v, sem)
    {
      source.Load(RepeatOnce(v));
      var out := node.Call(false);
      FreshIsEval(node, program, source, sem);
      EvalOnce(program, v, sem);
      assert Elements(out)[0] == At(out, 0);
      r := At(out, 0);
    }
  }

  /**
   * `solve(constraints, **kwargs)`: the source node itself when its value
   * is the target, otherwise the node a full search finds, as a solution
   * that maps every constraint's source to its target. `usages` and `fuel`
   * stand for the usage counts and the bound on the search's rounds.
   */
  method Solve(cs: seq<Constraint>, sem: Semantics, usages: Term -> nat,
               maxDepth: nat, maxUsages: nat, batchSize: nat, fuel: nat) returns (r: Option<Solution>)
    requires Sources(cs) != Targets(cs) ==> FullSearch.TargetOK(Targets(cs))
    ensures Sources(cs) == Targets(cs) ==> r.Some? && r.value.program == Source
    ensures r.Some? ==> fresh(r.value) && r.value.Valid() && r.value.sem == sem
    ensures r.Some? ==> Solves(r.value.program, cs, sem)
  {
    var src, target := Sources(cs), Targets(cs);
    var s := new Node<Iter<Elem>>.Constant(Items(src));
    if src == target {
      SolvesByValue(Source, cs, sem);
      var solution := new Solution(s, s, Source, sem);
      return Some(solution);
    }
    var initial := map[src := Source];
    assert FullSearch.Pooled(initial, src, sem);
    var graph := new FullSearch.Graph(initial, target, src, sem, usages, maxDepth, maxUsages, batchSize);
    var found := graph.Solve(fuel);
    if found.None? {
      return None;
    }
    var t := found.value;
    SolvesByValue(t, cs, sem);
    var n := Build(t, s, sem);
    var solution := new Solution(n, s, t, sem);
    return Some(solution);
  }

  /** A field of `Statistics`: a number, or a bound method where the number was meant. */
  datatype Field = Number(x: real) | BoundMethod

  /**
   * `Statistics.__str__`: every field is formatted with `{:.2f}`, which a
   * number accepts and a method refuses with `TypeError`; the first such
   * field ends the formatting.
   */
  function FormatFields(fields: seq<Field>): (r: Result<seq<real>>)
    ensures r.Success? <==> forall i :: 0 <= i < |fields| ==> fields[i].Number?
    ensures r.Failure? ==> r.error == "TypeError"
    ensures r.Success? ==> |r.value| == |fields| && forall i :: 0 <= i < |fields| ==> r.value[i] == fields[i].x
  {
    if |fields| == 0 then Success([])
    else if fields[0].BoundMethod? then Failure("TypeError")
    else match FormatFields(fields[1..])
      case Success(rest) => Success([fields[0].x] + rest)
      case Failure(e) => Failure(e)
  }

  /** `Statistics.from_graph(node, graph)` as written: `depth=node.depth` stores the method itself. */
  function StatisticsAsWritten(branching: real, count: nat): seq<Field> {
    [BoundMethod, Number(branching), Number(count as real)]
  }

  /** `Statistics.from_graph(node, graph)` as intended: the depth is `node.depth()`. */
  function Statistics(depth: nat, branching: real, count: nat): seq<Field> {
    [Number(depth as real), Number(branching), Number(count as real)]
  }

  /** The intended statistics format to their three numbers; the ones as written always raise. */
  lemma StatisticsFormat(depth: nat, branching: real, count: nat)
    ensures FormatFields(Statistics(depth, branching, count)) == Success([depth as real, branching, count as real])
    ensures FormatFields(StatisticsAsWritten(branching, count)) == Failure("TypeError")
  {
    var fields := Statistics(depth, branching, count);
    assert forall i :: 0 <= i < |fields| ==> fields[i].Number?;
    var r := FormatFields(fields);
    assert |r.value| == 3 && r.value[0] == depth as real && r.value[1] == branching && r.value[2] == count as real;
    assert r.value == [depth as real, branching, count as real];
    assert StatisticsAsWritten(branching, count)[0].BoundMethod?;
  }

  /**
   * `solve` as written, given what the graph search returned: a found node
   * reaches `str(statistics)` in the debug log call, which formats the
   * stored method and raises. So only the early return of the source node
   * ever gives a solution.
   */
  function SolveAsWritten(src: Vector, target: Vector, found: Option<Term>, branching: real, count: nat): (r: Result<Option<Term>>)
    ensures r.Success? && r.value.Some? ==> src == target && r.value.value == Source
    ensures src == target ==> r == Success(Some(Source))
    ensures src != target && found.Some? ==> r == Failure("TypeError")
    ensures src != target && found.None? ==> r == Success(None)
  {
    if src == target then Success(Some(Source))
    else if found.None? then Success(None)
    else match FormatFields(StatisticsAsWritten(branching, count))
      case Failure(e) => Failure(e)
      case Success(_) => Success(found)
  }

  /**
   * A parent in `branching_factor`'s dictionary. Nodes compare by the hash
   * of their value: a function or source argument is one parent per value,
   * and a constant argument, whose `repeat` wrapper hashes as the repeated
   * element, is one parent per element.
   */
  datatype Parent = NodeParent(value: Vector) | ConstParent(element: Elem)

  function ParentOf(a: Arg, src: Vector, sem: Semantics): Parent {
    match a
    case Sub(u) => NodeParent(ValueOf(u, src, sem))
    case Lit(e) => ConstParent(e)
  }

  /** The parents of the first `k` arguments of a node with term `t`. */
  function ParentsUpTo(t: Term, k: nat, src: Vector, sem: Semantics): set<Parent>
    requires t.Apply? && k <= |t.args|
  {
    set i | 0 <= i < k :: ParentOf(t.args[i], src, sem)
  }

  /** The parents of a node: none for the source, one per argument for a function. */
  function Parents(t: Term, src: Vector, sem: Semantics): set<Parent> {
    if t.Source? then {} else ParentsUpTo(t, |t.args|, src, sem)
  }

  /** The parents of the nodes in `done`. */
  function ParentsIn(nodes: map<Vector, Term>, done: set<Vector>, src: Vector, sem: Semantics): set<Parent> {
    set v, i | v in done && v in nodes && nodes[v].Apply? && 0 <= i < |nodes[v].args| ::
      ParentOf(nodes[v].args[i], src, sem)
  }

  /** The nodes in `done` that have `p` as a parent. */
  function ChildrenIn(nodes: map<Vector, Term>, done: set<Vector>, p: Parent, src: Vector, sem: Semantics): set<Vector> {
    set v | v in done && v in nodes && p in Parents(nodes[v], src, sem)
  }

  /** The dictionary `children` after the loop has seen the nodes in `done`. */
  function Children(nodes: map<Vector, Term>, done: set<Vector>, src: Vector, sem: Semantics): (m: map<Parent, set<Vector>>)
  {
    map p | p in ParentsIn(nodes, done, src, sem) :: ChildrenIn(nodes, done, p, src, sem)
  }

  /** Every parent in the dictionary has a child, and every child is a node of the graph. */
  lemma ChildrenFilled(nodes: map<Vector, Term>, src: Vector, sem: Semantics, p: Parent)
    requires p in Children(nodes, nodes.Keys, src, sem)
    ensures Children(nodes, nodes.Keys, src, sem)[p] != {}
    ensures Children(nodes, nodes.Keys, src, sem)[p] <= nodes.Keys
  {
    var v, i :| v in nodes && nodes[v].Apply? && 0 <= i < |nodes[v].args| && p == ParentOf(nodes[v].args[i], src, sem);
    assert p in ParentsUpTo(nodes[v], |nodes[v].args|, src, sem);
    assert v in ChildrenIn(nodes, nodes.Keys, p, src, sem);
  }

  /**
   * Two nodes that take the same constant, at any positions, are children of
   * one parent: the constant's element.
   */
  lemma SharedConstant(nodes: map<Vector, Term>, src: Vector, sem: Semantics, v: Vector, i: nat, w: Vector, j: nat, e: Elem)
    requires v in nodes && nodes[v].Apply? && i < |nodes[v].args| && nodes[v].args[i] == Lit(e)
    requires w in nodes && nodes[w].Apply? && j < |nodes[w].args| && nodes[w].args[j] == Lit(e)
    ensures ConstParent(e) in Children(nodes, nodes.Keys, src, sem)
    ensures {v, w} <= Children(nodes, nodes.Keys, src, sem)[ConstParent(e)]
  {
  }

  /** `children[p].add(v)` for every `p` in `ps`, the dictionary's default being the empty set. */
  function Extend(m: map<Parent, set<Vector>>, v: Vector, ps: set<Parent>): map<Parent, set<Vector>> {
    map p | p in m.Keys + ps :: (if p in m then m[p] else {}) + (if p in ps then {v} else {})
  }

  /** One node more seen by the outer loop brings its own parents. */
  lemma ParentsStep(nodes: map<Vector, Term>, done: set<Vector>, v: Vector, src: Vector, sem: Semantics)
    requires v in nodes
    ensures ParentsIn(nodes, done + {v}, src, sem) == ParentsIn(nodes, done, src, sem) + Parents(nodes[v], src, sem)
  {
    var t := nodes[v];
    forall p | p in ParentsIn(nodes, done + {v}, src, sem)
      ensures p in ParentsIn(nodes, done, src, sem) + Parents(t, src, sem)
    {
      var w, i :| w in done + {v} && w in nodes && nodes[w].Apply? && 0 <= i < |nodes[w].args|
        && p == ParentOf(nodes[w].args[i], src, sem);
      if w == v {
        assert p in ParentsUpTo(t, |t.args|, src, sem);
      } else {
        assert p in ParentsIn(nodes, done, src, sem);
      }
    }
    forall p | p in Parents(t, src, sem) ensures p in ParentsIn(nodes, done + {v}, src, sem) {
      var i :| 0 <= i < |t.args| && p == ParentOf(t.args[i], src, sem);
    }
    forall p | p in ParentsIn(nodes, done, src, sem) ensures p in ParentsIn(nodes, done + {v}, src, sem) {
      var w, i :| w in done && w in nodes && nodes[w].Apply? && 0 <= i < |nodes[w].args|
        && p == ParentOf(nodes[w].args[i], src, sem);
      assert w in done + {v};
    }
  }

  /** One node more seen by the outer loop is a new child of exactly its own parents. */
  lemma ChildrenInStep(nodes: map<Vector, Term>, done: set<Vector>, v: Vector, p: Parent, src: Vector, sem: Semantics)
    requires v in nodes
    ensures ChildrenIn(nodes, done + {v}, p, src, sem)
         == ChildrenIn(nodes, done, p, src, sem) + (if p in Parents(nodes[v], src, sem) then {v} else {})
  {
  }

  /** One node more seen by the outer loop adds it under each of its parents. */
  lemma ChildrenStep(nodes: map<Vector, Term>, done: set<Vector>, v: Vector, src: Vector, sem: Semantics)
    requires v in nodes && v !in done
    ensures Children(nodes, done + {v}, src, sem)
         == Extend(Children(nodes, done, src, sem), v, Parents(nodes[v], src, sem))
  {
    var ps := Parents(nodes[v], src, sem);
    var before := Children(nodes, done, src, sem);
    var after := Children(nodes, done + {v}, src, sem);
    var ext := Extend(before, v, ps);
    ParentsStep(nodes, done, v, src, sem);
    assert after.Keys == ext.Keys;
    forall p | p in after ensures after[p] == ext[p] {
      assert after[p] == ChildrenIn(nodes, done + {v}, p, src, sem);
      ChildStep(nodes, done, v, p, src, sem);
      if p in before {
        assert before[p] == ChildrenIn(nodes, done, p, src, sem);
      }
    }
  }

  /** The children of one parent, before and after one node more is seen. */
  lemma ChildStep(nodes: map<Vector, Term>, done: set<Vector>, v: Vector, p: Parent, src: Vector, sem: Semantics)
    requires v in nodes
    ensures ChildrenIn(nodes, done + {v}, p, src, sem)
         == (if p in ParentsIn(nodes, done, src, sem) then ChildrenIn(nodes, done, p, src, sem) else {})
          + (if p in Parents(nodes[v], src, sem) then {v} else {})
  {
    ChildrenInStep(nodes, done, v, p, src, sem);
    if p !in ParentsIn(nodes, done, src, sem) {
      ChildrenOfNoParent(nodes, done, p, src, sem);
    }
  }

  /** A parent of no node seen so far has no children yet. */
  lemma ChildrenOfNoParent(nodes: map<Vector, Term>, done: set<Vector>, p: Parent, src: Vector, sem: Semantics)
    requires p !in ParentsIn(nodes, done, src, sem)
    ensures ChildrenIn(nodes, done, p, src, sem) == {}
  {
  }

  /** The loop of `branching_factor` that files each function under the parents of its arguments. */
  method Gather(nodes: map<Vector, Term>, src: Vector, sem: Semantics) returns (children: map<Parent, set<Vector>>)
    ensures children == Children(nodes, nodes.Keys, src, sem)
  {
    children := map[];
    ghost var done: set<Vector> := {};
    var pending := nodes.Keys;
    while pending != {}
      invariant pending <= nodes.Keys && done == nodes.Keys - pending
      invariant children == Children(nodes, done, src, sem)
      decreases |pending|
    {
      var v :| v in pending;
      ChildrenStep(nodes, done, v, src, sem);
      children := AddChild(children, v, nodes[v], src, sem);
      done := done + {v};
      pending := pending - {v};
    }
    assert done == nodes.Keys;
  }

  /** Nothing to add leaves the dictionary as it is. */
  lemma ExtendNone(m: map<Parent, set<Vector>>, v: Vector)
    ensures Extend(m, v, {}) == m
  {
    assert Extend(m, v, {}).Keys == m.Keys;
    forall q | q in m ensures Extend(m, v, {})[q] == m[q] {
    }
  }

  /** Adding under one parent more is one `children[p].add(v)` on the dictionary so far. */
  lemma ExtendOne(m: map<Parent, set<Vector>>, v: Vector, ps: set<Parent>, p: Parent)
    ensures var e := Extend(m, v, ps); e[p := (if p in e then e[p] else {}) + {v}] == Extend(m, v, ps + {p})
  {
    var e := Extend(m, v, ps);
    var f := Extend(m, v, ps + {p});
    var g := e[p := (if p in e then e[p] else {}) + {v}];
    assert g.Keys == f.Keys;
    forall q | q in f ensures g[q] == f[q] {
    }
  }

  /** The inner loop of `branching_factor`: file a function under the parent of each of its arguments. */
  method AddChild(children: map<Parent, set<Vector>>, v: Vector, t: Term, src: Vector, sem: Semantics)
      returns (r: map<Parent, set<Vector>>)
    ensures r == Extend(children, v, Parents(t, src, sem))
  {
    ExtendNone(children, v);
    r := children;
    if t.Apply? {
      assert ParentsUpTo(t, 0, src, sem) == {};
      for i := 0 to |t.args|
        invariant r == Extend(children, v, ParentsUpTo(t, i, src, sem))
      {
        var p := ParentOf(t.args[i], src, sem);
        ExtendOne(children, v, ParentsUpTo(t, i, src, sem), p);
        r := r[p := (if p in r then r[p] else {}) + {v}];
        assert ParentsUpTo(t, i + 1, src, sem) == ParentsUpTo(t, i, src, sem) + {p};
      }
    }
  }

  /**
   * `branching_factor(graph)`: 0 when no node has a parent, otherwise the
   * mean number of children per parent, which lies between 1 and the
   * number of nodes.
   */
  method BranchingFactor(nodes: map<Vector, Term>, src: Vector, sem: Semantics) returns (r: real)
    ensures r == 0.0 <==> Children(nodes, nodes.Keys, src, sem) == map[]
    ensures r != 0.0 ==> r == SizeSum(Children(nodes, nodes.Keys, src, sem), Children(nodes, nodes.Keys, src, sem).Keys) as real
                            / |Children(nodes, nodes.Keys, src, sem)| as real
    ensures r != 0.0 ==> 1.0 <= r <= |nodes| as real
  {
    var children := Gather(nodes, src, sem);
    if |children| == 0 {
      return 0.0;
    }
    var total, count := SumSizes(children);
    ChildrenSizes(nodes, src, sem);
    SizeSumBounds(children, children.Keys, |nodes|);
    r := total as real / count as real;
    MeanBounds(total, count, |nodes|);
  }

  /** `sum(map(len, children.values()))` and `len(children)`. */
  method SumSizes(children: map<Parent, set<Vector>>) returns (total: nat, count: nat)
    ensures total == SizeSum(children, children.Keys) && count == |children|
  {
    total, count := 0, 0;
    var pending := children.Keys;
    assert children.Keys - pending == {};
    while pending != {}
      invariant pending <= children.Keys && count + |pending| == |children|
      invariant total == SizeSum(children, children.Keys - pending)
      decreases |pending|
    {
      var p :| p in pending;
      SizeSumAdd(children, children.Keys - pending, p);
      assert (children.Keys - pending) + {p} == children.Keys - (pending - {p});
      total := total + |children[p]|;
      count := count + 1;
      pending := pending - {p};
    }
    assert children.Keys - pending == children.Keys;
  }

  ghost function Pick(keys: set<Parent>): (p: Parent)
    requires keys != {}
    ensures p in keys
  {
    var p :| p in keys; p
  }

  /** The sum of the sizes of the child sets of the parents in `keys`. */
  ghost function SizeSum(m: map<Parent, set<Vector>>, keys: set<Parent>): nat
    requires keys <= m.Keys
    decreases keys
  {
    if keys == {} then 0 else |m[Pick(keys)]| + SizeSum(m, keys - {Pick(keys)})
  }

  /** The sum does not depend on the order in which the parents are taken. */
  lemma {:induction false} SizeSumRemove(m: map<Parent, set<Vector>>, keys: set<Parent>, q: Parent)
    requires keys <= m.Keys && q in keys
    ensures SizeSum(m, keys) == |m[q]| + SizeSum(m, keys - {q})
    decreases keys
  {
    var p := Pick(keys);
    if p != q {
      SizeSumRemove(m, keys - {p}, q);
      assert keys - {p} - {q} == keys - {q} - {p};
      SizeSumRemove(m, keys - {q}, p);
    }
  }

  /** Adding one parent to the summed keys adds the size of its child set. */
  lemma SizeSumAdd(m: map<Parent, set<Vector>>, keys: set<Parent>, q: Parent)
    requires keys <= m.Keys && q in m && q !in keys
    ensures SizeSum(m, keys + {q}) == SizeSum(m, keys) + |m[q]|
  {
    SizeSumRemove(m, keys + {q}, q);
    assert keys + {q} - {q} == keys;
  }

  /** A sum of `|keys|` sizes, each between 1 and `n`, lies between `|keys|` and `|keys| * n`. */
  lemma {:induction false} SizeSumBounds(m: map<Parent, set<Vector>>, keys: set<Parent>, n: nat)
    requires keys <= m.Keys && forall p :: p in keys ==> 1 <= |m[p]| <= n
    ensures |keys| <= SizeSum(m, keys) <= |keys| * n
    decreases keys
  {
    if keys != {} {
      var p := Pick(keys);
      SizeSumBounds(m, keys - {p}, n);
      assert |keys| == |keys - {p}| + 1;
      assert |keys| * n == |keys - {p}| * n + n;
    }
  }

  /** Every child set of `branching_factor`'s dictionary holds between 1 and all the nodes. */
  lemma ChildrenSizes(nodes: map<Vector, Term>, src: Vector, sem: Semantics)
    ensures forall p :: p in Children(nodes, nodes.Keys, src, sem) ==>
      1 <= |Children(nodes, nodes.Keys, src, sem)[p]| <= |nodes|
  {
    var children := Children(nodes, nodes.Keys, src, sem);
    forall p | p in children ensures 1 <= |children[p]| <= |nodes| {
      ChildrenFilled(nodes, src, sem, p);
      Selection.SubsetCard(children[p], nodes.Keys);
    }
  }

  /** A mean of `count` sizes whose sum is `total`, each between 1 and `n`, lies between 1 and `n`. */
  lemma MeanBounds(total: nat, count: nat, n: nat)
    requires 0 < count <= total <= count * n
    ensures 1.0 <= total as real / count as real <= n as real
  {
    var c, t := count as real, total as real;
    assert t <= c * n as real by {
      RealProduct(count, n);
    }
    assert 1.0 <= t / c by {
      Divided(c, t, 1.0);
    }
    assert t / c <= n as real by {
      Divided(c, t, n as real);
    }
  }

  lemma RealProduct(a: nat, b: nat)
    ensures (a * b) as real == a as real * b as real
  {
  }

  lemma Divided(c: real, t: real, k: real)
    requires c > 0.0
    ensures t / c >= k <==> t >= k * c
    ensures t / c <= k <==> t <= k * c
  {
  }
}
