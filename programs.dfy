/**
 * Node graphs built from terms. The candidate generators build `Function`
 * and `Constant` nodes over nodes the graph already holds; `Build` does the
 * same for a whole term over a given source node, and `Represents` records
 * that a node graph has a term's shape. The lemma `FreshIsEval` is what
 * makes the two views agree: a represented node computes the term's value.
 */
module Programs {
  import opened Wrappers
  import opened Values
  import opened Vectorize
  import opened Terms
  import opened Nodes

  /** A node of the function graph; its values are element tuples, endless repeats or single elements. */
  type ValueNode = Node<Iter<Elem>>

  /** The node graph `n`, over source `s`, has the shape of term `t`. */
  ghost predicate Represents(n: ValueNode, t: Term, s: ValueNode, sem: Semantics)
    requires n.Valid()
    reads (n.Repr - {s})`payload
    decreases t
  {
    match t
    case Source => n == s
    case Apply(op, args) =>
      n.isFunction && n.callable == Lift(sem, op) && |n.args| == |args| &&
      forall i :: 0 <= i < |args| ==> ArgRepresents(n, i, args[i], s, sem)
  }

  /** Argument `i` of `n` is the node of `a`: its term's graph, or a constant holding `repeat(c)`. */
  ghost predicate ArgRepresents(n: ValueNode, i: nat, a: Arg, s: ValueNode, sem: Semantics)
    requires n.Valid() && n.isFunction && i < |n.args|
    reads (n.Repr - {s})`payload
    decreases a
  {
    n.ArgStep(i);
    ArgNode(n.args[i], a, s, sem)
  }

  /** The node `m` stands for argument `a`: its term's graph, or a constant holding `repeat(c)`. */
  ghost predicate ArgNode(m: ValueNode, a: Arg, s: ValueNode, sem: Semantics)
    requires m.Valid()
    reads (m.Repr - {s})`payload
    decreases a, 0
  {
    match a
    case Sub(u) => Represents(m, u, s, sem)
    case Lit(e) => !m.isFunction && m != s && m.payload == Repeat(e)
  }

  /** A represented node, recomputed from its constants, has the term's value over the source's value. */
  lemma {:induction false} FreshIsEval(n: ValueNode, t: Term, s: ValueNode, sem: Semantics)
    requires n.Valid() && s.Valid() && !s.isFunction && Represents(n, t, s, sem)
    ensures n.Fresh() == Eval(t, s.payload, sem)
    decreases t
  {
    if t.Apply? {
      var xs := ArgValues(t, s.payload, sem);
      var ys := n.FreshArgs(|t.args|);
      forall i | 0 <= i < |t.args| ensures ys[i] == xs[i] {
        n.ArgStep(i);
        assert ArgRepresents(n, i, t.args[i], s, sem);
        assert ArgNode(n.args[i], t.args[i], s, sem);
        if t.args[i].Sub? {
          FreshIsEval(n.args[i], t.args[i].term, s, sem);
        }
      }
      assert ys == xs;
    }
  }

  /** Builds the node graph of `t` over the source node `s`: new `Function` and `Constant(repeat(c))` nodes. */
  method Build(t: Term, s: ValueNode, sem: Semantics) returns (n: ValueNode)
    requires s.Valid() && !s.isFunction
    ensures n.Valid() && Represents(n, t, s, sem)
    ensures forall m :: m in n.Repr ==> m == s || fresh(m)
    ensures n.Fresh() == Eval(t, s.payload, sem)
    decreases t, 2
  {
    if t.Source? {
      n := s;
    } else {
      var nodes := BuildArgs(t, s, sem);
      n := new Node<Iter<Elem>>.Function(Lift(sem, t.op), nodes);
      forall i | 0 <= i < |t.args| ensures ArgRepresents(n, i, t.args[i], s, sem) {
        n.ArgStep(i);
      }
    }
    FreshIsEval(n, t, s, sem);
  }

  /** The nodes of the arguments of `t`, built one after another. */
  method BuildArgs(t: Term, s: ValueNode, sem: Semantics) returns (nodes: seq<ValueNode>)
    requires t.Apply? && s.Valid() && !s.isFunction
    ensures |nodes| == |t.args|
    ensures forall k :: 0 <= k < |nodes| ==> nodes[k].Valid() && ArgNode(nodes[k], t.args[k], s, sem)
    ensures forall k :: 0 <= k < |nodes| ==> forall m :: m in nodes[k].Repr ==> m == s || fresh(m)
    decreases t, 1
  {
    nodes := [];
    for i := 0 to |t.args|
      invariant |nodes| == i
      invariant forall k :: 0 <= k < i ==> nodes[k].Valid() && ArgNode(nodes[k], t.args[k], s, sem)
      invariant forall k :: 0 <= k < i ==> forall m :: m in nodes[k].Repr ==> m == s || fresh(m)
    {
      var a := BuildArg(t.args[i], s, sem);
      nodes := nodes + [a];
    }
  }

  /** The node of one argument: the graph of its term, or a new `Constant(repeat(c))`. */
  method BuildArg(a: Arg, s: ValueNode, sem: Semantics) returns (m: ValueNode)
    requires s.Valid() && !s.isFunction
    ensures m.Valid() && ArgNode(m, a, s, sem)
    ensures forall x :: x in m.Repr ==> x == s || fresh(x)
    decreases a, 0
  {
    if a.Sub? {
      m := Build(a.term, s, sem);
    } else {
      m := new Node<Iter<Elem>>.Constant(Repeat(a.value));
    }
  }
}
