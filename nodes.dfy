/**
 * The nodes of the function graph. A `Constant` holds a value; a `Function`
 * applies a callable to the values of its argument nodes. A function is
 * evaluated lazily, on its first call, and keeps the result; a call with
 * `use_cache=False` recomputes it and asks every argument to do the same.
 *
 * The source keeps a constant's value and a function's cached result in the
 * same attribute, `value`; here they are the fields `payload` and `cache`,
 * so that the specification `Fresh()` (the value recomputed from the
 * constants) visibly depends on constants only. `calls` counts how often a
 * function's callable has run.
 */
module Nodes {
  import opened Wrappers

  /** Every node below some argument. */
  ghost function ArgsRepr<T(0)>(args: seq<Node<T>>): set<Node<T>> {
    set i, n | 0 <= i < |args| && n in args[i].Repr :: n
  }

  ghost function MaxHeight<T(0)>(args: seq<Node<T>>): (h: nat)
    ensures forall i :: 0 <= i < |args| ==> args[i].height <= h
  {
    if args == [] then 0
    else
      var rest := MaxHeight(args[1..]);
      assert forall i :: 1 <= i < |args| ==> args[i] == args[1..][i - 1];
      if args[0].height > rest then args[0].height else rest
  }

  class Node<T(0,==)> {
    const isFunction: bool
    const callable: seq<T> -> T
    const args: seq<Node<T>>
    ghost const Repr: set<Node<T>>
    ghost const height: nat

    var payload: T
    var cache: Option<T>
    var depthCache: Option<nat>
    ghost var calls: nat

    /** The node sits on top of an acyclic graph of valid nodes, and `Repr` is exactly that graph. */
    ghost predicate Valid()
      decreases height
    {
      this in Repr &&
      (!isFunction ==> args == [] && Repr == {this} && height == 0) &&
      (isFunction ==>
        Repr == {this} + ArgsRepr(args) &&
        forall i :: 0 <= i < |args| ==>
          args[i].height < height && this !in args[i].Repr && args[i].Valid())
    }

    /** `n` is a valid node of this graph whose own graph lies inside it. */
    ghost predicate Below(n: Node<T>) {
      n in Repr && n.Valid() && n.Repr <= Repr
    }

    lemma {:induction false} ReprBelow(n: Node<T>)
      requires Valid() && n in Repr
      ensures Below(n) && n.height <= height
      decreases height
    {
      if n != this {
        var i, m :| 0 <= i < |args| && m in args[i].Repr && m == n;
        args[i].ReprBelow(n);
      }
    }

    /** The value of the node with every function recomputed from the constants below it. */
    ghost function Fresh(): T
      requires Valid()
      reads Repr`payload
      decreases height, 1
    {
      if !isFunction then payload else callable(FreshArgs(|args|))
    }

    ghost function FreshArgs(k: nat): (r: seq<T>)
      requires Valid() && isFunction && k <= |args|
      reads Repr`payload
      ensures |r| == k && forall i :: 0 <= i < k ==> r[i] == args[i].Fresh()
      decreases height, 0, k
    {
      if k == 0 then [] else FreshArgs(k - 1) + [args[k - 1].Fresh()]
    }

    /** Every cached result in the graph is the value the function would compute now. */
    ghost predicate Coherent()
      requires Valid()
      reads Repr`cache, Repr`payload
    {
      forall n :: n in Repr && Below(n) && n.isFunction && n.cache.Some? ==> n.cache.value == n.Fresh()
    }

    /** Every function of the graph in `s` holds its current value in its cache. */
    ghost predicate FreshCaches(s: set<Node<T>>)
      requires Valid()
      reads Repr`cache, Repr`payload
    {
      forall n :: n in s && n in Repr && Below(n) && n.isFunction ==> n.cache == Some(n.Fresh())
    }

    /** How often each function of the graph has run. */
    ghost function Counts(): map<Node<T>, nat>
      reads Repr`calls
    {
      map n | n in Repr :: n.calls
    }

    /** Every function of the graph in `s` has run since the counts were `base`. */
    ghost predicate Raised(s: set<Node<T>>, base: map<Node<T>, nat>)
      reads Repr`calls
    {
      forall n :: n in s && n in Repr && n.isFunction ==> n in base && n.calls > base[n]
    }

    /** No function of the graph has run fewer times than in `base`. */
    ghost predicate Grown(base: map<Node<T>, nat>)
      reads Repr`calls
    {
      forall n :: n in Repr && n in base ==> n.calls >= base[n]
    }

    /** `Constant(value)`. */
    constructor Constant(value: T)
      ensures Valid() && !isFunction && payload == value
      ensures Fresh() == value
    {
      isFunction := false;
      callable := (xs: seq<T>) => value;
      args := [];
      Repr := {this};
      height := 0;
      payload := value;
      cache := None;
      depthCache := None;
      calls := 0;
    }

    /** `Function(callable_, *args)`: nothing is evaluated yet. */
    constructor Function(f: seq<T> -> T, arguments: seq<Node<T>>)
      requires forall i :: 0 <= i < |arguments| ==> arguments[i].Valid()
      ensures Valid() && isFunction && callable == f && args == arguments
      ensures Repr == {this} + ArgsRepr(arguments)
      ensures cache.None? && depthCache.None? && calls == 0
    {
      isFunction := true;
      callable := f;
      args := arguments;
      Repr := {this} + ArgsRepr(arguments);
      height := MaxHeight(arguments) + 1;
      cache := None;
      depthCache := None;
      calls := 0;
    }

    /** `Source.load(value)`: a constant's value is replaced, for replaying a program on a new input. */
    method Load(value: T)
      requires Valid() && !isFunction
      modifies this`payload
      ensures payload == value && Fresh() == value
    {
      payload := value;
    }

    /**
     * `node(use_cache)`. A constant gives its value either way. A function
     * with a cached result gives it without running anything; otherwise it
     * calls its arguments with the same flag, runs the callable once and
     * caches the result. On a graph whose caches are current, and always
     * with `use_cache=False`, the result is `Fresh()`; afterwards the caches
     * are current, and `use_cache=False` has recomputed every function below.
     */
    method Call(useCache: bool) returns (v: T)
      requires Valid()
      modifies Repr`cache, Repr`calls
      ensures !isFunction ==> v == payload
      ensures isFunction ==> cache == Some(v)
      ensures useCache && old(cache).Some? && isFunction ==> v == old(cache).value && unchanged(Repr)
      ensures isFunction && !(useCache && old(cache).Some?) ==> calls == old(calls) + 1
      ensures useCache && old(Coherent()) ==> v == Fresh() && Coherent()
      ensures !useCache ==> v == Fresh() && FreshCaches(Repr) && Raised(Repr, old(Counts()))
      ensures Grown(old(Counts()))
      decreases height, 1
    {
      if !isFunction {
        return payload;
      }
      if useCache && cache.Some? {
        assert useCache && old(Coherent()) ==> Below(this);
        return cache.value;
      }
      ghost var base := Counts();
      assert base == old(Counts());
      var values, done := CallArgs(useCache, old(Coherent()), base);
      v := callable(values);
      assert (!useCache || old(Coherent())) ==> v == Fresh();
      Store(v, base, done);
    }

    /** `[arg(use_cache) for arg in self.args]`, with what each call leaves true of the graph. */
    method CallArgs(useCache: bool, ghost coherent: bool, ghost base: map<Node<T>, nat>)
      returns (values: seq<T>, ghost done: set<Node<T>>)
      requires Valid() && isFunction && Repr <= base.Keys && Grown(base)
      requires useCache && coherent ==> Coherent()
      modifies Repr`cache, Repr`calls
      ensures done == ArgsRepr(args)
      ensures cache == old(cache) && calls == old(calls) && Grown(base)
      ensures (!useCache || coherent) ==> values == FreshArgs(|args|)
      ensures useCache && coherent ==> Coherent()
      ensures !useCache ==> FreshCaches(done) && Raised(done, base)
      decreases height, 0, 1
    {
      values := [];
      done := {};
      for i := 0 to |args|
        invariant done == ArgsRepr(args[..i])
        invariant cache == old(cache) && calls == old(calls)
        invariant Grown(base)
        invariant (!useCache || coherent) ==> values == FreshArgs(i)
        invariant useCache && coherent ==> Coherent()
        invariant !useCache ==> FreshCaches(done) && Raised(done, base)
      {
        var x := CallArg(i, useCache, coherent, base, done);
        values := values + [x];
        ArgsReprStep(args, i);
        done := done + args[i].Repr;
      }
      assert args[..|args|] == args;
    }

    /** `self.value = ...`: the root caches the value just computed and counts the run. */
    method Store(v: T, ghost base: map<Node<T>, nat>, ghost done: set<Node<T>>)
      requires Valid() && isFunction && Repr <= base.Keys && done == ArgsRepr(args)
      modifies this`cache, this`calls
      ensures cache == Some(v) && calls == old(calls) + 1
      ensures old(Grown(base)) ==> Grown(base)
      ensures v == Fresh() && old(Coherent()) ==> Coherent()
      ensures v == Fresh() && old(FreshCaches(done)) && old(Raised(done, base)) && old(Grown(base)) ==>
        FreshCaches(Repr) && Raised(Repr, base)
    {
      cache := Some(v);
      calls := calls + 1;
      FreshKept();
      assert Below(this);
      if old(Grown(base)) {
        forall n | n in Repr && n in base ensures n.calls >= base[n] {
          if n != this {
            assert n.calls == old(n.calls);
          }
        }
      }
      if v == Fresh() && old(FreshCaches(done)) {
        forall n | n in Repr && Below(n) && n.isFunction
          ensures n.cache == Some(n.Fresh())
        {
          if n != this {
            assert n in done;
            assert old(n.cache == Some(n.Fresh()));
          }
        }
      }
      if old(Raised(done, base)) && old(Grown(base)) {
        forall n | n in Repr && n.isFunction ensures n in base && n.calls > base[n] {
          if n != this {
            assert n in done;
          }
        }
      }
    }

    /** Every function below has at least one argument, so that `max` over the arguments' depths exists. */
    ghost predicate DepthDefined()
      requires Valid()
      decreases height
    {
      isFunction ==> |args| > 0 && forall i :: 0 <= i < |args| ==> args[i].DepthDefined()
    }

    /** `depth()`: 0 for a constant, one more than the deepest argument for a function. */
    ghost function Depth(): nat
      requires Valid() && DepthDefined()
      decreases height, 1
    {
      if !isFunction then 0 else 1 + MaxArgDepth(|args|)
    }

    ghost function MaxArgDepth(k: nat): (m: nat)
      requires Valid() && isFunction && 0 < k <= |args|
      requires forall i :: 0 <= i < k ==> args[i].DepthDefined()
      ensures forall i :: 0 <= i < k ==> args[i].Depth() <= m
      ensures exists i :: 0 <= i < k && args[i].Depth() == m
      decreases height, 0, k
    {
      if k == 1 then args[0].Depth()
      else
        var m := MaxArgDepth(k - 1);
        if args[k - 1].Depth() > m then args[k - 1].Depth() else m
    }

    /** Every stored depth below is the depth. */
    ghost predicate DepthCoherent()
      requires Valid()
      reads Repr`depthCache
    {
      forall n :: n in Repr && Below(n) && n.depthCache.Some? ==> n.DepthDefined() && n.depthCache.value == n.Depth()
    }

    /**
     * `depth()`, which stores its result in `_depth`. `max` of no arguments
     * raises; that error is `None` here, and nothing is stored then.
     */
    method ComputeDepth() returns (d: Option<nat>)
      requires Valid() && DepthCoherent()
      modifies Repr`depthCache
      ensures d.Some? <==> DepthDefined()
      ensures d.Some? ==> d.value == Depth()
      ensures isFunction && d.Some? ==> depthCache == d
      ensures DepthCoherent()
      decreases height, 1
    {
      if !isFunction {
        return Some(0);
      }
      if depthCache.Some? {
        assert Below(this);
        return depthCache;
      }
      if |args| == 0 {
        return None;
      }
      var m := MaxDepthOfArgs();
      if m.None? {
        return None;
      }
      assert DepthDefined() && 1 + m.value == Depth();
      label Before:
      depthCache := Some(1 + m.value);
      forall n | n in Repr && Below(n) && n.depthCache.Some?
        ensures n.DepthDefined() && n.depthCache.value == n.Depth()
      {
        if n != this {
          assert n.depthCache == old@Before(n.depthCache);
        }
      }
      return depthCache;
    }

    /** `max(arg.depth() for arg in args)`, argument by argument; None as soon as one has no depth. */
    method MaxDepthOfArgs() returns (m: Option<nat>)
      requires Valid() && isFunction && |args| > 0 && DepthCoherent()
      modifies Repr`depthCache
      ensures depthCache == old(depthCache) && DepthCoherent()
      ensures m.Some? <==> forall k :: 0 <= k < |args| ==> args[k].DepthDefined()
      ensures m.Some? ==> m.value == MaxArgDepth(|args|)
      decreases height, 0, 1
    {
      var best := 0;
      for i := 0 to |args|
        invariant depthCache == old(depthCache) && DepthCoherent()
        invariant forall k :: 0 <= k < i ==> args[k].DepthDefined()
        invariant 0 < i ==> best == MaxArgDepth(i)
      {
        var di := DepthArg(i);
        if di.None? {
          return None;
        }
        MaxArgDepthNext(i, best, di.value);
        if i == 0 || di.value > best {
          best := di.value;
        }
      }
      return Some(best);
    }

    /** The running maximum over the first `i + 1` argument depths. */
    lemma MaxArgDepthNext(i: nat, best: nat, d: nat)
      requires Valid() && isFunction && i < |args|
      requires forall k :: 0 <= k < i ==> args[k].DepthDefined()
      requires args[i].DepthDefined() && d == args[i].Depth()
      requires 0 < i ==> best == MaxArgDepth(i)
      ensures forall k :: 0 <= k < i + 1 ==> args[k].DepthDefined()
      ensures (if i == 0 || d > best then d else best) == MaxArgDepth(i + 1)
    {
    }

    /** `arg.depth()` for argument `i`, keeping the stored depths right. */
    method DepthArg(i: nat) returns (d: Option<nat>)
      requires Valid() && isFunction && i < |args| && DepthCoherent()
      modifies Repr`depthCache
      ensures depthCache == old(depthCache) && DepthCoherent()
      ensures d.Some? <==> args[i].DepthDefined()
      ensures d.Some? ==> d.value == args[i].Depth()
      decreases height, 0, 0
    {
      ArgStep(i);
      var a := args[i];
      assert a.DepthCoherent();
      d := a.ComputeDepth();
      forall n | n in Repr && Below(n) && n.depthCache.Some?
        ensures n.DepthDefined() && n.depthCache.value == n.Depth()
      {
        if n in a.Repr {
          a.ReprBelow(n);
        }
      }
    }

    /**
     * `==` between nodes: both are evaluated, with their caches, and compared
     * by value (the source compares the hashes of the values). On coherent
     * graphs two nodes are equal exactly when their recomputed values are,
     * whatever functions built them.
     */
    method Equals(other: Node<T>) returns (b: bool)
      requires Valid() && other.Valid() && Coherent() && other.Coherent()
      modifies Repr`cache, Repr`calls, other.Repr`cache, other.Repr`calls
      ensures b <==> Fresh() == other.Fresh()
      ensures Coherent() && other.Coherent()
    {
      var mine := CallBeside(other);
      var theirs := other.CallBeside(this);
      b := mine == theirs;
    }

    /** A cached call that keeps the caches of another coherent graph current too. */
    method CallBeside(other: Node<T>) returns (v: T)
      requires Valid() && other.Valid() && Coherent() && other.Coherent()
      modifies Repr`cache, Repr`calls
      ensures v == Fresh() && Coherent() && other.Coherent()
    {
      v := Call(true);
      other.FreshKept();
      forall n | n in other.Repr && other.Below(n) && n.isFunction && n.cache.Some?
        ensures n.cache.value == n.Fresh()
      {
        if n in Repr {
          ReprBelow(n);
        } else {
          assert old(n.cache.value == n.Fresh());
        }
      }
    }

    lemma ArgStep(i: nat)
      requires Valid() && isFunction && i < |args|
      ensures args[i].Valid() && args[i].Repr <= Repr && this !in args[i].Repr
      ensures forall n :: args[i].Below(n) ==> Below(n)
    {
      assert forall n :: n in args[i].Repr ==> n in ArgsRepr(args);
    }

    lemma ArgCoherent(i: nat)
      requires Valid() && isFunction && i < |args| && Coherent()
      ensures args[i].Coherent()
    {
      ArgStep(i);
    }

    /** Changing caches and counters leaves every recomputed value as it was. */
    twostate lemma FreshKept()
      requires Valid()
      requires forall n :: n in Repr ==> n.payload == old(n.payload)
      ensures forall n :: n in Repr && Below(n) ==> n.Fresh() == old(n.Fresh())
    {
    }

    /** `arg(use_cache)` for argument `i`, and what it leaves true of the facts `Call` keeps. */
    method CallArg(i: nat, useCache: bool, ghost coherent: bool, ghost base: map<Node<T>, nat>, ghost done: set<Node<T>>)
      returns (x: T)
      requires Valid() && isFunction && i < |args| && Repr <= base.Keys
      requires done == ArgsRepr(args[..i])
      requires useCache && coherent ==> Coherent()
      modifies Repr`cache, Repr`calls
      ensures cache == old(cache) && calls == old(calls)
      ensures FreshArgs(i) == old(FreshArgs(i))
      ensures (!useCache || coherent) ==> x == args[i].Fresh()
      ensures old(Grown(base)) ==> Grown(base)
      ensures useCache && coherent ==> Coherent()
      ensures !useCache && old(FreshCaches(done)) && old(Raised(done, base)) && old(Grown(base)) ==>
        FreshCaches(done + args[i].Repr) && Raised(done + args[i].Repr, base)
      decreases height, 0, 0
    {
      ArgStep(i);
      var a := args[i];
      if useCache && coherent {
        ArgCoherent(i);
      }
      ghost var argBase := a.Counts();
      x := a.Call(useCache);
      FreshKept();
      if old(Grown(base)) {
        forall n | n in Repr && n in base
          ensures n.calls >= base[n]
        {
          if n in a.Repr {
            assert n.calls >= argBase[n];
          }
        }
      }
      if useCache && coherent {
        forall n | n in Repr && Below(n) && n.isFunction && n.cache.Some?
          ensures n.cache.value == n.Fresh()
        {
          if n in a.Repr {
            a.ReprBelow(n);
          } else {
            assert old(n.cache.value == n.Fresh());
          }
        }
      }
      if !useCache && old(FreshCaches(done)) && old(Raised(done, base)) && old(Grown(base)) {
        forall n | n in done + a.Repr && n in Repr && Below(n) && n.isFunction
          ensures n.cache == Some(n.Fresh())
        {
          if n in a.Repr {
            a.ReprBelow(n);
          } else {
            assert old(n.cache == Some(n.Fresh()));
          }
        }
        forall n | n in done + a.Repr && n in Repr && n.isFunction
          ensures n in base && n.calls > base[n]
        {
          if n in a.Repr {
            assert n.calls > argBase[n];
          }
        }
      }
    }
  }

  lemma ArgsReprStep<T(0)>(args: seq<Node<T>>, i: nat)
    requires i < |args|
    ensures ArgsRepr(args[..i + 1]) == ArgsRepr(args[..i]) + args[i].Repr
  {
    var a, b := ArgsRepr(args[..i + 1]), ArgsRepr(args[..i]) + args[i].Repr;
    forall n | n in a ensures n in b {
      var k :| 0 <= k < i + 1 && n in args[..i + 1][k].Repr;
      if k < i {
        assert args[..i][k] == args[k];
      }
    }
    forall n | n in b ensures n in a {
      if n in args[i].Repr {
        assert args[..i + 1][i] == args[i];
      } else {
        var k :| 0 <= k < i && n in args[..i][k].Repr;
        assert args[..i + 1][k] == args[k];
      }
    }
  }
}
