/**
 * The typed index of value tuples. A `NodeCollection` is a set of nodes
 * that also files each node, when it is added, under its common type, the
 * common length of its tuples, and its shape, height and width vectors.
 * Nodes are equal exactly when their values are, so the model files the
 * value tuples themselves. The buckets are `defaultdict`s: reading a
 * missing key creates it empty, and the methods that read one say so.
 */
module Collections {
  import opened Wrappers
  import opened Values

  /** `d[k]` of a `defaultdict(set)`, without the insertion. */
  function Lookup<K, V>(m: map<K, set<V>>, k: K): set<V> {
    if k in m then m[k] else {}
  }

  /** The tuple kinds the property indexes accept: grids, selections and tuples of them. */
  predicate Applicable(v: Vector) {
    CommonType(v).Some? && HasShape(CommonType(v).value)
  }

  /** Tuples of tuples: the kinds whose property may be None. */
  predicate Sequenced(v: Vector) {
    CommonType(v).Some? && IsSequenceKind(CommonType(v).value)
  }

  predicate AllSome<P>(pv: seq<Option<P>>) {
    forall i :: 0 <= i < |pv| ==> pv[i].Some?
  }

  /** `with_length(n)` membership: a vector of tuples every one of which has `n` items. */
  predicate HasLength(v: Vector, n: nat) {
    Sequenced(v) && forall i :: 0 <= i < |v| ==> ItemCount(v[i]) == Some(n)
  }

  /** The item counts of a vector of tuples, as the set `{len(element) for element in vector}`. */
  function LengthSet(v: Vector): (r: set<nat>)
    requires Sequenced(v)
    ensures forall n :: n in r <==> exists i :: 0 <= i < |v| && ItemCount(v[i]) == Some(n)
  {
    assert forall i :: 0 <= i < |v| ==> ItemCount(v[i]).Some? by {
      forall i | 0 <= i < |v| ensures ItemCount(v[i]).Some? {
        assert KindOf(v[i]) == CommonType(v).value;
      }
    }
    set i | 0 <= i < |v| :: ItemCount(v[i]).value
  }

  /** One distinct length is the length of every tuple, and a common length is the only distinct one. */
  lemma {:induction false} SingleLength(v: Vector, n: nat)
    requires Sequenced(v)
    ensures LengthSet(v) == {n} <==> HasLength(v, n)
  {
    var r := LengthSet(v);
    if r == {n} {
      forall i | 0 <= i < |v| ensures ItemCount(v[i]) == Some(n) {
        assert KindOf(v[i]) == CommonType(v).value;
        assert ItemCount(v[i]).value in r;
      }
    }
    if HasLength(v, n) {
      assert v[0] == v[0];
      assert n in r;
      assert forall m :: m in r ==> m == n;
    }
  }

  /** A set of one element: anything in it is that element. */
  lemma SingletonMembers<T>(s: set<T>, x: T)
    requires |s| == 1 && x in s
    ensures s == {x}
  {
    assert |s - {x}| == 0;
    assert s - {x} == {};
  }

  /** The set of the nodes of a list. */
  function Members(xs: seq<Vector>): set<Vector> {
    set v | v in xs
  }

  /** The nodes of a prefix, one more element at a time. */
  lemma PrefixSet(xs: seq<Vector>, i: nat)
    requires i < |xs|
    ensures Members(xs[..i + 1]) == Members(xs[..i]) + {xs[i]}
  {
    assert xs[..i + 1] == xs[..i] + [xs[i]];
  }

  /** `_ByProperty`: nodes filed by a vectorized property, and the tuples whose property is defined everywhere. */
  class ByProperty<P(==,!new)> {
    const getProperty: Vector -> seq<Option<P>>
    var byProperty: map<seq<Option<P>>, set<Vector>>
    var matchingSequences: set<Vector>

    /** The nodes of `s` with property vector `pv`. */
    ghost function Having(s: set<Vector>, pv: seq<Option<P>>): set<Vector> {
      set v | v in s && Applicable(v) && getProperty(v) == pv
    }

    /** The buckets file exactly the applicable nodes of `s`. */
    ghost predicate Indexes(s: set<Vector>)
      reads this
    {
      (forall pv :: Lookup(byProperty, pv) == Having(s, pv)) &&
      matchingSequences == set v | v in s && Sequenced(v) && AllSome(getProperty(v))
    }

    constructor (getProperty: Vector -> seq<Option<P>>)
      ensures this.getProperty == getProperty && Indexes({})
    {
      this.getProperty := getProperty;
      byProperty := map[];
      matchingSequences := {};
    }

    /** `process(node, type_)`: files the node only when its kind carries a shape. */
    method Process(node: Vector, k: Kind, ghost s: set<Vector>)
      requires CommonType(node) == Some(k) && Indexes(s)
      modifies this
      ensures byProperty == if HasShape(k)
        then old(byProperty)[getProperty(node) := Lookup(old(byProperty), getProperty(node)) + {node}]
        else old(byProperty)
      ensures matchingSequences == if IsSequenceKind(k) && AllSome(getProperty(node))
        then old(matchingSequences) + {node} else old(matchingSequences)
      ensures Indexes(s + {node})
    {
      if HasShape(k) {
        var pv := getProperty(node);
        byProperty := byProperty[pv := Lookup(byProperty, pv) + {node}];
        forall q ensures Lookup(byProperty, q) == Having(s + {node}, q) {
          if q != pv {
            assert Lookup(byProperty, q) == Lookup(old(byProperty), q);
          }
        }
        if IsSequenceKind(k) && AllSome(pv) {
          matchingSequences := matchingSequences + {node};
        }
      }
    }

    /** `__call__(value)`: the nodes with that property vector; the key is created when missing. */
    method Get(pv: seq<Option<P>>, ghost s: set<Vector>) returns (r: set<Vector>)
      requires Indexes(s)
      modifies this`byProperty
      ensures r == Having(s, pv)
      ensures byProperty == old(byProperty)[pv := r] && Indexes(s)
    {
      r := Lookup(byProperty, pv);
      byProperty := byProperty[pv := r];
      forall q ensures Lookup(byProperty, q) == Having(s, q) {
        if q != pv {
          assert Lookup(byProperty, q) == Lookup(old(byProperty), q);
        }
      }
    }

    /** `values`: the property vectors seen so far. */
    function Values(): set<seq<Option<P>>>
      reads this
    {
      byProperty.Keys
    }

    /** Every applicable node's property vector is among the values. */
    lemma ValuesCover(s: set<Vector>, v: Vector)
      requires Indexes(s) && v in s && Applicable(v)
      ensures getProperty(v) in Values()
    {
      assert v in Having(s, getProperty(v));
    }
  }

  class NodeCollection {
    var nodes: set<Vector>
    var byType: map<Kind, set<Vector>>
    var byLength: map<nat, set<Vector>>
    const withShape: ByProperty<(nat, nat)>
    const withHeight: ByProperty<nat>
    const withWidth: ByProperty<nat>

    /** The three property indexes exist, are distinct, and compute shape, height and width. */
    ghost predicate Wired()
      reads this
    {
      withHeight != withWidth &&
      withShape.getProperty == ShapeVector && withHeight.getProperty == HeightVector &&
      withWidth.getProperty == WidthVector
    }

    /** `with_type(k)` would be exactly the nodes of `s` of common type `k`. */
    ghost predicate TypeIndexed(s: set<Vector>)
      reads this`byType
    {
      forall k :: Lookup(byType, k) == set v | v in s && CommonType(v) == Some(k)
    }

    /** `with_length(n)` would be exactly the nodes of `s` whose tuples all have `n` items. */
    ghost predicate LengthIndexed(s: set<Vector>)
      reads this`byLength
    {
      forall n :: Lookup(byLength, n) == set v | v in s && HasLength(v, n)
    }

    /** The buckets file exactly the nodes of `s`. */
    ghost predicate IndexedBy(s: set<Vector>)
      reads this, withShape, withHeight, withWidth
    {
      Wired() && TypeIndexed(s) && LengthIndexed(s) &&
      withShape.Indexes(s) && withHeight.Indexes(s) && withWidth.Indexes(s)
    }

    ghost predicate Valid()
      reads this, withShape, withHeight, withWidth
    {
      IndexedBy(nodes)
    }

    /** `NodeCollection(nodes)`: the set of the nodes, each filed once. */
    constructor (initial: seq<Vector>)
      ensures Valid() && nodes == Members(initial)
      ensures fresh(withShape) && fresh(withHeight) && fresh(withWidth)
    {
      nodes := Members(initial);
      byType := map[];
      byLength := map[];
      withShape := new ByProperty(ShapeVector);
      withHeight := new ByProperty(HeightVector);
      withWidth := new ByProperty(WidthVector);
      new;
      ghost var done: set<Vector> := {};
      for i := 0 to |initial|
        invariant done == Members(initial[..i])
        invariant IndexedBy(done)
        invariant nodes == Members(initial)
      {
        Process(initial[i], done);
        PrefixSet(initial, i);
        done := done + {initial[i]};
      }
      assert initial[..|initial|] == initial;
    }

    /** `add(node)`: inserts the node and files it; nothing else is refiled. */
    method Add(node: Vector)
      requires Valid()
      modifies this`nodes, this`byType, this`byLength, withShape, withHeight, withWidth
      ensures nodes == old(nodes) + {node} && Valid()
      ensures byType == if CommonType(node).Some?
        then old(byType)[CommonType(node).value := Lookup(old(byType), CommonType(node).value) + {node}]
        else old(byType)
    {
      nodes := nodes + {node};
      Process(node, old(nodes));
    }

    /** `_process(node)`: files one node under its type, its length and its three properties. */
    method Process(node: Vector, ghost s: set<Vector>)
      requires IndexedBy(s)
      modifies this`byType, this`byLength, withShape, withHeight, withWidth
      ensures IndexedBy(s + {node})
      ensures byType == if CommonType(node).Some?
        then old(byType)[CommonType(node).value := Lookup(old(byType), CommonType(node).value) + {node}]
        else old(byType)
    {
      var t := CommonType(node);
      if t.Some? {
        var k := t.value;
        FileType(node, k, s);
        withShape.Process(node, k, s);
        withHeight.Process(node, k, s);
        withWidth.Process(node, k, s);
        FileLength(node, k, s);
      } else {
        assert forall n :: !HasLength(node, n);
      }
    }

    method FileType(node: Vector, k: Kind, ghost s: set<Vector>)
      requires CommonType(node) == Some(k) && TypeIndexed(s)
      modifies this`byType
      ensures byType == old(byType)[k := Lookup(old(byType), k) + {node}]
      ensures TypeIndexed(s + {node})
    {
      byType := byType[k := Lookup(byType, k) + {node}];
      forall q ensures Lookup(byType, q) == set v | v in s + {node} && CommonType(v) == Some(q) {
        if q != k {
          assert Lookup(byType, q) == Lookup(old(byType), q);
        }
      }
    }

    /** Files a node of kind `k` under its length, when its tuples share one. */
    method FileLength(node: Vector, k: Kind, ghost s: set<Vector>)
      requires CommonType(node) == Some(k) && LengthIndexed(s)
      modifies this`byLength
      ensures LengthIndexed(s + {node})
    {
      if IsSequenceKind(k) {
        var lengths := LengthSet(node);
        if |lengths| == 1 {
          var n :| n in lengths;
          SingletonMembers(lengths, n);
          SingleLength(node, n);
          byLength := byLength[n := Lookup(byLength, n) + {node}];
          forall q ensures Lookup(byLength, q) == set v | v in s + {node} && HasLength(v, q) {
            if q != n {
              assert Lookup(byLength, q) == Lookup(old(byLength), q);
              if HasLength(node, q) {
                SingleLength(node, q);
              }
            }
          }
        } else {
          forall q | HasLength(node, q) ensures false {
            SingleLength(node, q);
          }
          Unfiled(node, s);
        }
      } else {
        Unfiled(node, s);
      }
    }

    /** A node with no common length leaves every length bucket as it was. */
    lemma Unfiled(node: Vector, s: set<Vector>)
      requires LengthIndexed(s) && forall q :: !HasLength(node, q)
      ensures LengthIndexed(s + {node})
    {
      forall q ensures Lookup(byLength, q) == set v | v in s + {node} && HasLength(v, q) {
        assert !HasLength(node, q);
      }
    }

    /** `with_type(type_)`: the nodes of that common type; the key is created when missing. */
    method WithType(k: Kind) returns (r: set<Vector>)
      requires Valid()
      modifies this`byType
      ensures r == set v | v in nodes && CommonType(v) == Some(k)
      ensures byType == old(byType)[k := r] && Valid()
    {
      r := Lookup(byType, k);
      byType := byType[k := r];
      forall q ensures Lookup(byType, q) == set v | v in nodes && CommonType(v) == Some(q) {
        if q != k {
          assert Lookup(byType, q) == Lookup(old(byType), q);
        }
      }
    }

    /** `with_length(length)`: the tuple nodes all of whose tuples have that many items. */
    method WithLength(n: nat) returns (r: set<Vector>)
      requires Valid()
      modifies this`byLength
      ensures r == set v | v in nodes && HasLength(v, n)
      ensures byLength == old(byLength)[n := r] && Valid()
    {
      r := Lookup(byLength, n);
      byLength := byLength[n := r];
      forall q ensures Lookup(byLength, q) == set v | v in nodes && HasLength(v, q) {
        if q != n {
          assert Lookup(byLength, q) == Lookup(old(byLength), q);
        }
      }
    }
  }
}
