/**
 * Vectorized application. A node's value holds one element per constraint;
 * an operation is applied position by position over its arguments, which
 * are such tuples or wrapped constants: `repeat(v)` supplies `v` at every
 * position, `repeat_once(v)` exactly once. As with `zip`, the result is as
 * long as the shortest finite argument.
 */
module Vectorize {
  import opened Wrappers

  /** An argument of a vectorized call: a tuple, `repeat(v)` or `repeat_once(v)`. */
  datatype Iter<T> = Items(items: seq<T>) | Repeat(value: T) | RepeatOnce(value: T)

  predicate Finite<T>(x: Iter<T>) {
    !x.Repeat?
  }

  /** How many elements iterating over `x` yields, when that is finite. */
  function Length<T>(x: Iter<T>): nat
    requires Finite(x)
  {
    if x.Items? then |x.items| else 1
  }

  /** The element iteration yields at position `i`. */
  function At<T>(x: Iter<T>, i: nat): T
    requires Finite(x) ==> i < Length(x)
  {
    match x
    case Items(s) => s[i]
    case Repeat(v) => v
    case RepeatOnce(v) => v
  }

  /** The elements of a finite argument, in order. */
  function Elements<T>(x: Iter<T>): (r: seq<T>)
    requires Finite(x)
    ensures |r| == Length(x) && forall i :: 0 <= i < |r| ==> r[i] == At(x, i)
  {
    match x
    case Items(s) => s
    case RepeatOnce(v) => [v]
  }

  /** `repeat(v)` supplies `v` at every position, however far iteration goes. */
  lemma RepeatEverywhere<T>(v: T, i: nat)
    ensures !Finite(Repeat(v)) && At(Repeat(v), i) == v
  {
  }

  /** `repeat_once(v)` yields exactly one element, `v`. */
  lemma RepeatOnceSingle<T>(v: T)
    ensures Finite(RepeatOnce(v)) && Elements(RepeatOnce(v)) == [v]
  {
  }

  predicate HasFinite<T>(args: seq<Iter<T>>) {
    exists j :: 0 <= j < |args| && Finite(args[j])
  }

  /** The length of the shortest finite argument; None when no argument is finite. */
  function MinLength<T>(args: seq<Iter<T>>): (r: Option<nat>)
    ensures r.None? <==> !HasFinite(args)
    ensures r.Some? ==> forall j :: 0 <= j < |args| && Finite(args[j]) ==> r.value <= Length(args[j])
    ensures r.Some? ==> exists j :: 0 <= j < |args| && Finite(args[j]) && r.value == Length(args[j])
  {
    if args == [] then None
    else
      var rest := MinLength(args[1..]);
      assert forall j :: 1 <= j < |args| ==> args[j] == args[1..][j - 1];
      if !Finite(args[0]) then
        assert HasFinite(args[1..]) ==> HasFinite(args);
        rest
      else if rest.None? || Length(args[0]) <= rest.value then Some(Length(args[0]))
      else rest
  }

  /**
   * How many tuples `zip(*args)` yields: none for no arguments, otherwise
   * the shortest finite argument's length. When every argument repeats
   * forever, so does `zip`, and `tuple(...)` never returns: None.
   */
  function ZipLength<T>(args: seq<Iter<T>>): (r: Option<nat>)
    ensures r.None? <==> |args| > 0 && !HasFinite(args)
    ensures |args| == 0 ==> r == Some(0)
    ensures r.Some? && |args| > 0 ==> r == MinLength(args)
  {
    if |args| == 0 then Some(0) else MinLength(args)
  }

  /** The `i`-th tuple `zip` yields: the `i`-th element of every argument. */
  function Column<T>(args: seq<Iter<T>>, i: nat): (r: seq<T>)
    requires ZipLength(args).Some? && i < ZipLength(args).value
    ensures |r| == |args| && forall j :: 0 <= j < |args| ==> r[j] == At(args[j], i)
  {
    seq(|args|, j requires 0 <= j < |args| => At(args[j], i))
  }

  /**
   * `vectorize(f)(*args)`: the tuple of `f` applied to each tuple `zip`
   * yields; None where the call would never return.
   */
  function Call<T>(f: seq<T> -> T, args: seq<Iter<T>>): (r: Option<seq<T>>)
    ensures r.None? <==> |args| > 0 && !HasFinite(args)
    ensures r.Some? ==> |r.value| == ZipLength(args).value
    ensures r.Some? ==> forall i :: 0 <= i < |r.value| ==> r.value[i] == f(Column(args, i))
  {
    match ZipLength(args)
    case None => None
    case Some(n) => Some(seq(n, i requires 0 <= i < n => f(Column(args, i))))
  }

  /**
   * The shape of every generated operation: a node's tuple followed by
   * repeated constants. The result has one element per constraint, each `f`
   * of that constraint's element and the constants.
   */
  lemma {:induction false} CallWithConstants<T>(f: seq<T> -> T, xs: seq<T>, cs: seq<T>)
    ensures var args := [Items(xs)] + seq(|cs|, k requires 0 <= k < |cs| => Repeat(cs[k]));
      Call(f, args) == Some(seq(|xs|, i requires 0 <= i < |xs| => f([xs[i]] + cs)))
  {
    var args := [Items(xs)] + seq(|cs|, k requires 0 <= k < |cs| => Repeat(cs[k]));
    assert Finite(args[0]);
    var n := ZipLength(args).value;
    var j :| 0 <= j < |args| && Finite(args[j]) && n == Length(args[j]);
    assert j == 0;
    assert n == |xs|;
    var r := Call(f, args).value;
    var s := seq(|xs|, i requires 0 <= i < |xs| => f([xs[i]] + cs));
    forall i | 0 <= i < |xs| ensures r[i] == s[i] {
      var col := Column(args, i);
      assert forall k :: 0 <= k < |cs| ==> col[k + 1] == At(Repeat(cs[k]), i) == cs[k];
      assert col == [xs[i]] + cs;
    }
    assert r == s;
  }

  /** A call on `repeat_once(v)` and repeated constants yields exactly one element, `f` of `v` and the constants. */
  lemma {:induction false} CallOnce<T>(f: seq<T> -> T, v: T, cs: seq<T>)
    ensures var args := [RepeatOnce(v)] + seq(|cs|, k requires 0 <= k < |cs| => Repeat(cs[k]));
      Call(f, args) == Some([f([v] + cs)])
  {
    var args := [RepeatOnce(v)] + seq(|cs|, k requires 0 <= k < |cs| => Repeat(cs[k]));
    assert Finite(args[0]);
    var n := ZipLength(args).value;
    var j :| 0 <= j < |args| && Finite(args[j]) && n == Length(args[j]);
    assert j == 0;
    var col := Column(args, 0);
    assert forall k :: 0 <= k < |cs| ==> col[k + 1] == At(Repeat(cs[k]), 0) == cs[k];
    assert col == [v] + cs;
    assert n == 1;
    var r := Call(f, args).value;
    assert |r| == 1 && r[0] == f(col);
    assert r == [f([v] + cs)];
  }
}
