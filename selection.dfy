/**
 * Masks derived from grids: selecting colours, splitting a mask into its
 * connected areas (breadth-first search over a set of unassigned cells),
 * filtering masks by whether they touch the border, and merging masks.
 */
module Selection {
  import opened Wrappers
  import opened Arguments

  /** `select_color`. */
  function SelectColor(g: Grid, color: int): (m: Mask)
    requires Rect(g)
    ensures Rect(m) && Shape(m) == Shape(g)
    ensures forall i, j :: 0 <= i < Height(g) && 0 <= j < Width(g) ==> (m[i][j] <==> g[i][j] == color)
  {
    seq(|g|, i requires 0 <= i < |g| => seq(|g[i]|, j requires 0 <= j < |g[i]| => g[i][j] == color))
  }

  /** `select_all_colors`. */
  function SelectAllColors(g: Grid, ignore: int): (m: Mask)
    requires Rect(g)
    ensures Rect(m) && Shape(m) == Shape(g)
    ensures forall i, j :: 0 <= i < Height(g) && 0 <= j < Width(g) ==> (m[i][j] <==> g[i][j] != ignore)
  {
    seq(|g|, i requires 0 <= i < |g| => seq(|g[i]|, j requires 0 <= j < |g[i]| => g[i][j] != ignore))
  }

  /** Selecting one colour and selecting all but that colour are complementary masks. */
  lemma SelectComplement(g: Grid, color: int)
    requires Rect(g)
    ensures forall i, j :: 0 <= i < Height(g) && 0 <= j < Width(g) ==>
      SelectAllColors(g, color)[i][j] == !SelectColor(g, color)[i][j]
  {
  }

  /** A colour's mask has a set cell exactly when the colour is among `used_colors`. */
  lemma SelectColorAny(g: Grid, color: int)
    requires Rect(g)
    ensures AnySet(SelectColor(g, color)) <==> color in UsedColors(g)
  {
    var m := SelectColor(g, color);
    if AnySet(m) {
      var i, j :| 0 <= i < |m| && 0 <= j < |m[i]| && m[i][j];
      assert g[i][j] == color;
    }
    if color in UsedColors(g) {
      var i, j :| 0 <= i < |g| && 0 <= j < |g[i]| && g[i][j] == color;
      assert m[i][j];
    }
  }

  // ---- connected areas ----

  /** `_get_neighbors`: the eight cells around `c`. */
  function Neighbors(c: Cell): set<Cell> {
    var (y, x) := c;
    {(y - 1, x - 1), (y - 1, x), (y - 1, x + 1), (y, x - 1), (y, x + 1), (y + 1, x - 1), (y + 1, x), (y + 1, x + 1)}
  }

  /** `_get_neighbors_no_diag`: the four cells sharing an edge with `c`. */
  function NeighborsNoDiagonal(c: Cell): set<Cell> {
    var (y, x) := c;
    {(y - 1, x), (y + 1, x), (y, x - 1), (y, x + 1)}
  }

  /** Adjacency is symmetric. */
  ghost predicate Symmetric(nb: Cell -> set<Cell>) {
    forall c, d :: d in nb(c) ==> c in nb(d)
  }

  lemma NeighborsSymmetric()
    ensures Symmetric(Neighbors) && Symmetric(NeighborsNoDiagonal)
  {
    forall c: Cell, d: Cell | d in Neighbors(c) ensures c in Neighbors(d) {
      var (y, x) := c;
      assert d.0 - y in {-1, 0, 1} && d.1 - x in {-1, 0, 1};
    }
    forall c: Cell, d: Cell | d in NeighborsNoDiagonal(c) ensures c in NeighborsNoDiagonal(d) {
      var (y, x) := c;
      assert d.0 - y in {-1, 0, 1} && d.1 - x in {-1, 0, 1};
    }
  }

  /** Whether cell `c` lies in the mask and is set. */
  predicate Marked(m: Mask, c: Cell) {
    0 <= c.0 < |m| && 0 <= c.1 < |m[c.0]| && m[c.0][c.1]
  }

  /** The set cells of a mask (`np.argwhere`, as a set). */
  function SelectedCells(m: Mask): (s: set<Cell>)
    ensures forall c :: c in s <==> Marked(m, c)
  {
    set i, j | 0 <= i < |m| && 0 <= j < |m[i]| && m[i][j] :: (i, j)
  }

  /** `list(s)`: the elements of a set in some order, each once. */
  method SetToSeq(s: set<Cell>) returns (q: seq<Cell>)
    ensures |q| == |s|
    ensures forall x :: x in q <==> x in s
  {
    q := [];
    var rest := s;
    while rest != {}
      invariant rest <= s
      invariant |q| + |rest| == |s|
      invariant forall x :: x in q <==> x in s && x !in rest
      decreases |rest|
    {
      var x :| x in rest;
      q := q + [x];
      rest := rest - {x};
    }
  }

  lemma RemoveShrinks<T>(s: set<T>, part: set<T>)
    requires part <= s && part != {}
    ensures |s - part| < |s|
  {
    var x :| x in part;
    assert s - part <= s - {x};
    assert |s - {x}| == |s| - 1;
    SubsetCard(s - part, s - {x});
  }

  lemma {:induction false} SubsetCard<T>(a: set<T>, b: set<T>)
    requires a <= b
    ensures |a| <= |b|
    decreases |b|
  {
    if a != {} {
      var x :| x in a;
      SubsetCard(a - {x}, b - {x});
    }
  }

  function Elems(q: seq<Cell>): (s: set<Cell>)
    ensures forall x :: x in s <==> x in q
  {
    set x | x in q
  }

  /** No cell adjacent to `area` is left in `rest`. */
  ghost predicate Closed(area: set<Cell>, rest: set<Cell>, nb: Cell -> set<Cell>) {
    forall c, n :: c in area && n in nb(c) ==> n !in rest
  }

  // ---- connectivity ----

  /** `p` is a walk inside `s`: each cell after the first is adjacent to the one before it. */
  ghost predicate Walk(p: seq<Cell>, s: set<Cell>, nb: Cell -> set<Cell>) {
    && |p| > 0
    && (forall k :: 0 <= k < |p| ==> p[k] in s)
    && (forall k :: 0 <= k < |p| - 1 ==> p[k + 1] in nb(p[k]))
  }

  /** `b` can be reached from `a` without leaving `s`. */
  ghost predicate Reaches(s: set<Cell>, a: Cell, b: Cell, nb: Cell -> set<Cell>) {
    exists p :: Walk(p, s, nb) && p[0] == a && p[|p| - 1] == b
  }

  /** Every cell of `s` can be reached from `root` without leaving `s`. */
  ghost predicate RootedAt(s: set<Cell>, root: Cell, nb: Cell -> set<Cell>) {
    root in s && forall c :: c in s ==> Reaches(s, root, c, nb)
  }

  /** `s` is one connected area: some cell of it reaches all the others inside it. */
  ghost predicate Connected(s: set<Cell>, nb: Cell -> set<Cell>) {
    exists root :: RootedAt(s, root, nb)
  }

  lemma ReachesSelf(s: set<Cell>, a: Cell, nb: Cell -> set<Cell>)
    requires a in s
    ensures Reaches(s, a, a, nb)
  {
    assert Walk([a], s, nb);
  }

  /** A walk to `b` extends to a cell adjacent to `b`. */
  lemma ReachesStep(s: set<Cell>, a: Cell, b: Cell, n: Cell, nb: Cell -> set<Cell>)
    requires Reaches(s, a, b, nb) && n in s && n in nb(b)
    ensures Reaches(s, a, n, nb)
  {
    var p :| Walk(p, s, nb) && p[0] == a && p[|p| - 1] == b;
    var q := p + [n];
    forall k | 0 <= k < |q| - 1 ensures q[k + 1] in nb(q[k]) {
      if k < |p| - 1 {
        assert q[k] == p[k] && q[k + 1] == p[k + 1];
      }
    }
    assert Walk(q, s, nb) && q[0] == a && q[|q| - 1] == n;
  }

  /** A walk from a cell adjacent to `a` extends back to `a`. */
  lemma ReachesFront(s: set<Cell>, a: Cell, n: Cell, b: Cell, nb: Cell -> set<Cell>)
    requires a in s && n in nb(a) && Reaches(s, n, b, nb)
    ensures Reaches(s, a, b, nb)
  {
    var p :| Walk(p, s, nb) && p[0] == n && p[|p| - 1] == b;
    var q := [a] + p;
    forall k | 0 <= k < |q| - 1 ensures q[k + 1] in nb(q[k]) {
      if k > 0 {
        assert q[k] == p[k - 1] && q[k + 1] == p[k];
      }
    }
    assert Walk(q, s, nb) && q[0] == a && q[|q| - 1] == b;
  }

  lemma ReachesWiden(s: set<Cell>, t: set<Cell>, a: Cell, b: Cell, nb: Cell -> set<Cell>)
    requires s <= t && Reaches(s, a, b, nb)
    ensures Reaches(t, a, b, nb)
  {
    var p :| Walk(p, s, nb) && p[0] == a && p[|p| - 1] == b;
    assert Walk(p, t, nb);
  }

  /** A walk that starts in `inside` never enters `outside` when no cell of `inside` is adjacent to `outside`. */
  lemma {:induction false} WalkStays(p: seq<Cell>, inside: set<Cell>, outside: set<Cell>, nb: Cell -> set<Cell>)
    requires Walk(p, inside + outside, nb) && p[0] in inside && Closed(inside, outside, nb)
    ensures Walk(p, inside, nb)
    decreases |p|
  {
    if |p| > 1 {
      var q := p[..|p| - 1];
      assert Walk(q, inside + outside, nb) by {
        forall k | 0 <= k < |q| - 1 ensures q[k + 1] in nb(q[k]) {
          assert q[k] == p[k] && q[k + 1] == p[k + 1];
        }
      }
      WalkStays(q, inside, outside, nb);
      assert p[|p| - 2] == q[|q| - 1];
      forall k | 0 <= k < |p| ensures p[k] in inside {
        if k < |p| - 1 {
          assert p[k] == q[k];
        }
      }
    }
  }

  lemma ReachesNarrow(inside: set<Cell>, outside: set<Cell>, a: Cell, b: Cell, nb: Cell -> set<Cell>)
    requires Reaches(inside + outside, a, b, nb) && a in inside && Closed(inside, outside, nb)
    ensures Reaches(inside, a, b, nb)
  {
    var p :| Walk(p, inside + outside, nb) && p[0] == a && p[|p| - 1] == b;
    WalkStays(p, inside, outside, nb);
  }

  /** Two rooted areas whose roots are adjacent make one area rooted at the first root. */
  lemma RootedUnion(a: set<Cell>, root: Cell, b: set<Cell>, n: Cell, nb: Cell -> set<Cell>)
    requires RootedAt(a, root, nb) && RootedAt(b, n, nb) && n in nb(root)
    ensures RootedAt(a + b, root, nb)
  {
    forall c | c in a + b ensures Reaches(a + b, root, c, nb) {
      if c in a {
        ReachesWiden(a, a + b, root, c, nb);
      } else {
        ReachesWiden(b, a + b, n, c, nb);
        ReachesFront(a + b, root, n, c, nb);
      }
    }
  }

  /** Every cell of `visited` can be reached from `start` inside `all`. */
  ghost predicate Reached(all: set<Cell>, start: Cell, visited: set<Cell>, nb: Cell -> set<Cell>) {
    forall c :: c in visited ==> Reaches(all, start, c, nb)
  }

  lemma ReachedStep(all: set<Cell>, start: Cell, visited: set<Cell>, index: Cell, neighbors: set<Cell>, nb: Cell -> set<Cell>)
    requires Reached(all, start, visited, nb) && index in visited
    requires neighbors <= nb(index) && neighbors <= all
    ensures Reached(all, start, visited + neighbors, nb)
  {
    forall c | c in visited + neighbors ensures Reaches(all, start, c, nb) {
      if c !in visited {
        ReachesStep(all, start, index, c, nb);
      }
    }
  }

  /** A reached area that no remaining cell touches is rooted at `start` on its own. */
  lemma ReachedRooted(start: Cell, connected: set<Cell>, remaining: set<Cell>, nb: Cell -> set<Cell>)
    requires start in connected && Reached(connected + remaining, start, connected, nb)
    requires Closed(connected, remaining, nb)
    ensures RootedAt(connected, start, nb)
  {
    forall c | c in connected ensures Reaches(connected, start, c, nb) {
      ReachesNarrow(connected, remaining, start, c, nb);
    }
  }

  lemma QueueStep(connected: set<Cell>, queued: set<Cell>, index: Cell, rest: set<Cell>, neighbors: set<Cell>,
                  remaining: set<Cell>, start: Cell, candidates: set<Cell>)
    requires queued == {index} + rest && neighbors <= remaining <= candidates
    requires connected + queued == {start} + (candidates - remaining)
    ensures (connected + {index}) + (rest + neighbors) == {start} + (candidates - (remaining - neighbors))
  {
    forall x ensures x in (connected + {index}) + (rest + neighbors) <==> x in {start} + (candidates - (remaining - neighbors)) {
      assert x in connected + queued <==> x in {start} + (candidates - remaining);
    }
  }

  lemma ClosedStep(connected: set<Cell>, index: Cell, remaining: set<Cell>, nb: Cell -> set<Cell>)
    requires Closed(connected, remaining, nb)
    ensures Closed(connected + {index}, remaining - nb(index) * remaining, nb)
  {
  }

  /** The state of the breadth-first search: what is found or queued is `start` and the candidates taken so far. */
  ghost predicate Frontier(start: Cell, candidates: set<Cell>, nb: Cell -> set<Cell>,
                           connected: set<Cell>, queue: seq<Cell>, remaining: set<Cell>) {
    && remaining <= candidates
    && connected + Elems(queue) == {start} + (candidates - remaining)
    && Closed(connected, remaining, nb)
    && Reached({start} + candidates, start, {start} + (candidates - remaining), nb)
  }

  /**
   * `_connected_indices`: breadth-first search from `start`, taking the
   * adjacent cells out of `candidates` as they are queued. Returns the area
   * found and the candidates left over: every cell of the area is reached
   * from `start` inside it, and no left-over candidate is adjacent to it, so
   * the area is exactly the connected component of `start`.
   */
  method ConnectedIndices(start: Cell, candidates: set<Cell>, nb: Cell -> set<Cell>)
    returns (connected: set<Cell>, remaining: set<Cell>)
    requires start !in candidates
    ensures remaining <= candidates
    ensures connected == {start} + (candidates - remaining)
    ensures Closed(connected, remaining, nb)
    ensures RootedAt(connected, start, nb)
  {
    connected := {};
    var queue := [start];
    remaining := candidates;
    FrontierStart(start, candidates, nb);
    while |queue| > 0
      invariant Frontier(start, candidates, nb, connected, queue, remaining)
      decreases |remaining|, |queue|
    {
      connected, queue, remaining := Visit(start, candidates, nb, connected, queue, remaining);
    }
    FrontierDone(start, candidates, nb, connected, queue, remaining);
  }

  lemma FrontierStart(start: Cell, candidates: set<Cell>, nb: Cell -> set<Cell>)
    requires start !in candidates
    ensures Frontier(start, candidates, nb, {}, [start], candidates)
  {
    assert {start} + (candidates - candidates) == {start};
    ReachesSelf({start} + candidates, start, nb);
  }

  lemma FrontierDone(start: Cell, candidates: set<Cell>, nb: Cell -> set<Cell>,
                     connected: set<Cell>, queue: seq<Cell>, remaining: set<Cell>)
    requires Frontier(start, candidates, nb, connected, queue, remaining) && |queue| == 0
    ensures connected == {start} + (candidates - remaining)
    ensures RootedAt(connected, start, nb)
  {
    assert Elems(queue) == {};
    assert connected + remaining == {start} + candidates;
    ReachedRooted(start, connected, remaining, nb);
  }

  /** One step of the search: the head of the queue is found, and its adjacent candidates are queued. */
  method Visit(start: Cell, candidates: set<Cell>, nb: Cell -> set<Cell>,
               connected: set<Cell>, queue: seq<Cell>, remaining: set<Cell>)
    returns (connected': set<Cell>, queue': seq<Cell>, remaining': set<Cell>)
    requires |queue| > 0 && Frontier(start, candidates, nb, connected, queue, remaining)
    ensures Frontier(start, candidates, nb, connected', queue', remaining')
    ensures |remaining'| < |remaining| || (remaining' == remaining && |queue'| < |queue|)
  {
    var index := queue[0];
    var neighbors := nb(index) * remaining;
    var added := SetToSeq(neighbors);
    assert Elems(added) == neighbors;
    FrontierStep(start, candidates, nb, connected, queue, remaining, added);
    if neighbors != {} {
      RemoveShrinks(remaining, neighbors);
    }
    connected', queue', remaining' := connected + {index}, queue[1..] + added, remaining - neighbors;
  }

  lemma FrontierStep(start: Cell, candidates: set<Cell>, nb: Cell -> set<Cell>,
                     connected: set<Cell>, queue: seq<Cell>, remaining: set<Cell>, added: seq<Cell>)
    requires |queue| > 0 && Frontier(start, candidates, nb, connected, queue, remaining)
    requires Elems(added) == nb(queue[0]) * remaining
    ensures Frontier(start, candidates, nb, connected + {queue[0]}, queue[1..] + added, remaining - nb(queue[0]) * remaining)
  {
    var index := queue[0];
    assert queue == [index] + queue[1..];
    var rest := queue[1..];
    var neighbors := nb(index) * remaining;
    QueueStep(connected, Elems(queue), index, Elems(rest), neighbors, remaining, start, candidates);
    ClosedStep(connected, index, remaining, nb);
    ReachedStep({start} + candidates, start, {start} + (candidates - remaining), index, neighbors, nb);
    assert Elems(rest + added) == Elems(rest) + neighbors;
  }

  ghost predicate Covered(c: Cell, sets: seq<set<Cell>>) {
    exists k :: 0 <= k < |sets| && c in sets[k]
  }

  /**
   * The state of the split loop: the areas found so far are non-empty and
   * pairwise disjoint, together with the unassigned cells they
   * cover `all`, no neighbour of an area is still unassigned, and no
   * neighbour of an area lies in a later area.
   */
  ghost predicate Areas(all: set<Cell>, unassigned: set<Cell>, sets: seq<set<Cell>>, nb: Cell -> set<Cell>) {
    && unassigned <= all
    && (forall k :: 0 <= k < |sets| ==> sets[k] <= all && sets[k] != {} && sets[k] !! unassigned)
    && (forall k, l :: 0 <= k < l < |sets| ==> sets[k] !! sets[l])
    && (forall c :: c in all ==> c in unassigned || Covered(c, sets))
    && (forall k, c, n :: 0 <= k < |sets| && c in sets[k] && n in nb(c) ==> n !in unassigned)
    && InOrder(sets, nb)
  }

  /** Every area is connected. */
  ghost predicate AllConnected(sets: seq<set<Cell>>, nb: Cell -> set<Cell>) {
    forall k :: 0 <= k < |sets| ==> Connected(sets[k], nb)
  }

  lemma AddConnected(sets: seq<set<Cell>>, nb: Cell -> set<Cell>, start: Cell, connected: set<Cell>)
    requires AllConnected(sets, nb) && RootedAt(connected, start, nb)
    ensures AllConnected(sets + [connected], nb)
  {
    var sets' := sets + [connected];
    forall k | 0 <= k < |sets'| ensures Connected(sets'[k], nb) {
      if k < |sets| {
        assert sets'[k] == sets[k];
      }
    }
  }

  /** No neighbour of a cell of an area lies in a later area. */
  ghost predicate InOrder(sets: seq<set<Cell>>, nb: Cell -> set<Cell>) {
    forall k, l, c, n :: 0 <= k < l < |sets| && c in sets[k] && n in nb(c) ==> n !in sets[l]
  }

  lemma NoEarlierSet(sets: seq<set<Cell>>, nb: Cell -> set<Cell>, m: int, k: int, n: Cell, c: Cell)
    requires Symmetric(nb) && InOrder(sets, nb)
    requires 0 <= m < k < |sets| && n in sets[m] && n in nb(c)
    ensures c !in sets[k]
  {
    assert c in nb(n);
  }

  lemma AddArea(all: set<Cell>, unassigned: set<Cell>, sets: seq<set<Cell>>, nb: Cell -> set<Cell>,
                start: Cell, connected: set<Cell>, rest: set<Cell>)
    requires Areas(all, unassigned, sets, nb)
    requires start in unassigned && rest <= unassigned - {start}
    requires connected == {start} + ((unassigned - {start}) - rest)
    requires Closed(connected, rest, nb)
    ensures Areas(all, rest, sets + [connected], nb)
  {
    AddAreaDisjoint(all, unassigned, sets, connected, rest);
    AddAreaCover(all, unassigned, sets, connected, rest);
    AddAreaClosed(unassigned, sets, nb, connected, rest);
  }

  lemma AddAreaClosed(unassigned: set<Cell>, sets: seq<set<Cell>>, nb: Cell -> set<Cell>, connected: set<Cell>, rest: set<Cell>)
    requires forall k, c, n :: 0 <= k < |sets| && c in sets[k] && n in nb(c) ==> n !in unassigned
    requires InOrder(sets, nb)
    requires rest <= unassigned && connected <= unassigned
    requires Closed(connected, rest, nb)
    ensures forall k, c, n :: 0 <= k < |sets + [connected]| && c in (sets + [connected])[k] && n in nb(c) ==> n !in rest
    ensures InOrder(sets + [connected], nb)
  {
    var sets' := sets + [connected];
    forall k, c, n | 0 <= k < |sets'| && c in sets'[k] && n in nb(c) ensures n !in rest {
      if k < |sets| {
        assert c in sets[k];
      }
    }
    forall k, l, c, n | 0 <= k < l < |sets'| && c in sets'[k] && n in nb(c) ensures n !in sets'[l] {
      assert c in sets[k];
      if l < |sets| {
        assert sets'[l] == sets[l];
      }
    }
  }

  lemma AddAreaDisjoint(all: set<Cell>, unassigned: set<Cell>, sets: seq<set<Cell>>, connected: set<Cell>, rest: set<Cell>)
    requires unassigned <= all && rest <= unassigned && connected <= unassigned && connected != {} && connected !! rest
    requires forall k :: 0 <= k < |sets| ==> sets[k] <= all && sets[k] != {} && sets[k] !! unassigned
    requires forall k, l :: 0 <= k < l < |sets| ==> sets[k] !! sets[l]
    ensures forall k :: 0 <= k < |sets + [connected]| ==>
      (sets + [connected])[k] <= all && (sets + [connected])[k] != {} && (sets + [connected])[k] !! rest
    ensures forall k, l :: 0 <= k < l < |sets + [connected]| ==> (sets + [connected])[k] !! (sets + [connected])[l]
  {
    var sets' := sets + [connected];
    forall k | 0 <= k < |sets'| ensures sets'[k] <= all && sets'[k] != {} && sets'[k] !! rest {
      if k < |sets| {
        assert sets'[k] == sets[k];
      }
    }
    forall k, l | 0 <= k < l < |sets'| ensures sets'[k] !! sets'[l] {
      if l < |sets| {
        assert sets'[k] == sets[k] && sets'[l] == sets[l];
      } else {
        assert sets'[k] == sets[k] && sets'[l] == connected;
      }
    }
  }

  lemma AddAreaCover(all: set<Cell>, unassigned: set<Cell>, sets: seq<set<Cell>>, connected: set<Cell>, rest: set<Cell>)
    requires forall c :: c in all ==> c in unassigned || Covered(c, sets)
    requires unassigned - rest <= connected
    ensures forall c :: c in all ==> c in rest || Covered(c, sets + [connected])
  {
    var sets' := sets + [connected];
    forall c | c in all
      ensures c in rest || Covered(c, sets')
    {
      if c in connected {
        assert c in sets'[|sets|];
      } else if c !in unassigned {
        var k :| 0 <= k < |sets| && c in sets[k];
        assert c in sets'[k];
      }
    }
  }

  /** Once every cell is assigned, a symmetric adjacency keeps each area closed within `all`. */
  lemma AreasClosed(all: set<Cell>, sets: seq<set<Cell>>, nb: Cell -> set<Cell>)
    requires Symmetric(nb) && Areas(all, {}, sets, nb)
    ensures forall k, c, n :: 0 <= k < |sets| && c in sets[k] && n in nb(c) && n in all ==> n in sets[k]
  {
    forall k, c, n | 0 <= k < |sets| && c in sets[k] && n in nb(c) && n in all
      ensures n in sets[k]
    {
      var m :| 0 <= m < |sets| && n in sets[m];
      if m < k {
        NoEarlierSet(sets, nb, m, k, n, c);
        assert false;
      } else if m > k {
        assert false;
      }
    }
  }

  /** The set cells of a fresh mask made by `FromIndices`. */
  lemma CellsOfIndices(m: Mask, rows: nat, cols: nat, cells: set<Cell>, q: seq<Cell>)
    requires Rect(m) && Height(m) == rows && Width(m) == cols && rows > 0
    requires forall c :: c in cells ==> 0 <= c.0 < rows && 0 <= c.1 < cols
    requires forall x :: x in q <==> x in cells
    requires forall i, j :: 0 <= i < rows && 0 <= j < cols ==> (m[i][j] <==> (i, j) in q)
    ensures forall c :: Marked(m, c) <==> c in cells
  {
  }

  predicate AllShaped(sel: Mask, areas: seq<Mask>) {
    forall k :: 0 <= k < |areas| ==> Rect(areas[k]) && Shape(areas[k]) == Shape(sel)
  }

  /**
   * The areas are non-empty, pairwise disjoint, and together they are the
   * set cells of `sel`.
   */
  ghost predicate Partition(sel: Mask, areas: seq<Mask>) {
    && (forall k :: 0 <= k < |areas| ==> AnySet(areas[k]))
    && (forall k, l, c :: 0 <= k < l < |areas| && Marked(areas[k], c) ==> !Marked(areas[l], c))
    && Covers(sel, areas)
  }

  /** The set cells of `sel` are those set in some area. */
  ghost predicate Covers(sel: Mask, areas: seq<Mask>) {
    forall c :: Marked(sel, c) <==> exists k :: 0 <= k < |areas| && Marked(areas[k], c)
  }

  /** No neighbour of a cell of an area lies in a later area. */
  ghost predicate ClosedInOrder(areas: seq<Mask>, nb: Cell -> set<Cell>) {
    forall k, l, c, n :: 0 <= k < l < |areas| && Marked(areas[k], c) && n in nb(c) ==> !Marked(areas[l], n)
  }

  /** A set neighbour of a cell of an area lies in the same area. */
  ghost predicate ClosedAreas(sel: Mask, areas: seq<Mask>, nb: Cell -> set<Cell>) {
    forall k, c, n :: 0 <= k < |areas| && Marked(areas[k], c) && n in nb(c) && Marked(sel, n) ==>
      Marked(areas[k], n)
  }

  /**
   * `_split_selection_into_connected_areas`: repeatedly takes an unassigned
   * set cell, grows its area by `ConnectedIndices` and turns the area into a
   * mask with `FromIndices`. A single area (or none) gives None, and then
   * the selection is empty or connected; otherwise every area is connected.
   */
  method SplitAreas(sel: Mask, nb: Cell -> set<Cell>) returns (r: Option<seq<Mask>>)
    requires Rect(sel)
    ensures r.None? ==> SelectedCells(sel) == {} || Connected(SelectedCells(sel), nb)
    ensures r.Some? ==> |r.value| >= 2 && AllShaped(sel, r.value)
    ensures r.Some? ==> Partition(sel, r.value) && ClosedInOrder(r.value, nb) && MasksConnected(r.value, nb)
  {
    var all := SelectedCells(sel);
    var unassigned := all;
    var areas: seq<Mask> := [];
    ghost var sets: seq<set<Cell>> := [];
    while |unassigned| > 0
      invariant Split(sel, nb, all, unassigned, areas, sets)
      decreases |unassigned|
    {
      unassigned, areas, sets := SplitStep(sel, nb, all, unassigned, areas, sets);
    }
    SplitDone(sel, nb, all, areas, sets);
    if |areas| <= 1 {
      return None;
    }
    return Some(areas);
  }

  /** Once every cell is assigned: one area or none covers the selection, and more are its connected parts. */
  lemma SplitDone(sel: Mask, nb: Cell -> set<Cell>, all: set<Cell>, areas: seq<Mask>, sets: seq<set<Cell>>)
    requires Split(sel, nb, all, {}, areas, sets)
    ensures |areas| <= 1 ==> all == {} || Connected(all, nb)
    ensures |areas| > 1 ==> Partition(sel, areas) && ClosedInOrder(areas, nb) && MasksConnected(areas, nb)
  {
    if |areas| <= 1 {
      NoSplit(all, sets);
    } else {
      AreasPartition(sel, all, sets, areas, nb);
      AreasConnectedMasks(sets, areas, nb);
    }
  }

  /** The set cells of every mask form one connected area. */
  ghost predicate MasksConnected(areas: seq<Mask>, nb: Cell -> set<Cell>) {
    forall k :: 0 <= k < |areas| ==> Connected(SelectedCells(areas[k]), nb)
  }

  /** At most one area covering `all` means `all` is empty or that area. */
  lemma NoSplit(all: set<Cell>, sets: seq<set<Cell>>)
    requires forall k :: 0 <= k < |sets| ==> sets[k] <= all
    requires forall c :: c in all ==> Covered(c, sets)
    requires |sets| <= 1
    ensures if |sets| == 0 then all == {} else all == sets[0]
  {
    if |sets| == 1 {
      forall c | c in all ensures c in sets[0] {
        assert Covered(c, sets);
      }
    }
  }

  lemma AreasConnectedMasks(sets: seq<set<Cell>>, areas: seq<Mask>, nb: Cell -> set<Cell>)
    requires AllConnected(sets, nb) && |areas| == |sets|
    requires forall k, c :: 0 <= k < |areas| ==> (Marked(areas[k], c) <==> c in sets[k])
    ensures MasksConnected(areas, nb)
  {
    forall k | 0 <= k < |areas| ensures Connected(SelectedCells(areas[k]), nb) {
      assert SelectedCells(areas[k]) == sets[k];
    }
  }

  /** The state of the split loop, over the masks found so far and their cell sets. */
  ghost predicate Split(sel: Mask, nb: Cell -> set<Cell>, all: set<Cell>, unassigned: set<Cell>,
                        areas: seq<Mask>, sets: seq<set<Cell>>) {
    && Rect(sel) && (forall c :: c in all <==> Marked(sel, c))
    && Areas(all, unassigned, sets, nb) && AllConnected(sets, nb)
    && |areas| == |sets| && AllShaped(sel, areas)
    && forall k, c :: 0 <= k < |areas| ==> (Marked(areas[k], c) <==> c in sets[k])
  }

  /** One round of the split loop: the area of an unassigned cell becomes the next mask. */
  method SplitStep(sel: Mask, nb: Cell -> set<Cell>, all: set<Cell>, unassigned: set<Cell>,
                   areas: seq<Mask>, ghost sets: seq<set<Cell>>)
    returns (unassigned': set<Cell>, areas': seq<Mask>, ghost sets': seq<set<Cell>>)
    requires |unassigned| > 0 && Split(sel, nb, all, unassigned, areas, sets)
    ensures Split(sel, nb, all, unassigned', areas', sets') && |unassigned'| < |unassigned|
  {
    var start :| start in unassigned;
    var connected, rest := ConnectedIndices(start, unassigned - {start}, nb);
    AreaInside(start, unassigned, connected, rest);
    var area := AreaMask(sel, all, connected, start);
    SplitAppend(sel, nb, all, unassigned, areas, sets, start, connected, rest, area);
    sets' := sets + [connected];
    areas' := areas + [area];
    unassigned' := rest;
  }

  lemma AreaInside(start: Cell, unassigned: set<Cell>, connected: set<Cell>, rest: set<Cell>)
    requires start in unassigned && connected == {start} + ((unassigned - {start}) - rest)
    ensures connected <= unassigned
  {
  }

  /** `Selection.from_indices(indices, shape)` for the cells of one area. */
  method AreaMask(sel: Mask, all: set<Cell>, connected: set<Cell>, start: Cell) returns (area: Mask)
    requires Rect(sel) && (forall c :: c in all <==> Marked(sel, c)) && connected <= all && start in connected
    ensures Rect(area) && Shape(area) == Shape(sel)
    ensures forall c :: Marked(area, c) <==> c in connected
  {
    var cells := SetToSeq(connected);
    CellsInShape(sel, all, connected, cells);
    var r := FromIndices(Height(sel), Width(sel), cells);
    assert start in cells;
    CellsOfIndices(r.value, Height(sel), Width(sel), connected, cells);
    area := r.value;
  }

  /** The new area keeps the split loop's invariant, and fewer cells are unassigned. */
  lemma SplitAppend(sel: Mask, nb: Cell -> set<Cell>, all: set<Cell>, unassigned: set<Cell>, areas: seq<Mask>, sets: seq<set<Cell>>,
                    start: Cell, connected: set<Cell>, rest: set<Cell>, area: Mask)
    requires Split(sel, nb, all, unassigned, areas, sets)
    requires start in unassigned && rest <= unassigned - {start}
    requires connected == {start} + ((unassigned - {start}) - rest) && Closed(connected, rest, nb)
    requires RootedAt(connected, start, nb)
    requires Rect(area) && Shape(area) == Shape(sel) && forall c :: Marked(area, c) <==> c in connected
    ensures Split(sel, nb, all, rest, areas + [area], sets + [connected]) && |rest| < |unassigned|
  {
    AddArea(all, unassigned, sets, nb, start, connected, rest);
    AddConnected(sets, nb, start, connected);
    AppendArea(sel, areas, sets, area, connected);
    Shrinks(start, unassigned, rest);
  }

  /** Taking a cell out and keeping part of the others leaves fewer cells. */
  lemma Shrinks(start: Cell, s: set<Cell>, rest: set<Cell>)
    requires start in s && rest <= s - {start}
    ensures |rest| < |s|
  {
    SubsetCard(rest, s - {start});
    assert s == (s - {start}) + {start};
  }

  lemma CellsInShape(sel: Mask, all: set<Cell>, connected: set<Cell>, cells: seq<Cell>)
    requires Rect(sel) && (forall c :: c in all <==> Marked(sel, c)) && connected <= all
    requires forall x :: x in cells <==> x in connected
    ensures forall c :: c in connected ==> 0 <= c.0 < Height(sel) && 0 <= c.1 < Width(sel)
    ensures forall k :: 0 <= k < |cells| ==> 0 <= cells[k].0 < Height(sel) && 0 <= cells[k].1 < Width(sel)
  {
    forall c | c in connected ensures 0 <= c.0 < Height(sel) && 0 <= c.1 < Width(sel) {
      assert Marked(sel, c);
    }
    forall k | 0 <= k < |cells| ensures 0 <= cells[k].0 < Height(sel) && 0 <= cells[k].1 < Width(sel) {
      assert cells[k] in connected;
    }
  }

  lemma AppendArea(sel: Mask, areas: seq<Mask>, sets: seq<set<Cell>>, area: Mask, connected: set<Cell>)
    requires AllShaped(sel, areas) && |areas| == |sets|
    requires forall k, c :: 0 <= k < |areas| ==> (Marked(areas[k], c) <==> c in sets[k])
    requires Rect(area) && Shape(area) == Shape(sel)
    requires forall c :: Marked(area, c) <==> c in connected
    ensures AllShaped(sel, areas + [area])
    ensures forall k, c :: 0 <= k < |areas| + 1 ==> (Marked((areas + [area])[k], c) <==> c in (sets + [connected])[k])
  {
    var areas', sets' := areas + [area], sets + [connected];
    forall k, c | 0 <= k < |areas'| ensures Marked(areas'[k], c) <==> c in sets'[k] {
      if k < |areas| {
        assert areas'[k] == areas[k] && sets'[k] == sets[k];
      }
    }
  }

  lemma AreasPartition(sel: Mask, all: set<Cell>, sets: seq<set<Cell>>, areas: seq<Mask>, nb: Cell -> set<Cell>)
    requires forall c :: c in all <==> Marked(sel, c)
    requires Areas(all, {}, sets, nb) && |areas| == |sets|
    requires forall k, c :: 0 <= k < |areas| ==> (Marked(areas[k], c) <==> c in sets[k])
    ensures Partition(sel, areas) && ClosedInOrder(areas, nb)
  {
    AreasInOrder(sets, areas, nb);
    forall k | 0 <= k < |areas| ensures AnySet(areas[k]) {
      assert sets[k] != {};
      var c :| c in sets[k];
      assert Marked(areas[k], c);
    }
    forall k, l, c | 0 <= k < l < |areas| && Marked(areas[k], c) ensures !Marked(areas[l], c) {
      assert c in sets[k];
    }
    forall c | Marked(sel, c)
      ensures exists k :: 0 <= k < |areas| && Marked(areas[k], c)
    {
      var k :| 0 <= k < |sets| && c in sets[k];
      assert Marked(areas[k], c);
    }
    forall c | exists k :: 0 <= k < |areas| && Marked(areas[k], c)
      ensures Marked(sel, c)
    {
      var k :| 0 <= k < |areas| && Marked(areas[k], c);
      assert c in sets[k];
    }
  }

  lemma AreasInOrder(sets: seq<set<Cell>>, areas: seq<Mask>, nb: Cell -> set<Cell>)
    requires InOrder(sets, nb) && |areas| == |sets|
    requires forall k, c :: 0 <= k < |areas| ==> (Marked(areas[k], c) <==> c in sets[k])
    ensures ClosedInOrder(areas, nb)
  {
    forall k, l, c, n | 0 <= k < l < |areas| && Marked(areas[k], c) && n in nb(c)
      ensures !Marked(areas[l], n)
    {
      assert c in sets[k];
      assert n !in sets[l];
    }
  }

  lemma NoEarlierNeighbor(areas: seq<Mask>, nb: Cell -> set<Cell>, m: int, k: int, n: Cell, c: Cell)
    requires Symmetric(nb) && ClosedInOrder(areas, nb)
    requires 0 <= m < k < |areas| && Marked(areas[m], n) && n in nb(c)
    ensures !Marked(areas[k], c)
  {
    assert c in nb(n);
  }

  /** With a symmetric adjacency, "no neighbour in a later area" means "every set neighbour in the same area". */
  lemma SymmetricClosed(sel: Mask, areas: seq<Mask>, nb: Cell -> set<Cell>)
    requires Symmetric(nb) && Partition(sel, areas) && ClosedInOrder(areas, nb)
    ensures ClosedAreas(sel, areas, nb)
  {
    forall k, c, n | 0 <= k < |areas| && Marked(areas[k], c) && n in nb(c) && Marked(sel, n)
      ensures Marked(areas[k], n)
    {
      var m :| 0 <= m < |areas| && Marked(areas[m], n);
      if m < k {
        NoEarlierNeighbor(areas, nb, m, k, n, c);
        assert false;
      } else if m > k {
        assert false;
      }
    }
  }

  /** A walk that starts in a closed part `a` of `s` cannot end outside that part. */
  lemma Unreachable(s: set<Cell>, a: set<Cell>, root: Cell, c: Cell, nb: Cell -> set<Cell>)
    requires root in a && a <= s && Closed(a, s - a, nb) && c in s - a
    ensures !Reaches(s, root, c, nb)
  {
    assert a + (s - a) == s;
    forall p | Walk(p, s, nb) && p[0] == root ensures p[|p| - 1] != c {
      WalkStays(p, a, s - a, nb);
    }
  }

  /** Area `k` of a closed partition is closed within the selection. */
  lemma AreaClosedInSelection(sel: Mask, areas: seq<Mask>, nb: Cell -> set<Cell>, k: int)
    requires Partition(sel, areas) && ClosedAreas(sel, areas, nb) && 0 <= k < |areas|
    ensures SelectedCells(areas[k]) <= SelectedCells(sel)
    ensures Closed(SelectedCells(areas[k]), SelectedCells(sel) - SelectedCells(areas[k]), nb)
  {
    forall c | c in SelectedCells(areas[k]) ensures c in SelectedCells(sel) {
      assert Marked(areas[k], c);
    }
  }

  /** A selection split into two or more closed areas is not empty and not connected. */
  lemma SplitDisconnected(sel: Mask, areas: seq<Mask>, nb: Cell -> set<Cell>)
    requires |areas| >= 2 && Partition(sel, areas) && ClosedAreas(sel, areas, nb)
    ensures SelectedCells(sel) != {} && !Connected(SelectedCells(sel), nb)
  {
    var all := SelectedCells(sel);
    assert AnySet(areas[0]);
    var i0, j0 :| 0 <= i0 < |areas[0]| && 0 <= j0 < |areas[0][i0]| && areas[0][i0][j0];
    assert Marked(areas[0], (i0, j0));
    assert (i0, j0) in all;
    forall root | root in all ensures !RootedAt(all, root, nb) {
      var k :| 0 <= k < |areas| && Marked(areas[k], root);
      var l := if k == 0 then 1 else 0;
      assert AnySet(areas[l]);
      var i, j :| 0 <= i < |areas[l]| && 0 <= j < |areas[l][i]| && areas[l][i][j];
      var c := (i, j);
      assert Marked(areas[l], c);
      assert c in all;
      AreaClosedInSelection(sel, areas, nb, k);
      assert !Marked(areas[k], c);
      Unreachable(all, SelectedCells(areas[k]), root, c, nb);
    }
  }

  /**
   * `split_selection_into_connected_areas`: None exactly when the selection
   * is empty or 8-connected; otherwise at least two areas, which partition
   * the selection and are its connected components.
   */
  method SplitConnectedAreas(sel: Mask) returns (r: Option<seq<Mask>>)
    requires Rect(sel)
    ensures r.None? <==> SelectedCells(sel) == {} || Connected(SelectedCells(sel), Neighbors)
    ensures r.Some? ==> |r.value| >= 2 && AllShaped(sel, r.value)
    ensures r.Some? ==> Partition(sel, r.value) && ClosedAreas(sel, r.value, Neighbors) && MasksConnected(r.value, Neighbors)
  {
    r := SplitAreas(sel, Neighbors);
    if r.Some? {
      NeighborsSymmetric();
      SymmetricClosed(sel, r.value, Neighbors);
      SplitDisconnected(sel, r.value, Neighbors);
    }
  }

  /** `split_selection_into_connected_areas_no_diagonals`: as above with 4-adjacency. */
  method SplitConnectedAreasNoDiagonals(sel: Mask) returns (r: Option<seq<Mask>>)
    requires Rect(sel)
    ensures r.None? <==> SelectedCells(sel) == {} || Connected(SelectedCells(sel), NeighborsNoDiagonal)
    ensures r.Some? ==> |r.value| >= 2 && AllShaped(sel, r.value)
    ensures r.Some? ==> Partition(sel, r.value) && ClosedAreas(sel, r.value, NeighborsNoDiagonal)
    ensures r.Some? ==> MasksConnected(r.value, NeighborsNoDiagonal)
  {
    r := SplitAreas(sel, NeighborsNoDiagonal);
    if r.Some? {
      NeighborsSymmetric();
      SymmetricClosed(sel, r.value, NeighborsNoDiagonal);
      SplitDisconnected(sel, r.value, NeighborsNoDiagonal);
    }
  }

  // ---- border filters ----

  /** `_is_selection_touching_edge`: some set cell lies in the first or last row or column. */
  predicate TouchesEdge(m: Mask)
    requires Rect(m)
  {
    exists i, j :: 0 <= i < Height(m) && 0 <= j < Width(m) && m[i][j] &&
      (i == 0 || j == 0 || i == Height(m) - 1 || j == Width(m) - 1)
  }

  predicate AllRect(ms: seq<Mask>) {
    forall k :: 0 <= k < |ms| ==> Rect(ms[k])
  }

  /** The masks whose border test gives `touching`, in their original order. */
  function Keep(ms: seq<Mask>, touching: bool): (r: seq<Mask>)
    requires AllRect(ms)
    ensures AllRect(r) && |r| <= |ms|
    ensures forall k :: 0 <= k < |r| ==> TouchesEdge(r[k]) == touching && r[k] in ms
  {
    if ms == [] then []
    else if TouchesEdge(ms[0]) == touching then [ms[0]] + Keep(ms[1..], touching)
    else Keep(ms[1..], touching)
  }

  /** `filter_selections_touching_edge`: None when no mask is left. */
  function FilterTouchingEdge(ms: seq<Mask>): (r: Option<seq<Mask>>)
    requires AllRect(ms)
    ensures r.None? <==> Keep(ms, true) == []
    ensures r.Some? ==> r.value == Keep(ms, true)
  {
    var kept := Keep(ms, true);
    if |kept| == 0 then None else Some(kept)
  }

  /** `filter_selections_not_touching_edge`: None when no mask is left. */
  function FilterNotTouchingEdge(ms: seq<Mask>): (r: Option<seq<Mask>>)
    requires AllRect(ms)
    ensures r.None? <==> Keep(ms, false) == []
    ensures r.Some? ==> r.value == Keep(ms, false)
  {
    var kept := Keep(ms, false);
    if |kept| == 0 then None else Some(kept)
  }

  /** The two filters split the input: every mask goes to exactly one of them, none is lost or duplicated. */
  lemma {:induction false} FiltersPartition(ms: seq<Mask>)
    requires AllRect(ms)
    ensures multiset(Keep(ms, true)) + multiset(Keep(ms, false)) == multiset(ms)
    ensures |Keep(ms, true)| + |Keep(ms, false)| == |ms|
  {
    if ms != [] {
      FiltersPartition(ms[1..]);
      assert ms == [ms[0]] + ms[1..];
    }
  }

  // ---- merging ----

  function Or(a: Mask, b: Mask): (r: Mask)
    requires Rect(a) && Rect(b) && Shape(a) == Shape(b)
    ensures Rect(r) && Shape(r) == Shape(a)
    ensures forall i, j :: 0 <= i < Height(a) && 0 <= j < Width(a) ==> (r[i][j] <==> a[i][j] || b[i][j])
  {
    seq(|a|, i requires 0 <= i < |a| => seq(|a[0]|, j requires 0 <= j < |a[0]| => a[i][j] || b[i][j]))
  }

  predicate SameShapes(ms: seq<Mask>) {
    |ms| > 0 && forall k :: 0 <= k < |ms| ==> Rect(ms[k]) && Shape(ms[k]) == Shape(ms[0])
  }

  /** `merge_selections`: the cell-wise OR of all masks, folded from the left. */
  function MergeSelections(ms: seq<Mask>): (r: Mask)
    requires SameShapes(ms)
    ensures Rect(r) && Shape(r) == Shape(ms[0])
    ensures forall i, j :: 0 <= i < Height(r) && 0 <= j < Width(r) ==>
      (r[i][j] <==> exists k :: 0 <= k < |ms| && ms[k][i][j])
  {
    if |ms| == 1 then ms[0]
    else
      var init := MergeSelections(ms[..|ms| - 1]);
      var r := Or(init, ms[|ms| - 1]);
      assert forall i, j :: 0 <= i < Height(r) && 0 <= j < Width(r) ==>
        ((exists k :: 0 <= k < |ms| && ms[k][i][j]) <==> init[i][j] || ms[|ms| - 1][i][j]) by {
        forall i, j | 0 <= i < Height(r) && 0 <= j < Width(r)
          ensures (exists k :: 0 <= k < |ms| && ms[k][i][j]) <==> init[i][j] || ms[|ms| - 1][i][j]
        {
          if init[i][j] {
            var k :| 0 <= k < |ms| - 1 && ms[..|ms| - 1][k][i][j];
            assert ms[k][i][j];
          }
          if exists k :: 0 <= k < |ms| && ms[k][i][j] {
            var k :| 0 <= k < |ms| && ms[k][i][j];
            if k < |ms| - 1 {
              assert ms[..|ms| - 1][k][i][j];
            }
          }
        }
      }
      r
  }

  /** Merging the areas of a split gives back the split mask. */
  lemma MergeUndoesSplit(sel: Mask, areas: seq<Mask>)
    requires Rect(sel) && |areas| > 0 && AllShaped(sel, areas) && Partition(sel, areas)
    ensures MergeSelections(areas) == sel
  {
    var m := MergeSelections(areas);
    forall i, j | 0 <= i < Height(sel) && 0 <= j < Width(sel)
      ensures m[i][j] == sel[i][j]
    {
      MergeCell(sel, areas, i, j);
    }
    forall i | 0 <= i < |sel| ensures m[i] == sel[i] {
      assert |m[i]| == |sel[i]|;
    }
  }

  lemma MergeCell(sel: Mask, areas: seq<Mask>, i: int, j: int)
    requires Rect(sel) && |areas| > 0 && AllShaped(sel, areas) && Covers(sel, areas)
    requires 0 <= i < Height(sel) && 0 <= j < Width(sel)
    ensures MergeSelections(areas)[i][j] == sel[i][j]
  {
    var m := MergeSelections(areas);
    ShapedCells(sel, areas, i, j);
    if m[i][j] {
      var k :| 0 <= k < |areas| && Marked(areas[k], (i, j));
      assert Marked(sel, (i, j));
    }
    if sel[i][j] {
      assert Marked(sel, (i, j));
      var k :| 0 <= k < |areas| && Marked(areas[k], (i, j));
      assert m[i][j];
    }
  }

  /** Inside the shape, a cell is marked in a mask of that shape exactly when the mask holds it. */
  lemma ShapedCells(sel: Mask, areas: seq<Mask>, i: int, j: int)
    requires Rect(sel) && |areas| > 0 && AllShaped(sel, areas)
    requires 0 <= i < Height(sel) && 0 <= j < Width(sel)
    ensures Marked(sel, (i, j)) <==> sel[i][j]
    ensures forall k :: 0 <= k < |areas| ==> 0 <= i < |areas[k]| && 0 <= j < |areas[k][i]| && (Marked(areas[k], (i, j)) <==> areas[k][i][j])
  {
  }
}
