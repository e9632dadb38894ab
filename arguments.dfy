/**
 * Integer pixel grids (`Grid`), boolean masks (`Selection`) and tuples of
 * them (`Grids`, `Selections`), with their text formats.
 *
 * A grid is a sequence of rows. The numpy state of the source always has two
 * dimensions; here that is the `Rect` predicate (every row as long as the
 * first). A grid with no rows has shape (0, 0).
 */
module Arguments {
  import opened Wrappers
  import opened Text

  type Grid = seq<seq<int>>
  type Mask = seq<seq<bool>>
  type Cell = (int, int)

  /** The values a node or an argument can carry. */
  datatype Value =
    | GridV(grid: Grid)
    | SelectionV(mask: Mask)
    | GridsV(grids: seq<Grid>)
    | SelectionsV(masks: seq<Mask>)
    | IntV(n: int)

  predicate Rect<T>(g: seq<seq<T>>) {
    forall i :: 0 <= i < |g| ==> |g[i]| == |g[0]|
  }

  /** A state that a list of lists turns into: at least one row, all rows equally long and not empty. */
  predicate Proper<T>(g: seq<seq<T>>) {
    |g| > 0 && Rect(g) && |g[0]| > 0
  }

  function Height<T>(g: seq<seq<T>>): nat {
    |g|
  }

  function Width<T>(g: seq<seq<T>>): nat {
    if |g| == 0 then 0 else |g[0]|
  }

  function Shape<T>(g: seq<seq<T>>): (nat, nat) {
    (Height(g), Width(g))
  }

  predicate InShape<T>(g: seq<seq<T>>, c: Cell) {
    0 <= c.0 < Height(g) && 0 <= c.1 < Width(g)
  }

  /**
   * `Grid(rows)` / `Selection(rows)` for a list of lists: numpy gives a 2-D
   * array of the right element type only for a non-empty rectangle of
   * non-empty rows; anything else fails the constructor's assertions.
   */
  function FromRows<T>(rows: seq<seq<T>>): (r: Option<seq<seq<T>>>)
    ensures r.Some? <==> Proper(rows)
    ensures r.Some? ==> r.value == rows
  {
    if Proper(rows) then Some(rows) else None
  }

  /** `Grid.filled(shape, color)`; `Grid.empty(shape)` is the colour 0. */
  function Filled(h: nat, w: nat, color: int): (g: Grid)
    ensures Rect(g) && Height(g) == h && (h > 0 ==> Width(g) == w)
    ensures forall i, j :: 0 <= i < h && 0 <= j < w ==> g[i][j] == color
  {
    seq(h, i => seq(w, j => color))
  }

  /** `Selection.empty(shape)`. */
  function EmptyMask(h: nat, w: nat): (m: Mask)
    ensures Rect(m) && Height(m) == h && (h > 0 ==> Width(m) == w)
    ensures forall i, j :: 0 <= i < h && 0 <= j < w ==> !m[i][j]
  {
    seq(h, i => seq(w, j => false))
  }

  /** `Selection.any()`. */
  predicate AnySet(m: Mask) {
    exists i, j :: 0 <= i < |m| && 0 <= j < |m[i]| && m[i][j]
  }

  // ---- equality ----

  /** Grids are equal exactly when their shapes and all their cells agree. */
  lemma GridEquality(a: Grid, b: Grid)
    requires Rect(a) && Rect(b)
    ensures GridV(a) == GridV(b) <==>
      Shape(a) == Shape(b) && forall i, j :: 0 <= i < Height(a) && 0 <= j < Width(a) ==> a[i][j] == b[i][j]
  {
    if Shape(a) == Shape(b) && forall i, j :: 0 <= i < Height(a) && 0 <= j < Width(a) ==> a[i][j] == b[i][j] {
      forall i | 0 <= i < |a|
        ensures a[i] == b[i]
      {
        assert |a[i]| == Width(a) == |b[i]|;
      }
      assert a == b;
    }
  }

  /**
   * A grid never equals a selection, whatever their cells: their equality
   * also compares the class. `Grids` and `Selections` are tuples and
   * compare as tuples, item by item, so one-item sequences differ only
   * because their items do.
   */
  lemma ClassesDiffer(g: Grid, m: Mask)
    ensures GridV(g) != SelectionV(m)
    ensures GridsV([g]) != SelectionsV([m])
  {
  }

  // ---- text format ----

  /** One row of text: the cells' texts joined by single spaces. */
  function RenderRow<T>(row: seq<T>, cell: T -> string): string {
    Join(seq(|row|, j requires 0 <= j < |row| => cell(row[j])), " ")
  }

  /** `str(grid)`: the rows joined by newlines. */
  function Render<T>(g: seq<seq<T>>, cell: T -> string): string {
    Join(seq(|g|, i requires 0 <= i < |g| => RenderRow(g[i], cell)), "\n")
  }

  /** `filtered_elements`: the whitespace-separated tokens of every non-blank line. */
  function Tokens(s: string): seq<seq<string>> {
    NonBlank(Words(s, IsLineBreak))
  }

  function NonBlank(lines: seq<string>): (r: seq<seq<string>>)
    ensures forall i :: 0 <= i < |r| ==> r[i] != []
  {
    if lines == [] then []
    else if Words(lines[0], IsSpace) == [] then NonBlank(lines[1..])
    else [Words(lines[0], IsSpace)] + NonBlank(lines[1..])
  }

  function ParseRow<T>(tokens: seq<string>, parse: string -> Option<T>): Option<seq<T>> {
    if tokens == [] then Some([])
    else match (parse(tokens[0]), ParseRow(tokens[1..], parse))
      case (Some(x), Some(rest)) => Some([x] + rest)
      case _ => None
  }

  function ParseRows<T>(rows: seq<seq<string>>, parse: string -> Option<T>): Option<seq<seq<T>>> {
    if rows == [] then Some([])
    else match (ParseRow(rows[0], parse), ParseRows(rows[1..], parse))
      case (Some(x), Some(rest)) => Some([x] + rest)
      case _ => None
  }

  /** `from_string`: tokens parsed cell by cell, then the constructor's checks. */
  function Parse<T>(s: string, parse: string -> Option<T>): Option<seq<seq<T>>> {
    match ParseRows(Tokens(s), parse)
    case None => None
    case Some(rows) => FromRows(rows)
  }

  function GridToString(g: Grid): string {
    Render(g, IntToString)
  }

  function GridFromString(s: string): Option<Grid> {
    Parse(s, ParseInt)
  }

  function MaskCell(b: bool): string {
    if b then "#" else "."
  }

  function MaskToken(t: string): Option<bool> {
    Some(t == "#")
  }

  function MaskToString(m: Mask): string {
    Render(m, MaskCell)
  }

  function MaskFromString(s: string): Option<Mask> {
    Parse(s, MaskToken)
  }

  /** The condition under which a cell format survives a round trip through text. */
  ghost predicate Readable<T(!new)>(cell: T -> string, parse: string -> Option<T>) {
    forall x :: cell(x) != [] && NoSep(cell(x), IsSpace) && parse(cell(x)) == Some(x)
  }

  lemma {:induction false} ParseRowOfRender<T(!new)>(row: seq<T>, cell: T -> string, parse: string -> Option<T>)
    requires Readable(cell, parse)
    ensures ParseRow(seq(|row|, j requires 0 <= j < |row| => cell(row[j])), parse) == Some(row)
  {
    if row != [] {
      var toks := seq(|row|, j requires 0 <= j < |row| => cell(row[j]));
      assert toks[1..] == seq(|row[1..]|, j requires 0 <= j < |row[1..]| => cell(row[1..][j]));
      ParseRowOfRender(row[1..], cell, parse);
      assert row == [row[0]] + row[1..];
    }
  }

  lemma RowWords<T(!new)>(row: seq<T>, cell: T -> string, parse: string -> Option<T>)
    requires Readable(cell, parse) && row != []
    ensures Words(RenderRow(row, cell), IsSpace) == seq(|row|, j requires 0 <= j < |row| => cell(row[j]))
    ensures RenderRow(row, cell) != [] && NoSep(RenderRow(row, cell), IsLineBreak)
  {
    var toks := seq(|row|, j requires 0 <= j < |row| => cell(row[j]));
    WordsOfJoin(toks, ' ', IsSpace);
    forall k | 0 <= k < |toks|
      ensures NoSep(toks[k], IsLineBreak)
    {
      forall p | 0 <= p < |toks[k]|
        ensures !IsLineBreak(toks[k][p])
      {
        if IsLineBreak(toks[k][p]) {
          LineBreakIsSpace(toks[k][p]);
        }
      }
    }
    JoinNoSep(toks, ' ', IsLineBreak);
    JoinNonEmpty(toks, " ");
  }

  lemma {:induction false} NonBlankOfRows<T(!new)>(g: seq<seq<T>>, cell: T -> string, parse: string -> Option<T>)
    requires Readable(cell, parse)
    requires forall i :: 0 <= i < |g| ==> g[i] != []
    ensures ParseRows(NonBlank(seq(|g|, i requires 0 <= i < |g| => RenderRow(g[i], cell))), parse) == Some(g)
  {
    if g != [] {
      var lines := seq(|g|, i requires 0 <= i < |g| => RenderRow(g[i], cell));
      RowWords(g[0], cell, parse);
      ParseRowOfRender(g[0], cell, parse);
      assert lines[1..] == seq(|g[1..]|, i requires 0 <= i < |g[1..]| => RenderRow(g[1..][i], cell));
      NonBlankOfRows(g[1..], cell, parse);
      assert g == [g[0]] + g[1..];
    }
  }

  /** `from_string(str(x)) == x` for every cell format that survives the round trip. */
  lemma RenderRoundTrip<T(!new)>(g: seq<seq<T>>, cell: T -> string, parse: string -> Option<T>)
    requires Readable(cell, parse) && Proper(g)
    ensures Parse(Render(g, cell), parse) == Some(g)
  {
    var lines := seq(|g|, i requires 0 <= i < |g| => RenderRow(g[i], cell));
    forall i | 0 <= i < |lines|
      ensures lines[i] != [] && NoSep(lines[i], IsLineBreak)
    {
      RowWords(g[i], cell, parse);
    }
    WordsOfJoin(lines, '\n', IsLineBreak);
    NonBlankOfRows(g, cell, parse);
  }

  /** `Grid.from_string(str(g)) == g`. */
  lemma GridRoundTrip(g: Grid)
    requires Proper(g)
    ensures GridFromString(GridToString(g)) == Some(g)
  {
    forall x: int ensures IntToString(x) != [] && NoSep(IntToString(x), IsSpace) && ParseInt(IntToString(x)) == Some(x) {
      IntToStringNoSpace(x);
      IntRoundTrip(x);
    }
    RenderRoundTrip(g, IntToString, ParseInt);
  }

  /** `Selection.from_string(str(m)) == m`, with `#` for set and `.` for unset cells. */
  lemma MaskRoundTrip(m: Mask)
    requires Proper(m)
    ensures MaskFromString(MaskToString(m)) == Some(m)
  {
    RenderRoundTrip(m, MaskCell, MaskToken);
  }

  /** Text with no non-blank line makes no grid: numpy builds a 1-D array from an empty list. */
  lemma BlankTextIsNoGrid(s: string)
    requires forall k :: 0 <= k < |s| ==> IsSpace(s[k])
    ensures GridFromString(s) == None
  {
    BlankWords(s);
  }

  lemma {:induction false} BlankWords(s: string)
    requires forall k :: 0 <= k < |s| ==> IsSpace(s[k])
    ensures NonBlank(Words(s, IsLineBreak)) == []
    decreases |s|
  {
    if s != [] {
      if IsLineBreak(s[0]) {
        BlankWords(s[1..]);
      } else {
        var w := Word(s, IsLineBreak);
        assert Words(w, IsSpace) == [] by { AllSpaceWords(w); }
        BlankWords(s[|w|..]);
      }
    }
  }

  lemma {:induction false} AllSpaceWords(s: string)
    requires forall k :: 0 <= k < |s| ==> IsSpace(s[k])
    ensures Words(s, IsSpace) == []
    decreases |s|
  {
    if s != [] {
      AllSpaceWords(s[1..]);
    }
  }

  // ---- colours ----

  function Flatten<T>(g: seq<seq<T>>): seq<T> {
    if g == [] then [] else g[0] + Flatten(g[1..])
  }

  ghost predicate Occurs(g: Grid, c: int) {
    exists i, j :: 0 <= i < |g| && 0 <= j < |g[i]| && g[i][j] == c
  }

  lemma {:induction false} FlattenMember(g: Grid, c: int)
    ensures c in Flatten(g) <==> Occurs(g, c)
  {
    if g != [] {
      FlattenMember(g[1..], c);
      if Occurs(g[1..], c) {
        var i, j :| 0 <= i < |g[1..]| && 0 <= j < |g[1..][i]| && g[1..][i][j] == c;
        assert g[i + 1][j] == c;
      }
      if Occurs(g, c) && c !in g[0] {
        var i, j :| 0 <= i < |g| && 0 <= j < |g[i]| && g[i][j] == c;
        assert i != 0;
        assert g[1..][i - 1][j] == c;
      }
    }
  }

  predicate Increasing(s: seq<int>) {
    forall i, j :: 0 <= i < j < |s| ==> s[i] < s[j]
  }

  function InsertSorted(s: seq<int>, x: int): (r: seq<int>)
    requires Increasing(s)
    ensures Increasing(r)
    ensures forall y :: y in r <==> y in s || y == x
  {
    if s == [] then [x]
    else if x < s[0] then [x] + s
    else if x == s[0] then s
    else
      var t := InsertSorted(s[1..], x);
      assert forall k :: 0 <= k < |t| ==> s[0] < t[k] by {
        forall k | 0 <= k < |t|
          ensures s[0] < t[k]
        {
          var y := t[k];
          assert y in t;
          if y != x {
            var m :| 0 <= m < |s[1..]| && s[1..][m] == y;
            assert s[m + 1] == y;
          }
        }
      }
      [s[0]] + t
  }

  /** `np.unique`: the distinct elements in increasing order. */
  function SortedDistinct(xs: seq<int>): (r: seq<int>)
    ensures Increasing(r)
    ensures forall y :: y in r <==> y in xs
  {
    if xs == [] then [] else InsertSorted(SortedDistinct(xs[..|xs| - 1]), xs[|xs| - 1])
  }

  /** `Grid.used_colors`: every colour of the grid once, in increasing order. */
  function UsedColors(g: Grid): (r: seq<int>)
    ensures Increasing(r)
    ensures forall c :: c in r <==> Occurs(g, c)
  {
    var r := SortedDistinct(Flatten(g));
    forall c ensures c in r <==> Occurs(g, c) {
      FlattenMember(g, c);
    }
    r
  }

  /** Two increasing sequences with the same elements are equal, so `UsedColors` is determined by the colours alone. */
  lemma {:induction false} IncreasingUnique(a: seq<int>, b: seq<int>)
    requires Increasing(a) && Increasing(b)
    requires forall y :: y in a <==> y in b
    ensures a == b
  {
    if a != [] {
      assert a[0] in a;
    }
    if b != [] {
      assert b[0] in b;
    }
    if a != [] && b != [] {
      SameHead(a, b);
      SameTail(a, b);
      IncreasingUnique(a[1..], b[1..]);
      assert a == [a[0]] + a[1..] && b == [b[0]] + b[1..];
    }
  }

  /** The least element is the head of an increasing sequence, so two with the same elements share it. */
  lemma SameHead(a: seq<int>, b: seq<int>)
    requires Increasing(a) && Increasing(b) && a != [] && b != []
    requires forall y :: y in a <==> y in b
    ensures a[0] == b[0]
  {
    assert a[0] in a && b[0] in b;
    var ka :| 0 <= ka < |b| && b[ka] == a[0];
    assert b[0] <= b[ka];
    var kb :| 0 <= kb < |a| && a[kb] == b[0];
    assert a[0] <= a[kb];
  }

  lemma SameTail(a: seq<int>, b: seq<int>)
    requires Increasing(a) && Increasing(b) && a != [] && b != [] && a[0] == b[0]
    requires forall y :: y in a <==> y in b
    ensures Increasing(a[1..]) && Increasing(b[1..])
    ensures forall y :: y in a[1..] <==> y in b[1..]
  {
    forall y ensures y in a[1..] <==> y in b[1..] {
      if y in a[1..] {
        var k :| 1 <= k < |a| && a[k] == y;
        assert y in b && y != b[0];
      }
      if y in b[1..] {
        var k :| 1 <= k < |b| && b[k] == y;
        assert y in a && y != a[0];
      }
    }
  }

  // ---- selections from indices ----

  function FlatIndex(c: Cell, cols: int): int {
    c.0 * cols + c.1
  }

  function FlatIndices(indices: seq<Cell>, cols: int): seq<int> {
    seq(|indices|, k requires 0 <= k < |indices| => FlatIndex(indices[k], cols))
  }

  lemma FlatIndexBounds(c: Cell, rows: nat, cols: nat)
    requires 0 <= c.0 < rows && 0 <= c.1 < cols
    ensures 0 <= FlatIndex(c, cols) < rows * cols
  {
    assert c.0 * cols <= (rows - 1) * cols;
  }

  lemma FlatIndexInjective(c: Cell, d: Cell, cols: nat)
    requires 0 <= c.0 && 0 <= c.1 < cols && 0 <= d.0 && 0 <= d.1 < cols
    requires FlatIndex(c, cols) == FlatIndex(d, cols)
    ensures c == d
  {
    if c.0 < d.0 {
      MulMonotone(c.0 + 1, d.0, cols);
      assert false;
    } else if d.0 < c.0 {
      MulMonotone(d.0 + 1, c.0, cols);
      assert false;
    }
  }

  lemma MulMonotone(x: int, y: int, z: nat)
    requires x <= y
    ensures x * z <= y * z
  {
    assert (y - x) * z >= 0;
  }

  /**
   * `Selection.from_indices(shape, indices)`: a flat boolean buffer of
   * rows * cols cells is set at every listed index, then cut into rows.
   * An empty index list fails in the source (numpy cannot take the dot
   * product of an empty array with the row stride), which is `None` here.
   */
  method FromIndices(rows: nat, cols: nat, indices: seq<Cell>) returns (r: Option<Mask>)
    requires forall k :: 0 <= k < |indices| ==> 0 <= indices[k].0 < rows && 0 <= indices[k].1 < cols
    ensures r.None? <==> indices == []
    ensures r.Some? ==> Rect(r.value) && Height(r.value) == rows && Width(r.value) == cols
    ensures r.Some? ==> forall i, j :: 0 <= i < rows && 0 <= j < cols ==> (r.value[i][j] <==> (i, j) in indices)
  {
    if indices == [] {
      return None;
    }
    assert rows > 0 && cols > 0 by { assert 0 <= indices[0].0 < rows && 0 <= indices[0].1 < cols; }
    var flat := MarkFlat(rows, cols, indices);
    var m := CutRows(flat, rows, cols);
    forall a, b | 0 <= a < rows && 0 <= b < cols
      ensures m[a][b] <==> (a, b) in indices
    {
      FlatIndexListed(indices, a, b, cols);
    }
    return Some(m);
  }

  /** The flat buffer of `rows * cols` cells, set exactly at the flat indices of the listed cells. */
  method MarkFlat(rows: nat, cols: nat, indices: seq<Cell>) returns (flat: array<bool>)
    requires forall k :: 0 <= k < |indices| ==> 0 <= indices[k].0 < rows && 0 <= indices[k].1 < cols
    ensures fresh(flat) && flat.Length == rows * cols
    ensures forall p :: 0 <= p < flat.Length ==> (flat[p] <==> p in FlatIndices(indices, cols))
  {
    flat := new bool[rows * cols];
    forall p | 0 <= p < flat.Length {
      flat[p] := false;
    }
    var k := 0;
    while k < |indices|
      invariant 0 <= k <= |indices|
      invariant forall p :: 0 <= p < flat.Length ==> (flat[p] <==> p in FlatIndices(indices[..k], cols))
    {
      FlatIndexBounds(indices[k], rows, cols);
      flat[FlatIndex(indices[k], cols)] := true;
      assert FlatIndices(indices[..k + 1], cols) == FlatIndices(indices[..k], cols) + [FlatIndex(indices[k], cols)];
      k := k + 1;
    }
    assert indices[..k] == indices;
  }

  /** The flat buffer cut into `rows` rows of `cols` cells. */
  method CutRows(flat: array<bool>, rows: nat, cols: nat) returns (m: Mask)
    requires flat.Length == rows * cols
    ensures |m| == rows && forall a :: 0 <= a < rows ==> |m[a]| == cols
    ensures forall a, b :: 0 <= a < rows && 0 <= b < cols ==>
      FlatIndex((a, b), cols) < flat.Length && m[a][b] == flat[FlatIndex((a, b), cols)]
  {
    m := [];
    var i, start := 0, 0;
    while i < rows
      invariant 0 <= i <= rows && |m| == i && start == i * cols
      invariant forall a :: 0 <= a < i ==> |m[a]| == cols
      invariant forall a, b :: 0 <= a < i && 0 <= b < cols ==>
        FlatIndex((a, b), cols) < flat.Length && m[a][b] == flat[FlatIndex((a, b), cols)]
    {
      MulStep(i, cols);
      MulMonotone(i + 1, rows, cols);
      var row := flat[start .. start + cols];
      m := m + [row];
      i, start := i + 1, start + cols;
    }
  }

  lemma MulStep(i: int, cols: int)
    ensures (i + 1) * cols == i * cols + cols
  {
  }

  /** A cell's flat index is listed exactly when the cell is. */
  lemma FlatIndexListed(indices: seq<Cell>, a: int, b: int, cols: nat)
    requires forall k :: 0 <= k < |indices| ==> 0 <= indices[k].0 && 0 <= indices[k].1 < cols
    requires 0 <= a && 0 <= b < cols
    ensures FlatIndex((a, b), cols) in FlatIndices(indices, cols) <==> (a, b) in indices
  {
    if FlatIndex((a, b), cols) in FlatIndices(indices, cols) {
      var k :| 0 <= k < |indices| && FlatIndices(indices, cols)[k] == FlatIndex((a, b), cols);
      FlatIndexInjective(indices[k], (a, b), cols);
    }
    if (a, b) in indices {
      var k :| 0 <= k < |indices| && indices[k] == (a, b);
      assert FlatIndices(indices, cols)[k] == FlatIndex((a, b), cols);
    }
  }

  // ---- sequences of grids or selections ----

  /** `_Sequence.append`: a new tuple one longer; the original is a value and stays as it was. */
  function Append<T>(s: seq<T>, x: T): (r: seq<T>)
    ensures |r| == |s| + 1 && r[..|s|] == s && r[|s|] == x
  {
    s + [x]
  }

  /** The one value every element shares, as `len({...}) == 1` asks; None for an empty or mixed sequence. */
  function Common<T(==)>(xs: seq<T>): (r: Option<T>)
    ensures r.Some? <==> |xs| > 0 && forall k :: 0 <= k < |xs| ==> xs[k] == xs[0]
    ensures r.Some? ==> r.value == xs[0]
  {
    if |xs| == 0 then None
    else if forall k :: 0 <= k < |xs| ==> xs[k] == xs[0] then Some(xs[0])
    else None
  }

  function Shapes<T>(s: seq<seq<seq<T>>>): seq<(nat, nat)> {
    seq(|s|, k requires 0 <= k < |s| => Shape(s[k]))
  }

  /** `_Sequence.shape`: the common shape of the elements, or None. */
  function SeqShape<T>(s: seq<seq<seq<T>>>): (r: Option<(nat, nat)>)
    ensures r.Some? <==> |s| > 0 && forall k :: 0 <= k < |s| ==> Shape(s[k]) == Shape(s[0])
    ensures r.Some? ==> forall k :: 0 <= k < |s| ==> Shape(s[k]) == r.value
  {
    var xs := Shapes(s);
    assert forall k :: 0 <= k < |s| ==> xs[k] == Shape(s[k]);
    Common(xs)
  }

  /** `_Sequence.height`. */
  function SeqHeight<T>(s: seq<seq<seq<T>>>): (r: Option<nat>)
    ensures r.Some? <==> |s| > 0 && forall k :: 0 <= k < |s| ==> Height(s[k]) == Height(s[0])
    ensures r.Some? ==> forall k :: 0 <= k < |s| ==> Height(s[k]) == r.value
  {
    var xs := seq(|s|, k requires 0 <= k < |s| => Height(s[k]));
    assert forall k :: 0 <= k < |s| ==> xs[k] == Height(s[k]);
    Common(xs)
  }

  /** `_Sequence.width`. */
  function SeqWidth<T>(s: seq<seq<seq<T>>>): (r: Option<nat>)
    ensures r.Some? <==> |s| > 0 && forall k :: 0 <= k < |s| ==> Width(s[k]) == Width(s[0])
    ensures r.Some? ==> forall k :: 0 <= k < |s| ==> Width(s[k]) == r.value
  {
    var xs := seq(|s|, k requires 0 <= k < |s| => Width(s[k]));
    assert forall k :: 0 <= k < |s| ==> xs[k] == Width(s[k]);
    Common(xs)
  }

  /** Appending an element keeps a common shape exactly when the element has it too. */
  lemma AppendShape<T>(s: seq<seq<seq<T>>>, x: seq<seq<T>>)
    requires |s| > 0
    ensures SeqShape(Append(s, x)).Some? <==> SeqShape(s) == Some(Shape(x))
  {
    var r := Append(s, x);
    if SeqShape(r).Some? {
      assert Shape(r[|s|]) == Shape(r[0]);
      forall k | 0 <= k < |s| ensures Shape(s[k]) == Shape(s[0]) {
        assert r[k] == s[k];
      }
    }
  }
}
