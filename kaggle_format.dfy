/**
 * The text format of the Kaggle submission file: a grid is written as its
 * rows of digits between `|` bars (`format_grid`), and a row of the file is
 * `<task id>_<test index>,<attempt> <attempt> ...`. Both `kaggle/submission.py`
 * and `dataset/kaggle.py` define the same `format_grid`; it is defined
 * here once. The parsers are the reading direction that the round-trip
 * lemmas check the format against.
 */
module KaggleFormat {
  import opened Wrappers
  import opened Text
  import opened Arguments

  /**
   * What a solution returns for one test input: a single grid, a list of
   * attempts, or a `Grids` tuple of attempts.
   */
  datatype Attempts = Single(grid: Grid) | Several(grids: seq<Grid>) | Sequence(grids: seq<Grid>)

  /** A value without `__len__` is wrapped as one attempt; a list or tuple is iterated as it is. */
  function AttemptsOf(a: Attempts): (r: seq<Grid>)
    ensures a.Single? ==> r == [a.grid]
    ensures !a.Single? ==> r == a.grids
  {
    match a
    case Single(g) => [g]
    case Several(gs) => gs
    case Sequence(gs) => gs
  }

  /** Every cell is a colour `0..9`, which `format_grid` asserts. */
  predicate Digits(g: Grid) {
    forall i, j :: 0 <= i < |g| && 0 <= j < |g[i]| ==> 0 <= g[i][j] <= 9
  }

  predicate IsBar(c: char) {
    c == '|'
  }

  predicate IsComma(c: char) {
    c == ','
  }

  predicate IsUnderscore(c: char) {
    c == '_'
  }

  /** The digits of one row, concatenated. */
  function RowText(row: seq<int>): (s: string)
    requires forall j :: 0 <= j < |row| ==> 0 <= row[j] <= 9
    ensures |s| == |row| && forall j :: 0 <= j < |row| ==> s[j] == DigitChar(row[j])
  {
    seq(|row|, j requires 0 <= j < |row| => DigitChar(row[j]))
  }

  function RowTexts(g: Grid): (r: seq<string>)
    requires Digits(g)
    ensures |r| == |g| && forall i :: 0 <= i < |g| ==> r[i] == RowText(g[i])
  {
    seq(|g|, i requires 0 <= i < |g| => RowText(g[i]))
  }

  /**
   * `format_grid(grid)`: an `AssertionError` unless every cell is a colour;
   * otherwise `"|"`, the rows' digits joined by `"|"`, and `"|"`.
   */
  function FormatGrid(g: Grid): (r: Result<string>)
    ensures r.Success? <==> Digits(g)
    ensures r.Failure? ==> r.error == "AssertionError"
    ensures r.Success? ==> |r.value| >= 2 && r.value[0] == '|' && r.value[|r.value| - 1] == '|'
  {
    if Digits(g) then Success("|" + Join(RowTexts(g), "|") + "|") else Failure("AssertionError")
  }

  /** Reads a grid back: bars around rows of digits. */
  function ParseGrid(s: string): Option<Grid> {
    if |s| >= 2 && s[0] == '|' && s[|s| - 1] == '|' then
      var rows := Words(s[1..|s| - 1], IsBar);
      if forall i :: 0 <= i < |rows| ==> AllDigits(rows[i]) then
        Some(seq(|rows|, i requires 0 <= i < |rows| =>
          seq(|rows[i]|, j requires 0 <= j < |rows[i]| => rows[i][j] as int - 48)))
      else None
    else None
  }

  /** No row is empty, so that no two grids print alike. */
  predicate NoEmptyRow(g: Grid) {
    forall i :: 0 <= i < |g| ==> |g[i]| > 0
  }

  /** Reading a formatted grid gives the grid back. */
  lemma FormatGridRoundTrip(g: Grid)
    requires Digits(g) && NoEmptyRow(g)
    ensures ParseGrid(FormatGrid(g).value) == Some(g)
  {
    var rows := RowTexts(g);
    var s := FormatGrid(g).value;
    forall i | 0 <= i < |rows| ensures rows[i] != [] && NoSep(rows[i], IsBar) {
    }
    WordsOfJoin(rows, '|', IsBar);
    assert s[1..|s| - 1] == Join(rows, "|");
    forall i | 0 <= i < |rows| ensures AllDigits(rows[i]) {
    }
    var p := seq(|rows|, i requires 0 <= i < |rows| =>
      seq(|rows[i]|, j requires 0 <= j < |rows[i]| => rows[i][j] as int - 48));
    assert ParseGrid(s) == Some(p);
    forall i | 0 <= i < |g| ensures p[i] == g[i] {
      forall j | 0 <= j < |g[i]| ensures p[i][j] == g[i][j] {
        assert rows[i][j] == DigitChar(g[i][j]);
      }
    }
    assert p == g;
  }

  /** The test's example: `[[1, 2], [3, 4]]` is written `|12|34|`. */
  lemma FormatGridExample()
    ensures FormatGrid([[1, 2], [3, 4]]) == Success("|12|34|")
  {
    var g: Grid := [[1, 2], [3, 4]];
    assert Digits(g);
    assert DigitChar(1) == '1' && DigitChar(2) == '2' && DigitChar(3) == '3' && DigitChar(4) == '4';
    assert RowText(g[0]) == "12" && RowText(g[1]) == "34";
    assert RowTexts(g) == ["12", "34"];
    assert ["12", "34"][1..] == ["34"];
    assert Join(["12", "34"], "|") == "12|34";
    assert FormatGrid(g) == Success("|" + "12|34" + "|");
    assert "|" + "12|34" + "|" == "|12|34|";
  }

  /** The formatted attempts, in order. */
  function GridTexts(gs: seq<Grid>): (r: seq<string>)
    requires forall k :: 0 <= k < |gs| ==> Digits(gs[k])
    ensures |r| == |gs| && forall k :: 0 <= k < |gs| ==> Success(r[k]) == FormatGrid(gs[k])
  {
    seq(|gs|, k requires 0 <= k < |gs| => FormatGrid(gs[k]).value)
  }

  /**
   * One row of the file, `"{}_{},{}".format(task_id, index, attempts)` with
   * the attempts joined by single spaces; the first attempt that is not a
   * grid of colours raises.
   */
  function Row(taskId: string, index: nat, gs: seq<Grid>): (r: Result<string>)
    ensures r.Success? <==> forall k :: 0 <= k < |gs| ==> Digits(gs[k])
    ensures r.Failure? ==> r.error == "AssertionError"
  {
    if forall k :: 0 <= k < |gs| ==> Digits(gs[k]) then
      Success(taskId + "_" + NatToString(index) + "," + Join(GridTexts(gs), " "))
    else Failure("AssertionError")
  }

  /** Reads the row's key back: its task id and test index around the one underscore. */
  function ParseKey(head: string): Option<(string, nat)> {
    var key := Words(head, IsUnderscore);
    if |key| == 2 && AllDigits(key[1]) then Some((key[0], DigitsValue(key[1]))) else None
  }

  /** Reads the attempts back: space-separated grids. */
  function ParseAttempts(tail: string): Option<seq<Grid>> {
    var texts := Words(tail, IsSpace);
    if forall k :: 0 <= k < |texts| ==> ParseGrid(texts[k]).Some? then
      Some(seq(|texts|, k requires 0 <= k < |texts| => ParseGrid(texts[k]).value))
    else None
  }

  /** Reads a row back: the key before the first comma, the attempts after it. */
  function ReadRow(s: string): Option<(string, nat, seq<Grid>)> {
    var head := Word(s, IsComma);
    if |head| == |s| then None
    else
      match (ParseKey(head), ParseAttempts(s[|head| + 1..]))
      case (Some((taskId, index)), Some(gs)) => Some((taskId, index, gs))
      case _ => None
  }

  /** A task id as the dataset names them: not empty, and free of the row's separators. */
  predicate TaskId(taskId: string) {
    taskId != [] && NoSep(taskId, IsUnderscore) && NoSep(taskId, IsComma)
  }

  /** A formatted grid holds only digits and bars. */
  lemma GridTextChars(g: Grid)
    requires Digits(g)
    ensures forall j :: 0 <= j < |FormatGrid(g).value| ==> IsDigit(FormatGrid(g).value[j]) || IsBar(FormatGrid(g).value[j])
  {
    var rows := RowTexts(g);
    JoinNoSep(rows, '|', IsComma);
    JoinNoSep(rows, '|', IsUnderscore);
    JoinChars(rows, "|");
  }

  /** Every character of a joined list comes from a part or the separator. */
  lemma {:induction false} JoinChars(ws: seq<string>, sep: string)
    ensures forall j :: 0 <= j < |Join(ws, sep)| ==>
      Join(ws, sep)[j] in sep || exists k :: 0 <= k < |ws| && Join(ws, sep)[j] in ws[k]
  {
    if |ws| >= 2 {
      JoinChars(ws[1..], sep);
      var tail := Join(ws[1..], sep);
      forall j | 0 <= j < |Join(ws, sep)|
        ensures Join(ws, sep)[j] in sep || exists k :: 0 <= k < |ws| && Join(ws, sep)[j] in ws[k]
      {
        var c := Join(ws, sep)[j];
        if j < |ws[0]| {
          assert c in ws[0];
        } else if j < |ws[0]| + |sep| {
          assert c in sep;
        } else {
          assert c == tail[j - |ws[0]| - |sep|];
          if c !in sep {
            var k :| 0 <= k < |ws[1..]| && c in ws[1..][k];
            assert c in ws[k + 1];
          }
        }
      }
    }
  }

  /** The key of a row reads back as its task id and index. */
  lemma KeyRoundTrip(taskId: string, index: nat)
    requires TaskId(taskId)
    ensures ParseKey(taskId + "_" + NatToString(index)) == Some((taskId, index))
  {
    var digits := NatToString(index);
    assert Join([taskId, digits], "_") == taskId + "_" + digits;
    WordsOfJoin([taskId, digits], '_', IsUnderscore);
    NatToStringValue(index);
  }

  /** The attempts of a row read back as the grids. */
  lemma AttemptsRoundTrip(gs: seq<Grid>)
    requires forall k :: 0 <= k < |gs| ==> Digits(gs[k]) && NoEmptyRow(gs[k])
    ensures ParseAttempts(Join(GridTexts(gs), " ")) == Some(gs)
  {
    var texts := GridTexts(gs);
    forall k | 0 <= k < |texts| ensures texts[k] != [] && NoSep(texts[k], IsSpace) {
      GridTextChars(gs[k]);
    }
    WordsOfJoin(texts, ' ', IsSpace);
    forall k | 0 <= k < |gs| ensures ParseGrid(texts[k]) == Some(gs[k]) {
      FormatGridRoundTrip(gs[k]);
    }
    var p := seq(|texts|, k requires 0 <= k < |texts| => ParseGrid(texts[k]).value);
    assert ParseAttempts(Join(texts, " ")) == Some(p);
    assert p == gs;
  }

  /** Reading a row gives back its task id, its index and its attempts. */
  lemma RowRoundTrip(taskId: string, index: nat, gs: seq<Grid>)
    requires TaskId(taskId)
    requires forall k :: 0 <= k < |gs| ==> Digits(gs[k]) && NoEmptyRow(gs[k])
    ensures ReadRow(Row(taskId, index, gs).value) == Some((taskId, index, gs))
  {
    var head := taskId + "_" + NatToString(index);
    var tail := Join(GridTexts(gs), " ");
    var s := Row(taskId, index, gs).value;
    assert s == head + ([','] + tail);
    assert NoSep(head, IsComma);
    WordOfPrefix(head, [','] + tail, IsComma);
    assert s[|head| + 1..] == tail;
    KeyRoundTrip(taskId, index);
    AttemptsRoundTrip(gs);
  }
}
