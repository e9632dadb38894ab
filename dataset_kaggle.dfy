/**
 * `format_results` of `dataset/kaggle.py`: like the submission's, except
 * that each result is padded to exactly three attempts with zero grids of
 * the first attempt's shape; an empty list of attempts has no first
 * attempt and raises `IndexError`, and a `Grids` tuple cannot be extended
 * by a list and raises `TypeError`.
 */
module KaggleDataset {
  import opened Wrappers
  import opened Text
  import opened Arguments
  import opened KaggleFormat
  import Submission

  /** What this `format_results` accepts of one result: a grid or a list of one to three attempts, each a grid of colours. */
  predicate Fillable(a: Attempts) {
    !a.Sequence? && 0 < |AttemptsOf(a)| <= 3 && forall k :: 0 <= k < |AttemptsOf(a)| ==> Digits(AttemptsOf(a)[k])
  }

  /**
   * The error a result that is not fillable raises: the length assertion
   * first, then the missing first attempt, then the tuple that `+=` cannot
   * extend, and last the colour assertion of `format_grid`.
   */
  function ErrorOf(a: Attempts): string {
    if |AttemptsOf(a)| > 3 then "AssertionError"
    else if |AttemptsOf(a)| == 0 then "IndexError"
    else if a.Sequence? then "TypeError"
    else "AssertionError"
  }

  /** `result += [Grid.empty(result[0].shape)] * (3 - len(result))`. */
  function Padded(gs: seq<Grid>): (r: seq<Grid>)
    requires 0 < |gs| <= 3
    ensures |r| == 3 && r[..|gs|] == gs
    ensures forall k :: |gs| <= k < 3 ==> r[k] == Filled(Shape(gs[0]).0, Shape(gs[0]).1, 0)
  {
    var (h, w) := Shape(gs[0]);
    gs + seq(3 - |gs|, _ => Filled(h, w, 0))
  }

  /** The padding is a grid of colours, so padding never makes a result fail. */
  lemma PaddedDigits(gs: seq<Grid>)
    requires 0 < |gs| <= 3 && forall k :: 0 <= k < |gs| ==> Digits(gs[k])
    ensures forall k :: 0 <= k < 3 ==> Digits(Padded(gs)[k])
  {
    forall k | 0 <= k < 3 ensures Digits(Padded(gs)[k]) {
      if k < |gs| {
        assert Padded(gs)[k] == Padded(gs)[..|gs|][k];
      }
    }
  }

  /**
   * `format_results(task_id, results)`: the rows of every result, padded
   * to three attempts, in order; or the error of the first result that is
   * not fillable.
   */
  method FormatResults(taskId: string, results: seq<Attempts>) returns (r: Result<seq<string>>)
    ensures r.Success? <==> forall i :: 0 <= i < |results| ==> Fillable(results[i])
    ensures r.Success? ==> |r.value| == |results|
    ensures r.Success? ==> forall i :: 0 <= i < |results| ==> Row(taskId, i, Padded(AttemptsOf(results[i]))) == Success(r.value[i])
    ensures r.Failure? ==> exists k :: 0 <= k < |results| && !Fillable(results[k]) && r.error == ErrorOf(results[k])
                                     && (forall i :: 0 <= i < k ==> Fillable(results[i]))
  {
    var rows: seq<string> := [];
    for index := 0 to |results|
      invariant |rows| == index
      invariant forall i :: 0 <= i < index ==> Fillable(results[i])
      invariant forall i :: 0 <= i < index ==> Row(taskId, i, Padded(AttemptsOf(results[i]))) == Success(rows[i])
    {
      var row := FormatResult(taskId, index, results[index]);
      if row.Failure? {
        return Failure(row.error);
      }
      rows := rows + [row.value];
    }
    return Success(rows);
  }

  /** The row of result `index`, padded to three attempts, or the error the result raises. */
  method FormatResult(taskId: string, index: nat, result: Attempts) returns (r: Result<string>)
    ensures r.Success? <==> Fillable(result)
    ensures r.Success? ==> Row(taskId, index, Padded(AttemptsOf(result))) == Success(r.value)
    ensures r.Failure? ==> r.error == ErrorOf(result)
  {
    var attempts := AttemptsOf(result);
    if |attempts| > 3 {
      return Failure("AssertionError");
    }
    if |attempts| == 0 {
      return Failure("IndexError");
    }
    if result.Sequence? {
      return Failure("TypeError");
    }
    var padded := Padded(attempts);
    var texts := Submission.FormatAttempts(padded);
    if texts.Failure? {
      if forall k :: 0 <= k < |attempts| ==> Digits(attempts[k]) {
        PaddedDigits(attempts);
        assert false;
      }
      return Failure(texts.error);
    }
    assert forall k :: 0 <= k < |attempts| ==> Digits(attempts[k]) by {
      forall k | 0 <= k < |attempts| ensures Digits(attempts[k]) {
        assert attempts[k] == padded[..|attempts|][k];
      }
    }
    return Success(taskId + "_" + NatToString(index) + "," + Join(texts.value, " "));
  }

  /** The test's example: a single 2x3 grid is followed by two 2x3 zero grids. */
  lemma PaddedExample()
    ensures Padded([[[1, 0, 1], [0, 1, 1]]]) == [[[1, 0, 1], [0, 1, 1]], [[0, 0, 0], [0, 0, 0]], [[0, 0, 0], [0, 0, 0]]]
  {
    var zeros: Grid := [[0, 0, 0], [0, 0, 0]];
    var f := Filled(2, 3, 0);
    assert f[0] == [0, 0, 0] && f[1] == [0, 0, 0];
    assert f == zeros;
  }

  /** Each row reads back as its task id, its index, the result's attempts and the zero grids after them. */
  lemma ResultsRoundTrip(taskId: string, results: seq<Attempts>, rows: seq<string>, i: nat)
    requires TaskId(taskId) && i < |results| && |rows| == |results|
    requires Fillable(results[i]) && Row(taskId, i, Padded(AttemptsOf(results[i]))) == Success(rows[i])
    requires forall k :: 0 <= k < |AttemptsOf(results[i])| ==> NoEmptyRow(AttemptsOf(results[i])[k])
    ensures ReadRow(rows[i]) == Some((taskId, i, Padded(AttemptsOf(results[i]))))
  {
    var gs := AttemptsOf(results[i]);
    var p := Padded(gs);
    PaddedDigits(gs);
    forall k | 0 <= k < 3 ensures NoEmptyRow(p[k]) {
      if k < |gs| {
        assert p[k] == p[..|gs|][k];
      }
    }
    RowRoundTrip(taskId, i, p);
  }
}
