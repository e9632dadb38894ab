/**
 * `format_results` of `kaggle/submission.py`: one row per test result, in
 * order, each with the result's attempts as they are (a single grid is one
 * attempt); more than three attempts, or a cell that is not a colour,
 * raises `AssertionError`.
 */
module Submission {
  import opened Wrappers
  import opened Text
  import opened Arguments
  import opened KaggleFormat

  /** What `format_results` accepts of one result: at most three attempts, each a grid of colours. */
  predicate Acceptable(a: Attempts) {
    |AttemptsOf(a)| <= 3 && forall k :: 0 <= k < |AttemptsOf(a)| ==> Digits(AttemptsOf(a)[k])
  }

  /** The loop of `" ".join(format_grid(grid) for grid in result)`, stopping at the first grid that raises. */
  method FormatAttempts(gs: seq<Grid>) returns (r: Result<seq<string>>)
    ensures r.Success? <==> forall k :: 0 <= k < |gs| ==> Digits(gs[k])
    ensures r.Success? ==> r.value == GridTexts(gs)
    ensures r.Failure? ==> r.error == "AssertionError"
  {
    var texts: seq<string> := [];
    for k := 0 to |gs|
      invariant |texts| == k && forall m :: 0 <= m < k ==> Digits(gs[m]) && Success(texts[m]) == FormatGrid(gs[m])
    {
      var t := FormatGrid(gs[k]);
      if t.Failure? {
        return Failure(t.error);
      }
      texts := texts + [t.value];
    }
    return Success(texts);
  }

  /**
   * `format_results(task_id, results)`: the rows of every result in order,
   * or the `AssertionError` of the first result that is not acceptable.
   */
  method FormatResults(taskId: string, results: seq<Attempts>) returns (r: Result<seq<string>>)
    ensures r.Success? <==> forall i :: 0 <= i < |results| ==> Acceptable(results[i])
    ensures r.Failure? ==> r.error == "AssertionError"
    ensures r.Success? ==> |r.value| == |results|
    ensures r.Success? ==> forall i :: 0 <= i < |results| ==> Row(taskId, i, AttemptsOf(results[i])) == Success(r.value[i])
  {
    var rows: seq<string> := [];
    for index := 0 to |results|
      invariant |rows| == index
      invariant forall i :: 0 <= i < index ==> Acceptable(results[i])
      invariant forall i :: 0 <= i < index ==> Row(taskId, i, AttemptsOf(results[i])) == Success(rows[i])
    {
      var row := FormatResult(taskId, index, results[index]);
      if row.Failure? {
        return Failure(row.error);
      }
      rows := rows + [row.value];
    }
    return Success(rows);
  }

  /** The row of result `index` with its attempts as they are, or the `AssertionError` it raises. */
  method FormatResult(taskId: string, index: nat, result: Attempts) returns (r: Result<string>)
    ensures r.Success? <==> Acceptable(result)
    ensures r.Success? ==> Row(taskId, index, AttemptsOf(result)) == Success(r.value)
    ensures r.Failure? ==> r.error == "AssertionError"
  {
    var attempts := AttemptsOf(result);
    if |attempts| > 3 {
      return Failure("AssertionError");
    }
    var texts := FormatAttempts(attempts);
    if texts.Failure? {
      return Failure(texts.error);
    }
    var row := taskId + "_" + NatToString(index) + "," + Join(texts.value, " ");
    assert Row(taskId, index, attempts) == Success(row);
    return Success(row);
  }

  /** Each row of an accepted result reads back as its task id, its index and its attempts. */
  lemma ResultsRoundTrip(taskId: string, results: seq<Attempts>, rows: seq<string>, i: nat)
    requires TaskId(taskId) && i < |results| && |rows| == |results|
    requires Acceptable(results[i]) && Row(taskId, i, AttemptsOf(results[i])) == Success(rows[i])
    requires forall k :: 0 <= k < |AttemptsOf(results[i])| ==> NoEmptyRow(AttemptsOf(results[i])[k])
    ensures ReadRow(rows[i]) == Some((taskId, i, AttemptsOf(results[i])))
  {
    RowRoundTrip(taskId, i, AttemptsOf(results[i]));
  }
}
