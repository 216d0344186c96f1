/**
 * `process_batch`: read one batch object, run every row through the
 * critique/revision flow in order, and write the four-column result table
 * under `outputs/<subdir>/`.
 */
module Processor {
  import opened Wrappers
  import opened Failures
  import opened Text
  import opened Tables
  import opened Storage
  import opened Generation

  /** The results of a run of rows and every call made for them, in order. */
  datatype BatchTrace = BatchTrace(results: seq<RowResult>, calls: seq<Call>)

  /** The attack vector of a row; a row without columns fails as `row.iloc[0]` does. */
  function ReadAttackVector(row: Row): (r: Result<string, Failure>)
    ensures r.Err? <==> row == []
    ensures r.Err? ==> r.error == IndexError
    ensures r.Ok? ==> Some(r.value) == AttackVector(row)
  {
    match AttackVector(row)
    case None => Err(IndexError)
    case Some(av) => Ok(av)
  }

  /**
   * The rows of a batch processed in order, the calls of each row numbered
   * after those of the rows before it; the first failure ends the batch.
   */
  function RunRows(ep: Endpoint, rows: Table): Result<BatchTrace, Failure>
    decreases |rows|
  {
    if rows == [] then Ok(BatchTrace([], []))
    else
      var before :- RunRows(ep, rows[..|rows| - 1]);
      var av :- ReadAttackVector(rows[|rows| - 1]);
      var run :- RunRow(ep, |before.calls|, av);
      Ok(BatchTrace(before.results + [run.result], before.calls + run.calls))
  }

  /** The number of calls a run of results took: one per blocked row, four per other row. */
  function CallCount(results: seq<RowResult>): nat
  {
    if results == [] then 0
    else CallCount(results[..|results| - 1]) + (if results[|results| - 1].initialResponse == Blocked then 1 else 4)
  }

  /**
   * A processed batch has one result per row, in row order, each carrying
   * that row's attack vector, and took one call per blocked row and four per
   * other row.
   */
  lemma {:induction false} OneResultPerRow(ep: Endpoint, rows: Table, trace: BatchTrace)
    requires RunRows(ep, rows) == Ok(trace)
    ensures |trace.results| == |rows|
    ensures forall j :: 0 <= j < |rows| ==> AttackVector(rows[j]) == Some(trace.results[j].attackVector)
    ensures |trace.calls| == CallCount(trace.results)
    decreases |rows|
  {
    if rows != [] {
      var before := RunRows(ep, rows[..|rows| - 1]).value;
      OneResultPerRow(ep, rows[..|rows| - 1], before);
      var av := ReadAttackVector(rows[|rows| - 1]).value;
      var run := RunRow(ep, |before.calls|, av).value;
      RowCallCount(ep, |before.calls|, av, run);
      assert trace == BatchTrace(before.results + [run.result], before.calls + run.calls);
      assert trace.results[..|trace.results| - 1] == before.results;
      forall j | 0 <= j < |rows| - 1
        ensures AttackVector(rows[j]) == Some(trace.results[j].attackVector)
      {
        assert rows[j] == rows[..|rows| - 1][j];
      }
    }
  }

  /** A batch fails exactly when a row has no columns or some call exhausts its retries. */
  lemma {:induction false} BatchFailures(ep: Endpoint, rows: Table)
    requires RunRows(ep, rows).Err?
    ensures RunRows(ep, rows).error == IndexError ==> exists j :: 0 <= j < |rows| && rows[j] == []
    ensures RunRows(ep, rows).error in {IndexError, RetryError}
    decreases |rows|
  {
    var prefix := rows[..|rows| - 1];
    if RunRows(ep, prefix).Err? {
      BatchFailures(ep, prefix);
      if RunRows(ep, rows).error == IndexError {
        var j :| 0 <= j < |prefix| && prefix[j] == [];
        assert rows[j] == [];
      }
    } else if ReadAttackVector(rows[|rows| - 1]).Ok? {
      RowFailsOnlyOnRetries(ep, |RunRows(ep, prefix).value.calls|, ReadAttackVector(rows[|rows| - 1]).value);
    }
  }

  /** Once a prefix of the rows fails, the whole batch fails the same way. */
  lemma {:induction false} FailurePersists(ep: Endpoint, rows: Table, i: nat)
    requires i <= |rows|
    ensures RunRows(ep, rows[..i]).Err? ==> RunRows(ep, rows) == RunRows(ep, rows[..i])
    decreases |rows| - i
  {
    if i < |rows| {
      assert rows[..i + 1][..i] == rows[..i];
      FailurePersists(ep, rows, i + 1);
    } else {
      assert rows[..i] == rows;
    }
  }

  /** Processing one more row extends the results and the calls, or ends the batch with that row's failure. */
  lemma RunRowsStep(ep: Endpoint, rows: Table, i: nat, before: BatchTrace)
    requires i < |rows|
    requires RunRows(ep, rows[..i]) == Ok(before)
    ensures ReadAttackVector(rows[i]).Err? ==> RunRows(ep, rows[..i + 1]) == Err(IndexError)
    ensures ReadAttackVector(rows[i]).Ok? ==>
      var run := RunRow(ep, |before.calls|, ReadAttackVector(rows[i]).value);
      RunRows(ep, rows[..i + 1]) ==
        if run.Err? then Err(run.error)
        else Ok(BatchTrace(before.results + [run.value.result], before.calls + run.value.calls))
  {
    assert rows[..i + 1][..i] == rows[..i];
  }

  /** The object path of a batch's results. */
  function OutputPath(subdir: string, start: int, end: int): string
  {
    "outputs/" + subdir + "/batch_" + FormatInt(start) + "_" + FormatInt(end) + "_out.csv"
  }

  /** Batches with different bounds write to different objects. */
  lemma OutputPathInjective(subdir: string, s1: nat, e1: nat, s2: nat, e2: nat)
    requires OutputPath(subdir, s1, e1) == OutputPath(subdir, s2, e2)
    ensures s1 == s2 && e1 == e2
  {
    NumberedNameInjective("outputs/" + subdir + "/batch_", "_out.csv", s1, e1, s2, e2);
  }

  /** What `process_batch` returns and writes, and the calls it made. */
  datatype BatchRun = BatchRun(outputUri: string, upload: Upload, calls: seq<Call>)

  /**
   * One pass of the row loop of `process_batch`: the initial generation,
   * then, unless it was blocked, critique, revision and sanity, the calls
   * numbered from `k`.
   */
  method ProcessRow(ep: Endpoint, k: nat, attackVector: string) returns (r: Result<RowRun, Failure>)
    ensures r == RunRow(ep, k, attackVector)
  {
    var initialCall := Call(UnsafeModel, Direct(attackVector));
    var initialText :- Generate(ep, k, initialCall);
    var critiqueText, finalText, calls;
    if initialText == Blocked {
      critiqueText := BlockedNote;
      finalText := BlockedNote;
      calls := [initialCall];
    } else {
      var critiqueCall := Call(ConstitutionalModel, CritiqueOf(attackVector, initialText));
      critiqueText :- Generate(ep, k + 1, critiqueCall);
      var revisionCall := Call(ConstitutionalModel, RevisionOf(attackVector, initialText, critiqueText));
      var revisedText :- Generate(ep, k + 2, revisionCall);
      var sanityCall := Call(ConstitutionalModel, SanityOf(revisedText));
      finalText :- Generate(ep, k + 3, sanityCall);
      calls := [initialCall, critiqueCall, revisionCall, sanityCall];
    }
    r := Ok(RowRun(RowResult(attackVector, initialText, critiqueText, finalText), calls));
  }

  /** The row loop of `process_batch`: every row in order, stopping at the first failure. */
  method ProcessRows(ep: Endpoint, rows: Table) returns (r: Result<BatchTrace, Failure>)
    ensures r == RunRows(ep, rows)
  {
    var results: seq<RowResult> := [];
    var calls: seq<Call> := [];
    var i := 0;
    while i < |rows|
      invariant i <= |rows|
      invariant RunRows(ep, rows[..i]) == Ok(BatchTrace(results, calls))
    {
      RunRowsStep(ep, rows, i, BatchTrace(results, calls));
      FailurePersists(ep, rows, i + 1);
      var attackVector :- ReadAttackVector(rows[i]);
      var run :- ProcessRow(ep, |calls|, attackVector);
      results := results + [run.result];
      calls := calls + run.calls;
      i := i + 1;
    }
    assert rows[..i] == rows;
    r := Ok(BatchTrace(results, calls));
  }

  /**
   * `process_batch`: parse the bounds, name the output object, read the
   * batch, process its rows in order and write their results.
   */
  method ProcessBatch(batchFileGs: string, start: string, end: string, bucket: string,
                      outputSubdir: string, store: Store, ep: Endpoint)
    returns (r: Result<BatchRun, Failure>)
    ensures ParseInt(start).None? || ParseInt(end).None? ==> r == Err(ValueError)
    ensures ParseInt(start).Some? && ParseInt(end).Some? ==>
      var outputUri := JoinUri(bucket, OutputPath(outputSubdir, ParseInt(start).value, ParseInt(end).value));
      var source := SplitUri(batchFileGs);
      if source !in store then r == Err(NotFound(source.bucket, source.path))
      else match RunRows(ep, store[source])
        case Err(e) => r == Err(e)
        case Ok(trace) => r == Ok(BatchRun(outputUri, Upload(SplitUri(outputUri), Records(trace.results)), trace.calls))
  {
    var startInt :- ParseInt(start).ToResult(ValueError);
    var endInt :- ParseInt(end).ToResult(ValueError);
    var outputUri := JoinUri(bucket, OutputPath(outputSubdir, startInt, endInt));

    var source := SplitUri(batchFileGs);
    if source !in store {
      return Err(NotFound(source.bucket, source.path));
    }
    var trace :- ProcessRows(ep, store[source]);
    r := Ok(BatchRun(outputUri, Upload(SplitUri(outputUri), Records(trace.results)), trace.calls));
  }
}
