/**
 * `merge_results`: read every batch result object, in the order given, and
 * write their rows, one table after the other, as the final output.
 */
module Merger {
  import opened Wrappers
  import opened Failures
  import opened Tables
  import opened Storage

  /** The tables behind `paths`, in order; the first one missing fails the merge. */
  function Fetch(paths: seq<string>, store: Store): Result<seq<Table>, Failure>
  {
    if paths == [] then Ok([])
    else
      var before :- Fetch(paths[..|paths| - 1], store);
      var at := SplitUri(paths[|paths| - 1]);
      if at in store then Ok(before + [store[at]]) else Err(NotFound(at.bucket, at.path))
  }

  /**
   * Fetching succeeds exactly when every object exists, and then returns
   * each object's rows at its own position.
   */
  lemma {:induction false} FetchAll(paths: seq<string>, store: Store)
    ensures Fetch(paths, store).Ok? <==> forall j :: 0 <= j < |paths| ==> SplitUri(paths[j]) in store
    ensures Fetch(paths, store).Ok? ==>
      var ts := Fetch(paths, store).value;
      |ts| == |paths| && forall j :: 0 <= j < |paths| ==> ts[j] == store[SplitUri(paths[j])]
  {
    if paths != [] {
      var prefix := paths[..|paths| - 1];
      FetchAll(prefix, store);
      forall j | 0 <= j < |prefix| ensures paths[j] == prefix[j] { }
    }
  }

  /** A failed fetch names the first object that does not exist. */
  lemma {:induction false} FetchFirstMissing(paths: seq<string>, store: Store, j: nat)
    requires j < |paths| && SplitUri(paths[j]) !in store
    requires forall i :: 0 <= i < j ==> SplitUri(paths[i]) in store
    ensures Fetch(paths, store) == Err(NotFound(SplitUri(paths[j]).bucket, SplitUri(paths[j]).path))
  {
    var prefix := paths[..|paths| - 1];
    if j < |paths| - 1 {
      assert prefix[j] == paths[j];
      FetchFirstMissing(prefix, store, j);
    } else {
      FetchAll(prefix, store);
    }
  }

  /**
   * `merge_results`: download every batch output in order, concatenate them
   * and upload the result to `finalOutputGs`; an empty list has nothing to
   * concatenate.
   */
  method MergeResults(batchOutputPaths: seq<string>, finalOutputGs: string, store: Store)
    returns (r: Result<Upload, Failure>)
    ensures Fetch(batchOutputPaths, store).Err? ==> r == Err(Fetch(batchOutputPaths, store).error)
    ensures Fetch(batchOutputPaths, store).Ok? && batchOutputPaths == [] ==> r == Err(NoObjectsToConcatenate)
    ensures Fetch(batchOutputPaths, store).Ok? && batchOutputPaths != [] ==>
      r == Ok(Upload(SplitUri(finalOutputGs), Concat(Fetch(batchOutputPaths, store).value)))
  {
    var tables: seq<Table> := [];
    var i := 0;
    while i < |batchOutputPaths|
      invariant i <= |batchOutputPaths|
      invariant Fetch(batchOutputPaths[..i], store) == Ok(tables)
      invariant |tables| == i
    {
      assert batchOutputPaths[..i + 1][..i] == batchOutputPaths[..i];
      var at := SplitUri(batchOutputPaths[i]);
      if at !in store {
        MissingPersists(batchOutputPaths, store, i + 1);
        return Err(NotFound(at.bucket, at.path));
      }
      tables := tables + [store[at]];
      i := i + 1;
    }
    assert batchOutputPaths[..i] == batchOutputPaths;
    if tables == [] {
      return Err(NoObjectsToConcatenate);
    }
    r := Ok(Upload(SplitUri(finalOutputGs), Concat(tables)));
  }

  /** Once a prefix of the paths fails to fetch, so do all of them, the same way. */
  lemma {:induction false} MissingPersists(paths: seq<string>, store: Store, i: nat)
    requires i <= |paths|
    ensures Fetch(paths[..i], store).Err? ==> Fetch(paths, store) == Fetch(paths[..i], store)
    decreases |paths| - i
  {
    if i < |paths| {
      assert paths[..i + 1][..i] == paths[..i];
      MissingPersists(paths, store, i + 1);
    } else {
      assert paths[..i] == paths;
    }
  }

  /**
   * The merged output holds every batch's rows, in the order the paths are
   * listed: batch `j` right after the rows of the batches before it.
   */
  lemma MergedKeepsBatchOrder(paths: seq<string>, store: Store, ts: seq<Table>, j: nat)
    requires Fetch(paths, store) == Ok(ts) && j < |paths|
    ensures |ts| == |paths| && SplitUri(paths[j]) in store
    ensures TotalRows(ts[..j]) + |store[SplitUri(paths[j])]| <= |Concat(ts)|
    ensures Concat(ts)[TotalRows(ts[..j])..TotalRows(ts[..j]) + |store[SplitUri(paths[j])]|] == store[SplitUri(paths[j])]
  {
    FetchAll(paths, store);
    ConcatPlacesTable(ts, j);
  }
}
