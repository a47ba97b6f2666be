/** Collecting the per-query results of a batch into one response:
    `for resp in resp_results { resps.push(resp?); }`. */
module Assembly {
  import opened Wrappers
  import opened K2vModel

  predicate AllSucceeded<T>(results: seq<Result<T, Error>>)
  {
    forall j :: 0 <= j < |results| ==> results[j].Success?
  }

  /** `k` is the position of the first failed result. */
  predicate FirstFailureAt<T>(results: seq<Result<T, Error>>, k: int)
  {
    && 0 <= k < |results|
    && results[k].Failure?
    && forall j :: 0 <= j < k ==> results[j].Success?
  }

  /** A failed result at position `j` means that the first failure sits at
      some position `k <= j`: the error a batch reports comes from a query
      no later than any failed one. */
  lemma {:induction false} FirstFailureAtOrBefore<T>(results: seq<Result<T, Error>>, j: int)
    requires 0 <= j < |results| && results[j].Failure?
    ensures !AllSucceeded(results)
    ensures exists k :: 0 <= k <= j && FirstFailureAt(results, k)
  {
    if forall i :: 0 <= i < j ==> results[i].Success? {
      assert FirstFailureAt(results, j);
    } else {
      var i :| 0 <= i < j && results[i].Failure?;
      FirstFailureAtOrBefore(results, i);
    }
  }

  /** Keeps the successful responses in query order and aborts on the first
      error, which becomes the error of the whole batch. */
  method CollectAll<T>(results: seq<Result<T, Error>>) returns (r: Result<seq<T>, Error>)
    ensures r.Success? <==> AllSucceeded(results)
    ensures r.Success? ==> |r.value| == |results| && forall i :: 0 <= i < |results| ==> r.value[i] == results[i].value
    ensures r.Failure? ==> exists k :: FirstFailureAt(results, k) && r.error == results[k].error
  {
    var resps: seq<T> := [];
    var i := 0;
    while i < |results|
      invariant 0 <= i <= |results|
      invariant |resps| == i
      invariant forall j :: 0 <= j < i ==> results[j].Success? && resps[j] == results[j].value
    {
      if results[i].Failure? {
        assert FirstFailureAt(results, i);
        return Failure(results[i].error);
      }
      resps := resps + [results[i].value];
      i := i + 1;
    }
    return Success(resps);
  }
}
