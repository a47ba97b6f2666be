/** `handle_delete_batch` and `handle_delete_batch_query`: each query finds
    the items it covers (one item, or a whole range scanned without a limit)
    and writes a tombstone over each, declaring that item's own causal context. */
module DeleteBatch {
  import opened Wrappers
  import opened K2vModel
  import opened Assembly

  datatype DeleteBatchQuery = DeleteBatchQuery(
    partitionKey: string,
    prefix: Option<string>,
    start: Option<string>,
    end: Option<string>,
    singleItem: bool)

  datatype DeleteBatchResponse = DeleteBatchResponse(
    partitionKey: string,
    prefix: Option<string>,
    start: Option<string>,
    end: Option<string>,
    singleItem: bool,
    deletedItems: nat)

  const SingleItemConflict := "Batch query parameters 'prefix' and 'end' must not be set when singleItem is true."
  const TruncatedScan := "assertion failed: !more"

  /** The filter of every delete lookup: `exclude_only_tombstones = true`,
      `conflicts_only = false`. */
  function DeleteFilter(): (f: ItemFilter)
    ensures f.excludeOnlyTombstones && !f.conflictsOnly
  {
    ItemFilter(true, false)
  }

  /** The sort key a single-item delete looks up, or why it is rejected. */
  function SingleItemKey(q: DeleteBatchQuery): (r: Result<string, Error>)
    ensures r.Success? <==> q.prefix.None? && q.end.None? && q.start.Some?
    ensures r.Success? ==> r.value == q.start.value
    ensures q.prefix.Some? || q.end.Some? ==> r == Failure(BadRequest(SingleItemConflict))
    ensures q.prefix.None? && q.end.None? && q.start.None? ==> r == Failure(BadRequest(StartRequired))
  {
    if q.prefix.Some? || q.end.Some? then Failure(BadRequest(SingleItemConflict))
    else match q.start
      case None => Failure(BadRequest(StartRequired))
      case Some(sk) => Success(sk)
  }

  /** The `read_range` call of a range delete: no limit, forward order, the delete filter. */
  function RangeRequestOf(bucketId: Uuid, q: DeleteBatchQuery): (req: RangeRequest)
    ensures req.partition == K2VItemPartition(bucketId, q.partitionKey)
    ensures req.prefix == q.prefix && req.start == q.start && req.end == q.end
    ensures req.limit.None? && req.order == Forward
    ensures req.filter == Some(ItemFilter(true, false))
  {
    RangeRequest(K2VItemPartition(bucketId, q.partitionKey), q.prefix, q.start, q.end, None,
                 Some(DeleteFilter()), Forward)
  }

  /** The write that deletes an item: a tombstone at the item's own keys,
      declaring the causal context the item was read with. */
  function Tombstone(i: K2VItem): (w: WriteEntry)
    ensures w.partitionKey == i.partition.partitionKey && w.sortKey == i.sortKey
    ensures w.ct == Some(i.context) && w.value == Deleted
  {
    WriteEntry(i.partition.partitionKey, i.sortKey, Some(i.context), Deleted)
  }

  /** The translation at lines 224-235: one tombstone per scanned item, in scan order. */
  function Tombstones(items: seq<K2VItem>): (ws: seq<WriteEntry>)
    ensures |ws| == |items|
    ensures forall k :: 0 <= k < |items| ==>
      && ws[k].partitionKey == items[k].partition.partitionKey && ws[k].sortKey == items[k].sortKey
      && ws[k].ct == Some(items[k].context) && ws[k].value == Deleted
  {
    seq(|items|, k requires 0 <= k < |items| => Tombstone(items[k]))
  }

  /** What a delete query found to delete, once its lookups are done. */
  datatype DeletePlan =
    | SingleDelete(target: Option<K2VItem>)
    | RangeDelete(items: seq<K2VItem>)

  /** The lookups of `handle_delete_batch_query` and the checks around them:
      the single-item parameter checks, the point lookup under the delete
      filter, or the unlimited scan that must not come back truncated. */
  function PlanDelete(table: ItemTable, bucketId: Uuid, q: DeleteBatchQuery): (r: Result<DeletePlan, Error>)
    ensures q.singleItem && (q.prefix.Some? || q.end.Some?) ==> r == Failure(BadRequest(SingleItemConflict))
    ensures q.singleItem && q.prefix.None? && q.end.None? && q.start.None? ==> r == Failure(BadRequest(StartRequired))
    ensures r.Success? ==> (r.value.SingleDelete? <==> q.singleItem)
    ensures r.Failure? && r.error.Panic? ==> !q.singleItem
  {
    var partition := K2VItemPartition(bucketId, q.partitionKey);
    if q.singleItem then
      var sk :- SingleItemKey(q);
      var item :- Lift(table.get(partition, sk));
      if item.Some? && table.matchesFilter(item.value, DeleteFilter()) then
        Success(SingleDelete(item))
      else
        Success(SingleDelete(None))
    else
      var res :- Lift(table.readRange(RangeRequestOf(bucketId, q)));
      if res.more then Failure(Panic(TruncatedScan)) else Success(RangeDelete(res.items))
  }

  /** The writes a plan issues: `insert` for a found item, nothing for a
      missing one, and one `insert_batch` (possibly empty) for a range. */
  function PlanCalls(bucketId: Uuid, p: DeletePlan): seq<RpcCall>
  {
    match p
    case SingleDelete(None) => []
    case SingleDelete(Some(i)) => [InsertCall(bucketId, Tombstone(i))]
    case RangeDelete(items) => [InsertBatchCall(bucketId, Tombstones(items))]
  }

  /** `deleted_items`: the number of items the plan writes a tombstone over. */
  function DeletedCount(p: DeletePlan): nat
  {
    match p
    case SingleDelete(t) => if t.Some? then 1 else 0
    case RangeDelete(items) => |items|
  }

  /** The writes issued by one delete query. */
  function DeleteCalls(table: ItemTable, bucketId: Uuid, q: DeleteBatchQuery): seq<RpcCall>
  {
    var p := PlanDelete(table, bucketId, q);
    if p.Failure? then [] else PlanCalls(bucketId, p.value)
  }

  /** The result of one delete query, given the RPC layer's answers. */
  function DeleteResult(table: ItemTable, respond: RpcCall -> Result<(), StorageError>, bucketId: Uuid, q: DeleteBatchQuery)
    : Result<DeleteBatchResponse, Error>
  {
    var p :- PlanDelete(table, bucketId, q);
    var calls := PlanCalls(bucketId, p);
    if calls != [] && respond(calls[0]).Failure? then Failure(Storage(respond(calls[0]).error))
    else Success(DeleteBatchResponse(q.partitionKey, q.prefix, q.start, q.end, q.singleItem, DeletedCount(p)))
  }

  /** A query fails with its lookup's error when planning fails; otherwise it
      succeeds exactly when every write it issues is accepted, and then echoes
      its parameters and reports the planned count; a rejected write's error
      is the query's error. */
  lemma DeleteResultOutcome(table: ItemTable, respond: RpcCall -> Result<(), StorageError>, bucketId: Uuid,
                            q: DeleteBatchQuery)
    ensures var p := PlanDelete(table, bucketId, q);
      var r := DeleteResult(table, respond, bucketId, q);
      && (p.Failure? ==> r == Failure(p.error))
      && (r.Success? <==> p.Success? && forall c :: c in DeleteCalls(table, bucketId, q) ==> respond(c).Success?)
      && (r.Success? ==>
            && r.value == DeleteBatchResponse(q.partitionKey, q.prefix, q.start, q.end, q.singleItem, r.value.deletedItems)
            && r.value.deletedItems == DeletedCount(p.value))
      && (r.Failure? && p.Success? ==> exists c :: c in DeleteCalls(table, bucketId, q) && r.error == Storage(respond(c).error))
  {
  }

  predicate Panics(table: ItemTable, bucketId: Uuid, q: DeleteBatchQuery)
  {
    var p := PlanDelete(table, bucketId, q);
    p.Failure? && p.error.Panic?
  }

  /** `handle_delete_batch_query`. */
  method HandleDeleteBatchQuery(table: ItemTable, rpc: Rpc, bucketId: Uuid, q: DeleteBatchQuery)
    returns (r: Result<DeleteBatchResponse, Error>)
    modifies rpc
    ensures rpc.issued == old(rpc.issued) + DeleteCalls(table, bucketId, q)
    ensures r == DeleteResult(table, rpc.respond, bucketId, q)
  {
    var plan := PlanDelete(table, bucketId, q);
    if plan.Failure? {
      return Failure(plan.error);
    }
    var deleted := DeletedCount(plan.value);
    if plan.value.SingleDelete? {
      var t := plan.value.target;
      if t.Some? {
        var sent := rpc.Insert(bucketId, Tombstone(t.value));
        if sent.Failure? {
          return Failure(Storage(sent.error));
        }
      }
    } else {
      var sent := rpc.InsertBatch(bucketId, Tombstones(plan.value.items));
      if sent.Failure? {
        return Failure(Storage(sent.error));
      }
    }
    r := Success(DeleteBatchResponse(q.partitionKey, q.prefix, q.start, q.end, q.singleItem, deleted));
  }

  /** The writes of a run of delete queries, in query order. */
  function BatchCalls(table: ItemTable, bucketId: Uuid, qs: seq<DeleteBatchQuery>): seq<RpcCall>
  {
    if qs == [] then [] else BatchCalls(table, bucketId, qs[..|qs| - 1]) + DeleteCalls(table, bucketId, qs[|qs| - 1])
  }

  /** `k` is the first query whose scan comes back truncated. */
  predicate FirstPanicAt(table: ItemTable, bucketId: Uuid, qs: seq<DeleteBatchQuery>, k: int)
  {
    0 <= k < |qs| && Panics(table, bucketId, qs[k]) && forall j :: 0 <= j < k ==> !Panics(table, bucketId, qs[j])
  }

  /** The results of a run of delete queries, one per query, in query order. */
  function DeleteResults(table: ItemTable, respond: RpcCall -> Result<(), StorageError>, bucketId: Uuid,
                         qs: seq<DeleteBatchQuery>): seq<Result<DeleteBatchResponse, Error>>
  {
    seq(|qs|, i requires 0 <= i < |qs| => DeleteResult(table, respond, bucketId, qs[i]))
  }

  /** The fan-out of `handle_delete_batch`, with the queries run one after
      the other: each query issues its writes; a failed `assert!` ends the
      run at once, so no later query runs. */
  method RunDeleteQueries(table: ItemTable, rpc: Rpc, bucketId: Uuid, queries: seq<DeleteBatchQuery>)
    returns (results: seq<Result<DeleteBatchResponse, Error>>, panicked: bool)
    modifies rpc
    ensures panicked ==> exists k ::
      && FirstPanicAt(table, bucketId, queries, k)
      && rpc.issued == old(rpc.issued) + BatchCalls(table, bucketId, queries[..k])
    ensures !panicked ==> forall k :: 0 <= k < |queries| ==> !Panics(table, bucketId, queries[k])
    ensures !panicked ==> rpc.issued == old(rpc.issued) + BatchCalls(table, bucketId, queries)
    ensures !panicked ==> results == DeleteResults(table, rpc.respond, bucketId, queries)
  {
    results := [];
    var i := 0;
    while i < |queries|
      invariant 0 <= i <= |queries|
      invariant rpc.issued == old(rpc.issued) + BatchCalls(table, bucketId, queries[..i])
      invariant forall j :: 0 <= j < i ==> !Panics(table, bucketId, queries[j])
      invariant |results| == i
      invariant forall j :: 0 <= j < i ==> results[j] == DeleteResult(table, rpc.respond, bucketId, queries[j])
    {
      assert queries[..i + 1][..i] == queries[..i];
      var res := HandleDeleteBatchQuery(table, rpc, bucketId, queries[i]);
      if Panics(table, bucketId, queries[i]) {
        assert FirstPanicAt(table, bucketId, queries, i);
        return results, true;
      }
      results := results + [res];
      i := i + 1;
    }
    assert queries[..i] == queries;
    return results, false;
  }

  /** `handle_delete_batch`. A panic ends the handler with no response;
      otherwise `resps[i]` answers `queries[i]` and the first failed query's
      error fails the call. */
  method HandleDeleteBatch(table: ItemTable, rpc: Rpc, bucketId: Uuid, queries: seq<DeleteBatchQuery>)
    returns (r: Result<seq<DeleteBatchResponse>, Error>)
    modifies rpc
    ensures forall k :: FirstPanicAt(table, bucketId, queries, k) ==>
      && rpc.issued == old(rpc.issued) + BatchCalls(table, bucketId, queries[..k])
      && r == Failure(Panic(TruncatedScan))
    ensures (forall k :: 0 <= k < |queries| ==> !Panics(table, bucketId, queries[k])) ==>
      && rpc.issued == old(rpc.issued) + BatchCalls(table, bucketId, queries)
      && (r.Success? <==> AllSucceeded(DeleteResults(table, rpc.respond, bucketId, queries)))
      && (r.Success? ==> |r.value| == |queries|)
      && (r.Success? ==> forall i :: 0 <= i < |queries| ==>
            Success(r.value[i]) == DeleteResult(table, rpc.respond, bucketId, queries[i]))
      && (r.Failure? ==> exists k ::
            && FirstFailureAt(DeleteResults(table, rpc.respond, bucketId, queries), k)
            && r.error == DeleteResult(table, rpc.respond, bucketId, queries[k]).error)
  {
    var results, panicked := RunDeleteQueries(table, rpc, bucketId, queries);
    if panicked {
      ghost var k :| FirstPanicAt(table, bucketId, queries, k) &&
        rpc.issued == old(rpc.issued) + BatchCalls(table, bucketId, queries[..k]);
      FirstPanicUnique(table, bucketId, queries, k);
      return Failure(Panic(TruncatedScan));
    }
    r := CollectAll(results);
  }

  lemma FirstPanicUnique(table: ItemTable, bucketId: Uuid, qs: seq<DeleteBatchQuery>, k: int)
    requires FirstPanicAt(table, bucketId, qs, k)
    ensures forall j :: FirstPanicAt(table, bucketId, qs, j) ==> j == k
  {
  }

  /** The writes a list of calls carries, in order. */
  function Entries(calls: seq<RpcCall>): seq<WriteEntry>
  {
    if calls == [] then []
    else (match calls[0] case InsertCall(_, e) => [e] case InsertBatchCall(_, es) => es) + Entries(calls[1..])
  }

  /** A successful delete query reports exactly the number of writes it
      issued, every one of them a tombstone, and echoes its parameters. */
  lemma DeletedItemsCountsTombstones(table: ItemTable, respond: RpcCall -> Result<(), StorageError>, bucketId: Uuid,
                                     q: DeleteBatchQuery)
    requires DeleteResult(table, respond, bucketId, q).Success?
    ensures var resp := DeleteResult(table, respond, bucketId, q).value;
      && resp.deletedItems == |Entries(DeleteCalls(table, bucketId, q))|
      && (forall e :: e in Entries(DeleteCalls(table, bucketId, q)) ==> e.value == Deleted && e.ct.Some?)
      && resp.partitionKey == q.partitionKey && resp.prefix == q.prefix && resp.start == q.start
      && resp.end == q.end && resp.singleItem == q.singleItem
  {
    var calls := DeleteCalls(table, bucketId, q);
    match PlanDelete(table, bucketId, q).value
    case SingleDelete(t) =>
      if t.Some? {
        assert calls[1..] == [];
        assert Entries(calls) == [Tombstone(t.value)];
      }
    case RangeDelete(items) =>
      assert calls[1..] == [];
      assert Entries(calls) == Tombstones(items);
  }

  /** A single-item delete writes at most one tombstone: one `insert`, over
      the item found at `start`, carrying that item's own causal context,
      exactly when the item exists and passes the filter `(true, false)`. */
  lemma SingleItemDelete(table: ItemTable, bucketId: Uuid, q: DeleteBatchQuery)
    requires q.singleItem && q.prefix.None? && q.end.None? && q.start.Some?
    ensures var got := table.get(K2VItemPartition(bucketId, q.partitionKey), q.start.value);
      var p := PlanDelete(table, bucketId, q);
      && (got.Failure? ==> p == Failure(Storage(got.error)))
      && (got.Success? ==> p.Success? && DeletedCount(p.value) <= 1)
      && (got.Success? ==> (DeletedCount(p.value) == 1 <==>
            got.value.Some? && table.matchesFilter(got.value.value, ItemFilter(true, false))))
      && (got.Success? && DeletedCount(p.value) == 0 ==> DeleteCalls(table, bucketId, q) == [])
      && (got.Success? && DeletedCount(p.value) == 1 ==>
            var i := got.value.value;
            DeleteCalls(table, bucketId, q) ==
              [InsertCall(bucketId, WriteEntry(i.partition.partitionKey, i.sortKey, Some(i.context), Deleted))])
  {
  }

  /** A range delete scans forward with no limit under the delete filter; a
      truncated scan panics, and a complete one issues one `insert_batch`
      whose k-th write is a tombstone over the k-th scanned item, so that
      `deleted_items` is the number of items scanned. */
  lemma RangeDeleteWrites(table: ItemTable, bucketId: Uuid, q: DeleteBatchQuery)
    requires !q.singleItem
    ensures var req := RangeRequest(K2VItemPartition(bucketId, q.partitionKey), q.prefix, q.start, q.end, None,
                                    Some(ItemFilter(true, false)), Forward);
      var res := table.readRange(req);
      var p := PlanDelete(table, bucketId, q);
      && (res.Failure? ==> p == Failure(Storage(res.error)))
      && (res.Success? && res.value.more ==> p == Failure(Panic(TruncatedScan)))
      && (res.Success? && !res.value.more ==>
            && p.Success? && DeletedCount(p.value) == |res.value.items|
            && |DeleteCalls(table, bucketId, q)| == 1
            && DeleteCalls(table, bucketId, q)[0].InsertBatchCall?
            && DeleteCalls(table, bucketId, q)[0].bucketId == bucketId
            && var ws := DeleteCalls(table, bucketId, q)[0].entries;
               && |ws| == |res.value.items|
               && forall k :: 0 <= k < |ws| ==>
                    ws[k] == WriteEntry(res.value.items[k].partition.partitionKey, res.value.items[k].sortKey,
                                        Some(res.value.items[k].context), Deleted))
  {
  }

  /** The promise of the range enumerator that the `assert!` relies on: a
      scan without a limit is never reported as truncated. */
  ghost predicate UnlimitedScansComplete(table: ItemTable)
  {
    forall req: RangeRequest :: req.limit.None? && table.readRange(req).Success? ==> !table.readRange(req).value.more
  }

  /** Under that promise no delete query panics. */
  lemma NoPanicWhenScansComplete(table: ItemTable, bucketId: Uuid, q: DeleteBatchQuery)
    requires UnlimitedScansComplete(table)
    ensures !Panics(table, bucketId, q)
  {
    if !q.singleItem {
      var req := RangeRequestOf(bucketId, q);
      assert req.limit.None?;
    }
  }
}
