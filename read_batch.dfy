/** `handle_read_batch` and `handle_read_batch_query`: each query is either a
    point lookup (single-item mode) or a range scan; the batch answers the
    queries in order and fails as a whole on the first failed query. */
module ReadBatch {
  import opened Wrappers
  import opened K2vModel
  import opened ResponseItem
  import opened Assembly

  datatype ReadBatchQuery = ReadBatchQuery(
    partitionKey: string,
    prefix: Option<string>,
    start: Option<string>,
    end: Option<string>,
    limit: Option<U64>,
    reverse: bool,
    singleItem: bool,
    conflictsOnly: bool,
    tombstones: bool)

  datatype ReadBatchResponse = ReadBatchResponse(
    partitionKey: string,
    prefix: Option<string>,
    start: Option<string>,
    end: Option<string>,
    limit: Option<U64>,
    reverse: bool,
    singleItem: bool,
    conflictsOnly: bool,
    tombstones: bool,
    items: seq<ReadBatchResponseItem>,
    more: bool,
    nextStart: Option<string>)

  const SingleItemConflict :=
    "Batch query parameters 'prefix', 'end', 'limit' and 'reverse' must not be set when singleItem is true."

  /** The response repeats every parameter of the query. */
  predicate Echoes(q: ReadBatchQuery, resp: ReadBatchResponse)
  {
    && resp.partitionKey == q.partitionKey && resp.prefix == q.prefix
    && resp.start == q.start && resp.end == q.end && resp.limit == q.limit
    && resp.reverse == q.reverse && resp.singleItem == q.singleItem
    && resp.conflictsOnly == q.conflictsOnly && resp.tombstones == q.tombstones
  }

  /** Parameters that single-item mode forbids. */
  predicate HasRangeParameters(q: ReadBatchQuery)
  {
    q.prefix.Some? || q.end.Some? || q.limit.Some? || q.reverse
  }

  /** Tombstones are shown only on request; conflicts-only is passed through. */
  function ReadFilter(q: ReadBatchQuery): (f: ItemFilter)
    ensures f.excludeOnlyTombstones <==> !q.tombstones
    ensures f.conflictsOnly <==> q.conflictsOnly
  {
    ItemFilter(!q.tombstones, q.conflictsOnly)
  }

  /** The sort key a single-item query looks up, or why it is rejected. */
  function SingleItemKey(q: ReadBatchQuery): (r: Result<string, Error>)
    ensures r.Success? <==> !HasRangeParameters(q) && q.start.Some?
    ensures r.Success? ==> r.value == q.start.value
    ensures HasRangeParameters(q) ==> r == Failure(BadRequest(SingleItemConflict))
    ensures !HasRangeParameters(q) && q.start.None? ==> r == Failure(BadRequest(StartRequired))
  {
    if HasRangeParameters(q) then Failure(BadRequest(SingleItemConflict))
    else match q.start
      case None => Failure(BadRequest(StartRequired))
      case Some(sk) => Success(sk)
  }

  /** The `read_range` call of a range query: every range parameter of the query, the read filter and the direction. */
  function RangeRequestOf(bucketId: Uuid, q: ReadBatchQuery): (req: RangeRequest)
    ensures req.partition == K2VItemPartition(bucketId, q.partitionKey)
    ensures req.prefix == q.prefix && req.start == q.start && req.end == q.end && req.limit == q.limit
    ensures req.filter == Some(ItemFilter(!q.tombstones, q.conflictsOnly))
    ensures req.order == Reverse <==> q.reverse
  {
    RangeRequest(K2VItemPartition(bucketId, q.partitionKey), q.prefix, q.start, q.end, q.limit,
                 Some(ReadFilter(q)), FromReverse(q.reverse))
  }

  /** `handle_read_batch_query`. */
  function HandleReadBatchQuery(codec: Codec, table: ItemTable, bucketId: Uuid, q: ReadBatchQuery)
    : (r: Result<ReadBatchResponse, Error>)
    ensures r.Success? ==> Echoes(q, r.value)
    ensures q.singleItem && HasRangeParameters(q) ==> r == Failure(BadRequest(SingleItemConflict))
    ensures q.singleItem && !HasRangeParameters(q) && q.start.None? ==> r == Failure(BadRequest(StartRequired))
    ensures r.Success? && q.singleItem ==> |r.value.items| <= 1 && !r.value.more && r.value.nextStart.None?
    ensures r.Failure? && !r.error.BadRequest? ==> r.error.Storage?
  {
    var filter := ReadFilter(q);
    var partition := K2VItemPartition(bucketId, q.partitionKey);
    var triple :-
      if q.singleItem then
        var sk :- SingleItemKey(q);
        var item :- Lift(table.get(partition, sk));
        if item.Some? && table.matchesFilter(item.value, filter) then
          Success(([FromItem(codec, item.value)], false, None))
        else
          Success(([], false, None))
      else
        var res :- Lift(table.readRange(RangeRequestOf(bucketId, q)));
        Success((FromItems(codec, res.items), res.more, res.nextStart));
    Success(ReadBatchResponse(
      q.partitionKey, q.prefix, q.start, q.end, q.limit, q.reverse, q.singleItem, q.conflictsOnly, q.tombstones,
      triple.0, triple.1, triple.2))
  }

  /** A rejected single-item query touches no collaborator: its answer is
      the same whatever the item table and the codec hold. */
  lemma RejectedQueryReadsNothing(c1: Codec, c2: Codec, t1: ItemTable, t2: ItemTable, bucketId: Uuid, q: ReadBatchQuery)
    requires q.singleItem && SingleItemKey(q).Failure?
    ensures HandleReadBatchQuery(c1, t1, bucketId, q) == HandleReadBatchQuery(c2, t2, bucketId, q)
    ensures HandleReadBatchQuery(c1, t1, bucketId, q).Failure?
    ensures HandleReadBatchQuery(c1, t1, bucketId, q).error.BadRequest?
  {
  }

  /** A valid single-item query looks up `start` in the query's partition and
      returns that item exactly when it exists and passes the filter
      `exclude_only_tombstones = !tombstones, conflicts_only = conflicts_only`. */
  lemma SingleItemRead(codec: Codec, table: ItemTable, bucketId: Uuid, q: ReadBatchQuery)
    requires q.singleItem && !HasRangeParameters(q) && q.start.Some?
    ensures var got := table.get(K2VItemPartition(bucketId, q.partitionKey), q.start.value);
      var r := HandleReadBatchQuery(codec, table, bucketId, q);
      && (got.Failure? ==> r == Failure(Storage(got.error)))
      && (got.Success? ==> r.Success? && !r.value.more && r.value.nextStart.None?)
      && (got.Success? ==>
            (|r.value.items| == 1 <==>
               got.value.Some? && table.matchesFilter(got.value.value, ItemFilter(!q.tombstones, q.conflictsOnly))))
      && (got.Success? && |r.value.items| == 1 ==> r.value.items[0] == FromItem(codec, got.value.value))
  {
  }

  /** A range query passes its parameters, the read filter and the direction
      to `read_range` unchanged, and returns what it returns, each item converted. */
  lemma RangeRead(codec: Codec, table: ItemTable, bucketId: Uuid, q: ReadBatchQuery)
    requires !q.singleItem
    ensures var req := RangeRequest(K2VItemPartition(bucketId, q.partitionKey), q.prefix, q.start, q.end, q.limit,
                                    Some(ItemFilter(!q.tombstones, q.conflictsOnly)),
                                    if q.reverse then Reverse else Forward);
      var res := table.readRange(req);
      var r := HandleReadBatchQuery(codec, table, bucketId, q);
      && (res.Failure? ==> r == Failure(Storage(res.error)))
      && (res.Success? ==> r.Success? && r.value.items == FromItems(codec, res.value.items)
                           && r.value.more == res.value.more && r.value.nextStart == res.value.nextStart)
  {
  }

  /** The fan-out of `handle_read_batch`: one result per query, in query order. */
  function ReadResults(codec: Codec, table: ItemTable, bucketId: Uuid, queries: seq<ReadBatchQuery>)
    : (rs: seq<Result<ReadBatchResponse, Error>>)
    ensures |rs| == |queries|
    ensures forall i :: 0 <= i < |queries| ==> rs[i] == HandleReadBatchQuery(codec, table, bucketId, queries[i])
  {
    seq(|queries|, i requires 0 <= i < |queries| => HandleReadBatchQuery(codec, table, bucketId, queries[i]))
  }

  /** `handle_read_batch`: `resps[i]` answers `queries[i]`; the first failed
      query makes the whole call fail with its error. */
  method HandleReadBatch(codec: Codec, table: ItemTable, bucketId: Uuid, queries: seq<ReadBatchQuery>)
    returns (r: Result<seq<ReadBatchResponse>, Error>)
    ensures r.Success? <==> forall i :: 0 <= i < |queries| ==> HandleReadBatchQuery(codec, table, bucketId, queries[i]).Success?
    ensures r.Success? ==> |r.value| == |queries| && forall i :: 0 <= i < |queries| ==>
      r.value[i] == HandleReadBatchQuery(codec, table, bucketId, queries[i]).value && Echoes(queries[i], r.value[i])
    ensures r.Failure? ==> exists k ::
      && FirstFailureAt(ReadResults(codec, table, bucketId, queries), k)
      && r.error == HandleReadBatchQuery(codec, table, bucketId, queries[k]).error
  {
    var results := ReadResults(codec, table, bucketId, queries);
    r := CollectAll(results);
  }
}
