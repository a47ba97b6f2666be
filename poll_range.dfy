/** `handle_poll_range`: clamp the requested timeout, wait on the RPC layer
    for a change in the range, and answer with the changed items or with
    "not modified". */
module PollRange {
  import opened Wrappers
  import opened K2vModel
  import opened ResponseItem

  datatype PollRangeQuery = PollRangeQuery(
    prefix: Option<string>,
    start: Option<string>,
    end: Option<string>,
    timeout: Option<U64>,
    seenMarker: Option<string>)

  /** The range descriptor handed to `rpc.poll_range`. */
  datatype PollRangeRequest = PollRangeRequest(
    partition: K2VItemPartition,
    start: Option<string>,
    end: Option<string>,
    prefix: Option<string>)

  datatype PollRangeResponse = PollRangeResponse(items: seq<ReadBatchResponseItem>, seenMarker: string)

  /** The HTTP answer: 200 with a body, or 304 NOT_MODIFIED with none. */
  datatype PollOutcome = Changed(response: PollRangeResponse) | NotModified

  /** `rpc.poll_range`: given the range, the marker and the timeout in
      milliseconds, either the changed items (keyed by sort key) and a new
      marker, or `None` when the timeout elapsed with no change. */
  type Poller = (PollRangeRequest, Option<string>, U64) -> Result<Option<(seq<(string, K2VItem)>, string)>, StorageError>

  const DefaultTimeoutSecs: U64 := 300
  const MinTimeoutSecs: U64 := 10
  const MaxTimeoutSecs: U64 := 600

  /** Rust's `Ord::clamp` (which panics unless `lo <= hi`). */
  function Clamp(x: U64, lo: U64, hi: U64): (r: U64)
    requires lo <= hi
    ensures lo <= r <= hi
    ensures lo <= x <= hi ==> r == x
    ensures x < lo ==> r == lo
    ensures x > hi ==> r == hi
  {
    if x < lo then lo else if x > hi then hi else x
  }

  /** `query.timeout.unwrap_or(300).clamp(10, 600) * 1000`. */
  function TimeoutMsec(timeout: Option<U64>): (ms: U64)
    ensures 10000 <= ms <= 600000 && ms % 1000 == 0
    ensures timeout.None? ==> ms == 300000
    ensures timeout.Some? && 10 <= timeout.value <= 600 ==> ms == timeout.value * 1000
    ensures timeout.Some? && timeout.value < 10 ==> ms == 10000
    ensures timeout.Some? && timeout.value > 600 ==> ms == 600000
  {
    var secs := match timeout case Some(t) => t case None => DefaultTimeoutSecs;
    Clamp(secs, MinTimeoutSecs, MaxTimeoutSecs) * 1000
  }

  /** A longer requested timeout never yields a shorter wait. */
  lemma TimeoutMonotone(t1: U64, t2: U64)
    requires t1 <= t2
    ensures TimeoutMsec(Some(t1)) <= TimeoutMsec(Some(t2))
  {
  }

  /** `items.into_iter().map(|(_k, i)| ReadBatchResponseItem::from(i)).collect()`. */
  function FromPolled(codec: Codec, polled: seq<(string, K2VItem)>): (r: seq<ReadBatchResponseItem>)
    ensures |r| == |polled|
    ensures forall k :: 0 <= k < |polled| ==> r[k] == FromItem(codec, polled[k].1)
  {
    seq(|polled|, k requires 0 <= k < |polled| => FromItem(codec, polled[k].1))
  }

  /** `handle_poll_range` for partition `partitionKey` of bucket `bucketId`. */
  function HandlePollRange(codec: Codec, poll: Poller, bucketId: Uuid, partitionKey: string, q: PollRangeQuery)
    : (r: Result<PollOutcome, Error>)
    ensures var resp := poll(PollRangeRequest(K2VItemPartition(bucketId, partitionKey), q.start, q.end, q.prefix),
                             q.seenMarker, TimeoutMsec(q.timeout));
      && (resp.Failure? ==> r == Failure(Storage(resp.error)))
      && (resp.Success? ==> r.Success?)
      && (resp.Success? ==> (r.value.NotModified? <==> resp.value.None?))
      && (resp.Success? && resp.value.Some? ==>
            && r.value.response.seenMarker == resp.value.value.1
            && r.value.response.items == FromPolled(codec, resp.value.value.0))
  {
    var range := PollRangeRequest(K2VItemPartition(bucketId, partitionKey), q.start, q.end, q.prefix);
    var resp :- Lift(poll(range, q.seenMarker, TimeoutMsec(q.timeout)));
    match resp
    case Some((items, seenMarker)) => Success(Changed(PollRangeResponse(FromPolled(codec, items), seenMarker)))
    case None => Success(NotModified)
  }
}
