/** The data the K2V batch handlers work on, and the collaborators they call.

    Everything below the handlers (the causality layer, the item table, the
    range enumerator, base64 and the K2V RPC layer) is represented here only
    at its interface: pure collaborators are function-valued fields of the
    `Codec` and `ItemTable` records, and the two writing calls go through the
    `Rpc` object, which logs every call it is given. */
module K2vModel {
  import opened Wrappers

  /** Rust's `u64`. */
  type U64 = x: int | 0 <= x < 0x1_0000_0000_0000_0000

  type Bytes = seq<bv8>

  /** A bucket identifier (`Uuid`, 32 bytes in the source; its contents are never inspected). */
  type Uuid = seq<bv8>

  type NodeId = U64

  /** A causal context: for each node, the highest write counter observed.
      The handlers never look inside it; they parse it from a token,
      serialize it into one, or pass it on to a write. */
  datatype CausalContext = CausalContext(vectorClock: map<NodeId, U64>)

  /** One value of an item's value set: a payload, or a tombstone. */
  datatype DvvsValue = Value(bytes: Bytes) | Deleted

  datatype K2VItemPartition = K2VItemPartition(bucketId: Uuid, partitionKey: string)

  /** A stored item. `context` and `values` stand for what `causal_context()`
      and `values()` compute from the item's DVVS in the causality layer;
      here they are taken as given. */
  datatype K2VItem = K2VItem(
    partition: K2VItemPartition,
    sortKey: string,
    context: CausalContext,
    values: seq<DvvsValue>)

  /** The read-time predicate that the item table applies to candidate items. */
  datatype ItemFilter = ItemFilter(excludeOnlyTombstones: bool, conflictsOnly: bool)

  datatype EnumerationOrder = Forward | Reverse

  /** `EnumerationOrder::from_reverse`. */
  function FromReverse(reverse: bool): (o: EnumerationOrder)
    ensures o == Reverse <==> reverse
  {
    if reverse then Reverse else Forward
  }

  /** An error reported by a collaborator (storage, quorum, RPC); its detail is opaque here. */
  datatype StorageError = StorageError(detail: string)

  /** The errors a handler can end with. `Storage` wraps a collaborator error
      (the conversion `?` performs); `Panic` stands for a failed `assert!`,
      which unwinds the whole request handler instead of returning. */
  datatype Error =
    | BadRequest(message: string)
    | Storage(cause: StorageError)
    | Panic(message: string)

  /** The conversion `?` applies to a collaborator's result. */
  function Lift<T>(r: Result<T, StorageError>): (l: Result<T, Error>)
    ensures l.Success? <==> r.Success?
    ensures r.Success? ==> l.value == r.value
    ensures r.Failure? ==> l.error == Storage(r.error)
  {
    match r
    case Success(v) => Success(v)
    case Failure(e) => Failure(Storage(e))
  }

  const StartRequired := "start should be specified if single_item is set"

  /** One write handed to the K2V RPC layer: partition key, sort key, the
      causal context the writer declares, and the new value. */
  datatype WriteEntry = WriteEntry(
    partitionKey: string,
    sortKey: string,
    ct: Option<CausalContext>,
    value: DvvsValue)

  /** A call issued to the K2V RPC layer: `rpc.insert` or `rpc.insert_batch`. */
  datatype RpcCall =
    | InsertCall(bucketId: Uuid, entry: WriteEntry)
    | InsertBatchCall(bucketId: Uuid, entries: seq<WriteEntry>)

  /** The arguments of one `read_range` call. */
  datatype RangeRequest = RangeRequest(
    partition: K2VItemPartition,
    prefix: Option<string>,
    start: Option<string>,
    end: Option<string>,
    limit: Option<U64>,
    filter: Option<ItemFilter>,
    order: EnumerationOrder)

  /** What `read_range` returns: the items, whether the scan was cut short, and the cursor to resume from. */
  datatype RangeResult = RangeResult(items: seq<K2VItem>, more: bool, nextStart: Option<string>)

  /** Token and payload encodings: `CausalContext::parse` (partial),
      `CausalContext::serialize`, `base64::decode` (partial) and `base64::encode`. */
  datatype Codec = Codec(
    parseCt: string -> Option<CausalContext>,
    serializeCt: CausalContext -> string,
    decode64: string -> Option<Bytes>,
    encode64: Bytes -> string)

  /** The item table as the handlers read it: point lookup `item_table.get`,
      `K2VItemTable::matches_filter`, and the range enumerator `read_range`. */
  datatype ItemTable = ItemTable(
    get: (K2VItemPartition, string) -> Result<Option<K2VItem>, StorageError>,
    matchesFilter: (K2VItem, ItemFilter) -> bool,
    readRange: RangeRequest -> Result<RangeResult, StorageError>)

  /** The writing half of the K2V RPC layer. `issued` records every call in
      the order it was issued; `respond` is the layer's answer to a call. */
  class Rpc {
    var issued: seq<RpcCall>
    const respond: RpcCall -> Result<(), StorageError>

    constructor (respond: RpcCall -> Result<(), StorageError>)
      ensures this.respond == respond && issued == []
    {
      this.respond := respond;
      issued := [];
    }

    /** `rpc.insert(bucket_id, pk, sk, ct, v)`. */
    method Insert(bucketId: Uuid, entry: WriteEntry) returns (r: Result<(), StorageError>)
      modifies this
      ensures issued == old(issued) + [InsertCall(bucketId, entry)]
      ensures r == respond(InsertCall(bucketId, entry))
    {
      issued := issued + [InsertCall(bucketId, entry)];
      r := respond(InsertCall(bucketId, entry));
    }

    /** `rpc.insert_batch(bucket_id, entries)`. */
    method InsertBatch(bucketId: Uuid, entries: seq<WriteEntry>) returns (r: Result<(), StorageError>)
      modifies this
      ensures issued == old(issued) + [InsertBatchCall(bucketId, entries)]
      ensures r == respond(InsertBatchCall(bucketId, entries))
    {
      issued := issued + [InsertBatchCall(bucketId, entries)];
      r := respond(InsertBatchCall(bucketId, entries));
    }
  }
}
