/** `ReadBatchResponseItem::from`: how a stored item is shown to a client. */
module ResponseItem {
  import opened Wrappers
  import opened K2vModel

  /** The sort key, the serialized causal context, and one entry per value:
      the base64 payload, or `None` for a tombstone. */
  datatype ReadBatchResponseItem = ReadBatchResponseItem(sk: string, ct: string, v: seq<Option<string>>)

  function ConvertValue(codec: Codec, x: DvvsValue): Option<string>
  {
    match x
    case Value(b) => Some(codec.encode64(b))
    case Deleted => None
  }

  /** The values of an item, converted one by one and kept in their order. */
  function ConvertValues(codec: Codec, vs: seq<DvvsValue>): (r: seq<Option<string>>)
    ensures |r| == |vs|
    ensures forall k :: 0 <= k < |vs| ==> (r[k].None? <==> vs[k].Deleted?)
    ensures forall k :: 0 <= k < |vs| && vs[k].Value? ==> r[k] == Some(codec.encode64(vs[k].bytes))
  {
    if vs == [] then [] else [ConvertValue(codec, vs[0])] + ConvertValues(codec, vs[1..])
  }

  function FromItem(codec: Codec, i: K2VItem): (r: ReadBatchResponseItem)
    ensures r.sk == i.sortKey
    ensures r.ct == codec.serializeCt(i.context)
    ensures |r.v| == |i.values|
    ensures forall k :: 0 <= k < |r.v| ==> (r.v[k].None? <==> i.values[k].Deleted?)
    ensures forall k :: 0 <= k < |r.v| && i.values[k].Value? ==> r.v[k] == Some(codec.encode64(i.values[k].bytes))
  {
    ReadBatchResponseItem(i.sortKey, codec.serializeCt(i.context), ConvertValues(codec, i.values))
  }

  /** `items.into_iter().map(ReadBatchResponseItem::from).collect()`. */
  function FromItems(codec: Codec, items: seq<K2VItem>): (r: seq<ReadBatchResponseItem>)
    ensures |r| == |items|
    ensures forall k :: 0 <= k < |items| ==> r[k] == FromItem(codec, items[k])
  {
    seq(|items|, k requires 0 <= k < |items| => FromItem(codec, items[k]))
  }
}
