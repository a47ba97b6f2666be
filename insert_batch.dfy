/** `handle_insert_batch`: validate every item of an insert batch and
    translate it into a write, then hand the whole list to `rpc.insert_batch`. */
module InsertBatch {
  import opened Wrappers
  import opened K2vModel
  import opened ResponseItem
  import opened Assembly

  /** One item of the request body: keys, an optional causality token and an
      optional base64 payload (absent means delete). */
  datatype InsertBatchItem = InsertBatchItem(pk: string, sk: string, ct: Option<string>, v: Option<string>)

  const InvalidCausalityToken := "Invalid causality token"
  const InvalidBase64Value := "Invalid base64 value"

  /** `it.ct.map(CausalContext::parse).transpose().ok_or_bad_request(..)`:
      an absent token is no context, a token that does not parse is a bad request. */
  function TranslateCt(codec: Codec, ct: Option<string>): (r: Result<Option<CausalContext>, Error>)
    ensures ct.None? ==> r == Success(None)
    ensures ct.Some? && codec.parseCt(ct.value).Some? ==> r == Success(codec.parseCt(ct.value))
    ensures ct.Some? && codec.parseCt(ct.value).None? ==> r == Failure(BadRequest(InvalidCausalityToken))
  {
    match ct
    case None => Success(None)
    case Some(s) =>
      match codec.parseCt(s)
      case None => Failure(BadRequest(InvalidCausalityToken))
      case Some(c) => Success(Some(c))
  }

  /** An absent payload is a tombstone; a present one must decode from base64. */
  function TranslateValue(codec: Codec, v: Option<string>): (r: Result<DvvsValue, Error>)
    ensures v.None? ==> r == Success(Deleted)
    ensures v.Some? && codec.decode64(v.value).Some? ==> r == Success(Value(codec.decode64(v.value).value))
    ensures v.Some? && codec.decode64(v.value).None? ==> r == Failure(BadRequest(InvalidBase64Value))
  {
    match v
    case None => Success(Deleted)
    case Some(vs) =>
      match codec.decode64(vs)
      case None => Failure(BadRequest(InvalidBase64Value))
      case Some(b) => Success(Value(b))
  }

  /** One turn of the validation loop: the token is checked before the payload. */
  function TranslateItem(codec: Codec, it: InsertBatchItem): (r: Result<WriteEntry, Error>)
    ensures r.Success? <==>
      (it.ct.None? || codec.parseCt(it.ct.value).Some?) && (it.v.None? || codec.decode64(it.v.value).Some?)
    ensures r.Failure? ==> r.error == BadRequest(
      if it.ct.Some? && codec.parseCt(it.ct.value).None? then InvalidCausalityToken else InvalidBase64Value)
    ensures r.Success? ==> r.value.partitionKey == it.pk && r.value.sortKey == it.sk
    ensures r.Success? ==> (r.value.ct.None? <==> it.ct.None?)
    ensures r.Success? && it.ct.Some? ==> r.value.ct == codec.parseCt(it.ct.value)
    ensures r.Success? ==> (r.value.value == Deleted <==> it.v.None?)
    ensures r.Success? && it.v.Some? ==> r.value.value == Value(codec.decode64(it.v.value).value)
  {
    var ct :- TranslateCt(codec, it.ct);
    var v :- TranslateValue(codec, it.v);
    Success(WriteEntry(it.pk, it.sk, ct, v))
  }

  /** The outcome of the loop body for each item, in input order. */
  function ItemResults(codec: Codec, items: seq<InsertBatchItem>): (rs: seq<Result<WriteEntry, Error>>)
    ensures |rs| == |items|
    ensures forall k :: 0 <= k < |items| ==> rs[k] == TranslateItem(codec, items[k])
  {
    seq(|items|, k requires 0 <= k < |items| => TranslateItem(codec, items[k]))
  }

  predicate AllValid(codec: Codec, items: seq<InsertBatchItem>)
  {
    AllSucceeded(ItemResults(codec, items))
  }

  /** The list handed to `insert_batch` when every item is valid. */
  function Translated(codec: Codec, items: seq<InsertBatchItem>): (r: seq<WriteEntry>)
    requires AllValid(codec, items)
    ensures |r| == |items|
    ensures forall k :: 0 <= k < |items| ==> Success(r[k]) == TranslateItem(codec, items[k])
    ensures forall k :: 0 <= k < |items| ==>
      r[k].partitionKey == items[k].pk && r[k].sortKey == items[k].sk && (r[k].value == Deleted <==> items[k].v.None?)
  {
    seq(|items|, k requires 0 <= k < |items| => TranslateItem(codec, items[k]).value)
  }

  /** The validation loop (lines 25-39): either every item translates, and the
      writes keep the items' order, or the error is the first bad item's. */
  method TranslateInsertBatch(codec: Codec, items: seq<InsertBatchItem>)
    returns (r: Result<seq<WriteEntry>, Error>)
    ensures r.Success? <==> AllValid(codec, items)
    ensures r.Success? ==> AllValid(codec, items) && r.value == Translated(codec, items)
    ensures r.Failure? ==> exists k :: FirstFailureAt(ItemResults(codec, items), k) && r.error == TranslateItem(codec, items[k]).error
  {
    var items2: seq<WriteEntry> := [];
    var i := 0;
    while i < |items|
      invariant 0 <= i <= |items|
      invariant |items2| == i
      invariant forall j :: 0 <= j < i ==>
        TranslateItem(codec, items[j]).Success? && items2[j] == TranslateItem(codec, items[j]).value
    {
      var e := TranslateItem(codec, items[i]);
      if e.Failure? {
        assert FirstFailureAt(ItemResults(codec, items), i);
        return Failure(e.error);
      }
      items2 := items2 + [e.value];
      i := i + 1;
    }
    return Success(items2);
  }

  /** The whole handler. A batch with a bad item issues no write at all;
      otherwise exactly one `insert_batch` call carries every item. */
  method HandleInsertBatch(codec: Codec, rpc: Rpc, bucketId: Uuid, items: seq<InsertBatchItem>)
    returns (r: Result<(), Error>)
    modifies rpc
    ensures !AllValid(codec, items) ==> rpc.issued == old(rpc.issued)
    ensures !AllValid(codec, items) ==>
      exists k :: FirstFailureAt(ItemResults(codec, items), k) && r == Failure(TranslateItem(codec, items[k]).error)
    ensures AllValid(codec, items) ==>
      rpc.issued == old(rpc.issued) + [InsertBatchCall(bucketId, Translated(codec, items))]
    ensures AllValid(codec, items) ==> r == Lift(rpc.respond(InsertBatchCall(bucketId, Translated(codec, items))))
  {
    var items2 := TranslateInsertBatch(codec, items);
    if items2.Failure? {
      return Failure(items2.error);
    }
    var sent := rpc.InsertBatch(bucketId, items2.value);
    r := Lift(sent);
  }

  /** One bad item, anywhere in the list, rejects the whole batch, with the
      error of a bad item at or before it. */
  lemma OneBadItemRejectsBatch(codec: Codec, items: seq<InsertBatchItem>, j: int)
    requires 0 <= j < |items| && TranslateItem(codec, items[j]).Failure?
    ensures !AllValid(codec, items)
    ensures exists k :: 0 <= k <= j && FirstFailureAt(ItemResults(codec, items), k)
  {
    FirstFailureAtOrBefore(ItemResults(codec, items), j);
  }

  /** The law the causality layer promises: parsing undoes serializing. */
  ghost predicate ParseUndoesSerialize(codec: Codec)
  {
    forall c :: codec.parseCt(codec.serializeCt(c)) == Some(c)
  }

  /** The law base64 promises: decoding undoes encoding. */
  ghost predicate DecodeUndoesEncode(codec: Codec)
  {
    forall b :: codec.decode64(codec.encode64(b)) == Some(b)
  }

  /** The token a read returns for an item goes back through the insert path
      to the item's own causal context, whatever its values: sent with no
      payload, it deletes the item over exactly the context that was read. */
  lemma ReadTokenWritesBack(codec: Codec, i: K2VItem, pk: string)
    requires ParseUndoesSerialize(codec)
    ensures TranslateCt(codec, Some(FromItem(codec, i).ct)) == Success(Some(i.context))
    ensures TranslateItem(codec, InsertBatchItem(pk, FromItem(codec, i).sk, Some(FromItem(codec, i).ct), None))
      == Success(WriteEntry(pk, i.sortKey, Some(i.context), Deleted))
  {
    assert codec.parseCt(codec.serializeCt(i.context)) == Some(i.context);
  }

  /** What a read returns for an item translates back through an insert
      batch: its token parses to the item's own context and each value
      decodes to the value read (a tombstone stays a tombstone). */
  lemma ReadItemWritesBack(codec: Codec, i: K2VItem, pk: string, k: int)
    requires ParseUndoesSerialize(codec) && DecodeUndoesEncode(codec)
    requires 0 <= k < |i.values|
    ensures var shown := FromItem(codec, i);
      TranslateItem(codec, InsertBatchItem(pk, shown.sk, Some(shown.ct), shown.v[k]))
        == Success(WriteEntry(pk, i.sortKey, Some(i.context), i.values[k]))
  {
    ReadTokenWritesBack(codec, i, pk);
    match i.values[k]
    case Deleted =>
    case Value(b) =>
      assert codec.decode64(codec.encode64(b)) == Some(b);
  }
}
