/** The vector-store build: one document text and one metadata record per
    bill record, index-aligned. */
module BuildChroma {
  import opened Json
  import RawPreprocess

  /** The keys of a stored document's metadata. */
  const MetadataKeys: set<string> :=
    {"title", "session", "committee", "field", "terminology", "disposal",
     "enactment", "amendment", "date", "terminology_en", "paragraph"}

  /** The text stored for a record: its paragraph, or "" when it has none. */
  function DocumentText(item: Dict): (doc: Value)
    ensures "paragraph" in item ==> doc == item["paragraph"]
    ensures "paragraph" !in item ==> doc == Str("")
  {
    Get(item, "paragraph", Str(""))
  }

  /** The metadata stored for a record: the eleven metadata keys, each
      copied from the record or "" when missing. */
  function StoreMetadata(item: Dict): (m: Dict)
    ensures m.Keys == MetadataKeys
    ensures forall k :: k in MetadataKeys && k in item ==> m[k] == item[k]
    ensures forall k :: k in MetadataKeys && k !in item ==> m[k] == Str("")
  {
    map k | k in MetadataKeys :: Get(item, k, Str(""))
  }

  /** `id`, and every other key outside the metadata keys, leaves no trace
      in the metadata. */
  lemma StoreMetadataDropsOtherKeys(item: Dict, k: string, v: Value)
    requires k !in MetadataKeys
    ensures StoreMetadata(item[k := v]) == StoreMetadata(item)
    ensures "id" !in StoreMetadata(item)
  {
    var m1, m2 := StoreMetadata(item[k := v]), StoreMetadata(item);
    forall key | key in MetadataKeys ensures m1[key] == m2[key] {
    }
  }

  /** For a record of the ingest stage with its translation, the metadata is
      the record without its `id`: no default is ever used. */
  lemma StoreMetadataOfBillRecord(rec: Dict)
    requires rec.Keys == RawPreprocess.BillKeys + {"terminology_en"}
    ensures StoreMetadata(rec) == rec - {"id"}
  {
    var m := StoreMetadata(rec);
    assert m.Keys == (rec - {"id"}).Keys;
  }

  /** The preparation loop of `build_vector_db`: appends each record's text
      and metadata, in record order. */
  method PrepareDocuments(data: seq<Dict>) returns (documents: seq<Value>, metadatas: seq<Dict>)
    ensures |documents| == |data| && |metadatas| == |data|
    ensures forall i :: 0 <= i < |data| ==>
              documents[i] == DocumentText(data[i]) && metadatas[i] == StoreMetadata(data[i])
    ensures forall i :: 0 <= i < |data| ==> "paragraph" in metadatas[i] && metadatas[i]["paragraph"] == documents[i]
  {
    documents := [];
    metadatas := [];
    for k := 0 to |data|
      invariant |documents| == k && |metadatas| == k
      invariant forall i :: 0 <= i < k ==>
                  documents[i] == DocumentText(data[i]) && metadatas[i] == StoreMetadata(data[i])
    {
      var item := data[k];
      documents := documents + [DocumentText(item)];
      metadatas := metadatas + [StoreMetadata(item)];
    }
  }
}
