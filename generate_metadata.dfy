/** The listing file of the web app: one row per bill record with the
    committee, session, field, title and date. */
module GenerateMetadata {
  import opened Json
  import BuildChroma

  /** The columns of a row. */
  const RowKeys: set<string> := {"committee", "session", "field", "title", "date"}

  /** The row of one record: each column copied from the record, or "N/A"
      when the record lacks it. */
  function Row(item: Dict): (row: Dict)
    ensures row.Keys == RowKeys
    ensures forall k :: k in RowKeys && k in item ==> row[k] == item[k]
    ensures forall k :: k in RowKeys && k !in item ==> row[k] == Str("N/A")
  {
    map k | k in RowKeys :: Get(item, k, Str("N/A"))
  }

  /** The rows of the listing, one per record. */
  function Rows(items: seq<Dict>): (rows: seq<Dict>)
    ensures |rows| == |items|
    ensures forall i :: 0 <= i < |items| ==> rows[i] == Row(items[i])
  {
    seq(|items|, i requires 0 <= i < |items| => Row(items[i]))
  }

  /** The listing of records laid end to end is the listings laid end to
      end: rows keep record order. */
  lemma RowsConcat(a: seq<Dict>, b: seq<Dict>)
    ensures Rows(a + b) == Rows(a) + Rows(b)
  {
  }

  /** A record with every column gives the record cut down to the columns. */
  lemma RowOfCompleteRecord(item: Dict)
    requires RowKeys <= item.Keys
    ensures Row(item) == map k | k in RowKeys :: item[k]
  {
  }

  /** A missing column reads "N/A" in the listing but "" in the vector-store
      metadata of the same record. */
  lemma MissingColumnDefaultsDiffer(item: Dict, k: string)
    requires k in RowKeys && k !in item
    ensures Row(item)[k] == Str("N/A")
    ensures BuildChroma.StoreMetadata(item)[k] == Str("")
  {
  }
}
