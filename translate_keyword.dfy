/** The terminology stage: translate every record's Korean terminology in
    fixed-size batches, writing each translation back into its record in
    place, then rewrite each English term list as its sorted distinct
    terms. The translation model is an oracle `translate`. */
module TranslateKeyword {
  import opened Common
  import opened Json
  import Text
  import LexOrder

  function Min(a: int, b: int): int
  {
    if a < b then a else b
  }

  /** The texts sent to the translator: each record's `terminology`, or ""
      when the key is missing. */
  function TerminologyTexts(records: seq<Dict>): (texts: seq<Value>)
    ensures |texts| == |records|
  {
    seq(|records|, k requires 0 <= k < |records| => Get(records[k], "terminology", Str("")))
  }

  /** A record without `terminology` is translated from "". */
  lemma MissingTerminologyIsEmptyText(records: seq<Dict>, k: nat)
    requires k < |records| && "terminology" !in records[k]
    ensures TerminologyTexts(records)[k] == Str("")
  {
  }

  /** `i` is one of 0, size, 2 * size, ... */
  predicate IsMultiple(i: nat, size: nat)
    requires size > 0
    decreases i
  {
    i == 0 || (i >= size && IsMultiple(i - size, size))
  }

  /** Python's `range(start, n, size)`: the offsets at which batches start. */
  function BatchStarts(start: nat, n: nat, size: nat): seq<nat>
    requires size > 0
    decreases n - start
  {
    if start >= n then [] else [start] + BatchStarts(start + size, n, size)
  }

  /** The start of the batch that holds index `idx`. */
  function BatchStartOf(idx: nat, size: nat): (s: nat)
    requires size > 0
    ensures s <= idx < s + size
    ensures IsMultiple(s, size)
  {
    if idx < size then 0 else size + BatchStartOf(idx - size, size)
  }

  /** A batch start at or below `idx`, within one batch size of it, is the
      start of `idx`'s batch. */
  lemma {:induction false} CoveringStart(s: nat, idx: nat, size: nat)
    requires size > 0 && IsMultiple(s, size)
    requires s <= idx < s + size
    ensures BatchStartOf(idx, size) == s
    decreases s
  {
    if s > 0 {
      CoveringStart(s - size, idx - size, size);
    }
  }

  /** Distinct batch starts are at least one batch size apart. */
  lemma {:induction false} StartsApart(a: nat, b: nat, size: nat)
    requires size > 0 && IsMultiple(a, size) && IsMultiple(b, size)
    requires a < b
    ensures a + size <= b
    decreases a
  {
    if a > 0 {
      StartsApart(a - size, b - size, size);
    }
  }

  /** `range(start, n, size)` for a batch start `start` lists exactly the
      batch starts from `start` up to `n`. */
  lemma {:induction false} BatchStartsAreMultiples(start: nat, n: nat, size: nat)
    requires size > 0 && IsMultiple(start, size)
    ensures forall s :: s in BatchStarts(start, n, size) <==> start <= s < n && IsMultiple(s, size)
    decreases n - start
  {
    if start < n {
      assert IsMultiple(start + size, size);
      BatchStartsAreMultiples(start + size, n, size);
      forall s | start < s < n && IsMultiple(s, size)
        ensures s in BatchStarts(start + size, n, size)
      {
        StartsApart(start, s, size);
      }
    }
  }

  /** The batches of `translate_terminology` start at the multiples of the
      batch size below `n`, and every index lies in exactly one of them:
      the one starting at `BatchStartOf(idx)`. */
  lemma BatchesCoverOnce(n: nat, size: nat, idx: nat)
    requires size > 0 && idx < n
    ensures forall s :: s in BatchStarts(0, n, size) ==> IsMultiple(s, size)
    ensures BatchStartOf(idx, size) in BatchStarts(0, n, size)
    ensures forall s :: s in BatchStarts(0, n, size) && s <= idx < s + size ==> s == BatchStartOf(idx, size)
  {
    BatchStartsAreMultiples(0, n, size);
    forall s | s in BatchStarts(0, n, size) && s <= idx < s + size
      ensures s == BatchStartOf(idx, size)
    {
      CoveringStart(s, idx, size);
    }
  }

  /** The batches themselves, in order: consecutive slices of at most `size`
      texts each. */
  function Batches(texts: seq<Value>, start: nat, size: nat): (r: seq<seq<Value>>)
    requires size > 0
    ensures forall b :: b in r ==> 0 < |b| <= size
    decreases |texts| - start
  {
    if start >= |texts| then []
    else [texts[start..Min(start + size, |texts|)]] + Batches(texts, start + size, size)
  }

  function Flatten(bs: seq<seq<Value>>): seq<Value>
  {
    if bs == [] then [] else bs[0] + Flatten(bs[1..])
  }

  /** Put back together, the batches are the texts from `start` on: every
      text is sent exactly once, in order. */
  lemma {:induction false} BatchesPartition(texts: seq<Value>, start: nat, size: nat)
    requires size > 0 && start <= |texts|
    ensures Flatten(Batches(texts, start, size)) == texts[start..]
    decreases |texts| - start
  {
    if start < |texts| {
      var next := Min(start + size, |texts|);
      BatchesPartition(texts, next, size);
      if start + size <= |texts| {
        assert Batches(texts, start, size) == [texts[start..next]] + Batches(texts, next, size);
      } else {
        assert Batches(texts, start + size, size) == [];
        assert Batches(texts, next, size) == [];
      }
      assert texts[start..] == texts[start..next] + texts[next..];
    }
  }

  /** Python's `texts[start:start + size]` for a start within the texts. */
  function BatchAt(texts: seq<Value>, start: nat, size: nat): (batch: seq<Value>)
    requires start <= |texts|
    ensures |batch| == Min(start + size, |texts|) - start
  {
    texts[start..Min(start + size, |texts|)]
  }

  /** `bs[k]` is the slice `BatchAt` takes at `starts[k]`, and every start
      lies between `lo` and the end of the texts. */
  ghost predicate SlicesAt(texts: seq<Value>, bs: seq<seq<Value>>, starts: seq<nat>, size: nat, lo: nat)
  {
    |bs| == |starts|
    && forall k :: 0 <= k < |bs| ==>
         lo <= starts[k] < |texts| && bs[k] == BatchAt(texts, starts[k], size)
  }

  /** Batch `k` is the slice `BatchAt` takes at the `k`-th start of
      `range(start, n, size)`: the batches the partition lemma speaks of are
      the ones `translate_terminology` sends. */
  lemma {:induction false} BatchesAreSlicesAtStarts(texts: seq<Value>, start: nat, size: nat)
    requires size > 0
    ensures |Batches(texts, start, size)| == |BatchStarts(start, |texts|, size)|
    ensures SlicesAt(texts, Batches(texts, start, size), BatchStarts(start, |texts|, size), size, start)
    decreases |texts| - start
  {
    if start < |texts| {
      BatchesAreSlicesAtStarts(texts, start + size, size);
      var bs', starts' := Batches(texts, start + size, size), BatchStarts(start + size, |texts|, size);
      SlicesAtCons(texts, bs', starts', size, start);
      assert Batches(texts, start, size) == [BatchAt(texts, start, size)] + bs';
      assert BatchStarts(start, |texts|, size) == [start] + starts';
    }
  }

  lemma SlicesAtCons(texts: seq<Value>, bs: seq<seq<Value>>, starts: seq<nat>, size: nat, start: nat)
    requires start < |texts| && SlicesAt(texts, bs, starts, size, start + size)
    ensures SlicesAt(texts, [BatchAt(texts, start, size)] + bs, [start] + starts, size, start)
  {
    var bs1, starts1 := [BatchAt(texts, start, size)] + bs, [start] + starts;
    forall k | 0 < k < |bs1|
      ensures start <= starts1[k] < |texts| && bs1[k] == BatchAt(texts, starts1[k], size)
    {
      assert bs1[k] == bs[k - 1] && starts1[k] == starts[k - 1];
    }
  }

  /** A translator that returns one output per input. */
  ghost predicate OnePerInput(translate: seq<Value> -> seq<string>)
  {
    forall batch :: |translate(batch)| == |batch|
  }

  /** The translation record `idx` receives: the translator's output at
      position `idx - s` for its own batch, which starts at `s`. */
  function TranslationAt(texts: seq<Value>, translate: seq<Value> -> seq<string>, size: nat, idx: nat): string
    requires size > 0 && idx < |texts|
    requires OnePerInput(translate)
  {
    var s := BatchStartOf(idx, size);
    translate(BatchAt(texts, s, size))[idx - s]
  }

  /** The records after `translate_terminology`: record `idx` with
      `terminology_en` set to its translation. */
  function Enriched(records: seq<Dict>, translate: seq<Value> -> seq<string>, size: nat): (r: seq<Dict>)
    requires size > 0
    requires OnePerInput(translate)
    ensures |r| == |records|
  {
    var texts := TerminologyTexts(records);
    seq(|records|, idx requires 0 <= idx < |records| =>
      records[idx]["terminology_en" := Str(TranslationAt(texts, translate, size, idx))])
  }

  /** Each record gains (or overwrites) `terminology_en`, holding its
      translation, and no other key or value changes. */
  lemma EnrichedChangesOnlyTranslation(records: seq<Dict>, translate: seq<Value> -> seq<string>, size: nat, idx: nat)
    requires size > 0 && OnePerInput(translate)
    requires idx < |records|
    ensures var r := Enriched(records, translate, size);
            r[idx].Keys == records[idx].Keys + {"terminology_en"}
            && r[idx]["terminology_en"] == Str(TranslationAt(TerminologyTexts(records), translate, size, idx))
            && forall k :: k in records[idx] && k != "terminology_en" ==> r[idx][k] == records[idx][k]
  {
  }

  /** Inside the batch that starts at `i`, record `i + j` receives output
      `j` of that batch. */
  lemma EnrichedInBatch(records: seq<Dict>, translate: seq<Value> -> seq<string>, size: nat, i: nat, j: nat)
    requires size > 0 && OnePerInput(translate)
    requires j < size && i + j < |records| && BatchStartOf(i + j, size) == i
    ensures var batch := BatchAt(TerminologyTexts(records), i, size);
            |translate(batch)| == |batch|
            && Enriched(records, translate, size)[i + j]
               == records[i + j]["terminology_en" := Str(translate(batch)[j])]
  {
    TranslationAtInBatch(TerminologyTexts(records), translate, size, i, j);
    EnrichedAt(records, translate, size, i + j);
  }

  /** Record `idx` of the enriched list is the input record with its
      translation. */
  lemma EnrichedAt(records: seq<Dict>, translate: seq<Value> -> seq<string>, size: nat, idx: nat)
    requires size > 0 && OnePerInput(translate)
    requires idx < |records|
    ensures Enriched(records, translate, size)[idx]
            == records[idx]["terminology_en" := Str(TranslationAt(TerminologyTexts(records), translate, size, idx))]
  {
  }

  /** The translation of text `i + j`, whose batch starts at `i`, is output
      `j` of that batch. */
  lemma TranslationAtInBatch(texts: seq<Value>, translate: seq<Value> -> seq<string>, size: nat, i: nat, j: nat)
    requires size > 0 && OnePerInput(translate)
    requires j < size && i + j < |texts|
    requires BatchStartOf(i + j, size) == i
    ensures TranslationAt(texts, translate, size, i + j) == translate(BatchAt(texts, i, size))[j]
  {
  }

  /** `translate_terminology`: translates the terminology texts batch by
      batch and writes each output back into its record in place, then
      returns the records, in their original order. */
  method TranslateTerminology(data: array<Dict>, translate: seq<Value> -> seq<string>, batchSize: nat)
    returns (processed: seq<Dict>)
    requires batchSize > 0
    requires OnePerInput(translate)
    modifies data
    ensures data[..] == Enriched(old(data[..]), translate, batchSize)
    ensures processed == data[..]
  {
    ghost var original := data[..];
    var n := data.Length;
    var texts := TerminologyTexts(data[..]);
    processed := [];
    var i := 0;
    while i < n
      invariant IsMultiple(i, batchSize)
      invariant processed == data[..Min(i, n)]
      invariant forall k :: 0 <= k < Min(i, n) ==> data[k] == Enriched(original, translate, batchSize)[k]
      invariant forall k :: Min(i, n) <= k < n ==> data[k] == original[k]
    {
      var translatedBatch := translate(BatchAt(texts, i, batchSize));
      processed := WriteBatch(data, original, translate, batchSize, i, translatedBatch, processed);
      i := i + batchSize;
    }
  }

  /** The inner loop of `translate_terminology`: writes the outputs of the
      batch starting at `i` into records `i`, `i + 1`, ... and appends those
      records to `processed`. */
  method WriteBatch(data: array<Dict>, ghost original: seq<Dict>, translate: seq<Value> -> seq<string>,
                    batchSize: nat, i: nat, translatedBatch: seq<string>, processed: seq<Dict>)
    returns (processed': seq<Dict>)
    requires batchSize > 0 && OnePerInput(translate) && IsMultiple(i, batchSize)
    requires |original| == data.Length && i < data.Length
    requires translatedBatch == translate(BatchAt(TerminologyTexts(original), i, batchSize))
    requires processed == data[..i]
    requires forall k :: 0 <= k < i ==> data[k] == Enriched(original, translate, batchSize)[k]
    requires forall k :: i <= k < data.Length ==> data[k] == original[k]
    modifies data
    ensures processed' == data[..Min(i + batchSize, data.Length)]
    ensures forall k :: 0 <= k < Min(i + batchSize, data.Length) ==>
              data[k] == Enriched(original, translate, batchSize)[k]
    ensures forall k :: Min(i + batchSize, data.Length) <= k < data.Length ==> data[k] == original[k]
  {
    ghost var target := Enriched(original, translate, batchSize);
    processed' := processed;
    var j := 0;
    while j < |translatedBatch|
      invariant 0 <= j <= |translatedBatch|
      invariant processed' == data[..i + j]
      invariant forall k :: 0 <= k < i + j ==> data[k] == target[k]
      invariant forall k :: i + j <= k < data.Length ==> data[k] == original[k]
    {
      var idx := i + j;
      CoveringStart(i, idx, batchSize);
      EnrichedInBatch(original, translate, batchSize, i, j);
      data[idx] := data[idx]["terminology_en" := Str(translatedBatch[j])];
      assert data[idx] == target[idx];
      processed' := processed' + [data[idx]];
      j := j + 1;
    }
  }

  /** The separator of a term list. */
  const TermSeparator: string := ", "

  lemma TermSeparatorUnbordered()
    ensures Text.Unbordered(TermSeparator)
  {
    assert TermSeparator[1..] == " " && TermSeparator[..1] == ",";
  }

  /** The terms of a term list. */
  function Terms(s: string): seq<string>
  {
    Text.Split(s, TermSeparator)
  }

  /** The post-pass on one term list: `", ".join(sorted(set(s.split(", "))))`.
      Its terms are in ascending order with no repeats, and they are the
      terms of `s`. */
  function DedupTerms(s: string): (r: string)
    ensures LexOrder.StrictlySorted(Terms(r))
    ensures LexOrder.SameElements(Terms(r), Terms(s))
  {
    var terms := LexOrder.SortedSet(Terms(s));
    var r := Text.Join(terms, TermSeparator);
    assert Terms(r) == terms by {
      LexOrder.SameElementsEmpty(terms, Terms(s));
      Text.SplitPiecesClean(s, TermSeparator);
      TermSeparatorUnbordered();
      Text.SplitJoin(terms, TermSeparator);
    }
    r
  }

  /** The result is the only sorted, repeat-free listing of the terms of
      `s`, joined by ", ". */
  lemma DedupTermsIsSortedListing(s: string, listing: seq<string>)
    requires LexOrder.StrictlySorted(listing)
    requires LexOrder.SameElements(listing, Terms(s))
    ensures DedupTerms(s) == Text.Join(listing, TermSeparator)
  {
    LexOrder.SortedListingUnique(LexOrder.SortedSet(Terms(s)), listing);
  }

  /** Deduplicating a deduplicated term list changes nothing. */
  lemma DedupTermsIdempotent(s: string)
    ensures DedupTerms(DedupTerms(s)) == DedupTerms(s)
  {
    var r := DedupTerms(s);
    LexOrder.SortedSetOfSorted(Terms(r));
    Text.JoinSplit(r, TermSeparator);
  }

  /** The item gets through the post-pass: its `terminology_en` is missing,
      falsy, or a string. A truthy value of any other type has no `split`
      and raises AttributeError. */
  predicate Splittable(item: Dict)
  {
    var v := Get(item, "terminology_en", Str(""));
    !Truthy(v) || v.Str?
  }

  /** The post-pass on one item: a non-empty `terminology_en` string is
      replaced by its deduplicated form; any other item is left as it is. */
  function DedupRecord(item: Dict): (r: Dict)
    requires Splittable(item)
    ensures r.Keys == item.Keys
    ensures forall k :: k in item && k != "terminology_en" ==> r[k] == item[k]
    ensures !Truthy(Get(item, "terminology_en", Str(""))) ==> r == item
    ensures Truthy(Get(item, "terminology_en", Str(""))) ==>
              r["terminology_en"] == Str(DedupTerms(item["terminology_en"].s))
  {
    var v := Get(item, "terminology_en", Str(""));
    if Truthy(v) then item["terminology_en" := Str(DedupTerms(v.s))] else item
  }

  /** Running the post-pass twice on an item is the same as once. */
  lemma DedupRecordIdempotent(item: Dict)
    requires Splittable(item)
    ensures Splittable(DedupRecord(item))
    ensures DedupRecord(DedupRecord(item)) == DedupRecord(item)
  {
    var v := Get(item, "terminology_en", Str(""));
    if Truthy(v) {
      DedupTermsIdempotent(v.s);
    }
  }

  /** The index of the first item the post-pass cannot get through. */
  function FirstFailure(records: seq<Dict>): (r: Option<nat>)
    ensures r.None? <==> forall k :: 0 <= k < |records| ==> Splittable(records[k])
    ensures r.Some? ==> r.value < |records| && !Splittable(records[r.value])
                        && forall k :: 0 <= k < r.value ==> Splittable(records[k])
  {
    if records == [] then None
    else if !Splittable(records[0]) then Some(0)
    else match FirstFailure(records[1..])
      case None => None
      case Some(k) => Some(k + 1)
  }

  /** The first failure is the first index that is not splittable. */
  lemma {:induction false} FirstFailureAt(records: seq<Dict>, k: nat)
    requires k < |records| && !Splittable(records[k])
    requires forall m :: 0 <= m < k ==> Splittable(records[m])
    ensures FirstFailure(records) == Some(k)
  {
    if k > 0 {
      FirstFailureAt(records[1..], k - 1);
    }
  }

  /** `remove_duplicate_keywords`: rewrites the items in place, in order. It
      returns `None` when every item went through (Python then returns the
      same list), or the index of the item that raised; the items before
      that index have already been rewritten. */
  method RemoveDuplicateKeywords(data: array<Dict>) returns (failedAt: Option<nat>)
    modifies data
    ensures failedAt == FirstFailure(old(data[..]))
    ensures forall k :: 0 <= k < data.Length ==>
              data[k] == if failedAt.None? || k < failedAt.value then DedupRecord(old(data[k])) else old(data[k])
  {
    var k := 0;
    while k < data.Length
      invariant 0 <= k <= data.Length
      invariant forall m :: 0 <= m < k ==> Splittable(old(data[m])) && data[m] == DedupRecord(old(data[m]))
      invariant forall m :: k <= m < data.Length ==> data[m] == old(data[m])
    {
      var item := data[k];
      var v := Get(item, "terminology_en", Str(""));
      if Truthy(v) {
        if !v.Str? {
          FirstFailureAt(old(data[..]), k);
          return Some(k);
        }
        data[k] := item["terminology_en" := Str(DedupTerms(v.s))];
      }
      k := k + 1;
    }
    return None;
  }
}
