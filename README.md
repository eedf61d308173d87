# Bill-report chatbot pipeline, modelled in Dafny

The system answers questions about Korean National Assembly bill review
reports. Its pipeline has five parts, modelled here:

- **Ingest.** Merge the scraped JSON files into one list. Remap each scraped
  object into an eleven-field bill record. Keep the records of thirteen
  committees and of sessions "20" and "21".
- **Terminology.** Translate each record's Korean terminology into English in
  fixed-size batches. Write each translation back into its record in place.
  Then rewrite every English term list as its sorted, distinct terms.
- **Store build.** Turn each record into a document text (its paragraph) and
  a metadata record with eleven keys, for the vector store.
- **Listing.** Project each record onto the committee, session, field, title
  and date columns of the app's listing file.
- **Question answering.** Turn the retrieved documents into a context and
  the metadata of the closest bill. From that metadata, derive the opening
  sentence (bare title, proposer, committee, session) and the suggested
  search terms. Build the prompt and the chat-completion request, and strip
  the completion into the answer. The web form shows the answer, or a
  warning or error.

Python's string operations are modelled over code points: `find`, `in`,
`split`, `join`, `strip` and `<`. The model includes `split`/`join` round
trips and the uniqueness of a sorted, repeat-free listing. JSON values are a
datatype, and a `dict` is a map. A document's string metadata and an option
type are shared by Json, RawPreprocess, TranslateKeyword, AnswerGenerator,
ChromaQueryRag and ChatbotApp.

Loops that build lists in the source are methods with loop invariants:
`load_json_from_folder`, `process_all_data` and the preparation loop of
`build_vector_db`. In-place updates of the record list are methods over an
array with `modifies`: `translate_terminology` and
`remove_duplicate_keywords`. Each method is proved against a specification
function, and the properties are proved about those functions.

Outside calls are parameters of the model:

- the translation model is a function from a batch of texts to a batch of
  translations;
- the vector search is the list of hits it returned;
- the chat-completion service is a function from a request (and, in the
  app, the API key) to `Ok(content)` or `Failed`.

## Model

| member | source | states |
|---|---|---|
| `Text.OccursAt` | chatbot/answer_generator.py:21-23 | `sep` occurs at an index: the slice there is `sep`; no contract of its own, the vocabulary of the `Text.FindFrom` and `Text.Find` contracts |
| `Text.FindFrom` | chatbot/answer_generator.py:21-23 | `str.find`: the result is -1 exactly when there is no occurrence; otherwise it is an occurrence with none before it |
| `Text.Find` | chatbot/answer_generator.py:22-23 | `str.find` from the start: an occurrence with none before it, and -1 exactly when `sep` occurs nowhere |
| `Text.Contains` | chatbot/answer_generator.py:21 | `in` on strings; no contract of its own: `Text.ContainsIff` and `Text.ContainsChar` describe it |
| `Text.ContainsIff` | chatbot/answer_generator.py:21 | `sep in s` holds exactly when `sep` occurs at some index |
| `Text.EndsWith` | preprocess/raw_preprocess.py:19 | `str.endswith`: the last `|suffix|` characters are the suffix; no contract of its own, used verbatim by `RawPreprocess.Contribution`, so only `*.json` names contribute |
| `Text.Split` | preprocess/translate_keyword.py:88 | `str.split` with a non-empty separator always gives at least one piece |
| `Text.SplitHead` | chatbot/answer_generator.py:32-34 | the first piece of a split is the text before the first separator, or the whole string when there is none |
| `Text.Unbordered` | preprocess/translate_keyword.py:88-90 | no proper suffix of the separator is also a prefix of it; no contract of its own, the premise of `Text.SplitJoin`, which `TranslateKeyword.TermSeparatorUnbordered` discharges for ", " |
| `Text.SplitPiecesClean` | preprocess/translate_keyword.py:88 | no piece of a split contains the separator |
| `Text.JoinSplit` | preprocess/translate_keyword.py:88-90 | joining the pieces of a split with the same separator gives back the string |
| `Text.SplitJoin` | preprocess/translate_keyword.py:88-90 | for an unbordered separator, splitting a join of one or more separator-free pieces gives back the pieces |
| `Text.Join` | chatbot/chroma_query_rag.py:31 | `str.join`; no contract of its own: `Text.JoinSplit`, `Text.SplitJoin` and `Text.JoinAppend` relate it to `Split` and to concatenation |
| `Text.JoinAppend` | chatbot/chroma_query_rag.py:31 | joining two non-empty lists is joining each with the separator between them |
| `Text.ContainsChar` | chatbot/answer_generator.py:21 | `c in s` for a one-character needle is membership of the character |
| `Text.FindCharAfter` | chatbot/answer_generator.py:22-23 | the first index of a character is just after a prefix that lacks it |
| `Text.IsSpace` | chatbot/answer_generator.py:88 | the characters Python's `str.isspace` accepts, which `.strip()` removes; no contract of its own, used by the `Text.TrimStart`, `Text.TrimEnd`, `Text.Strip` and `Text.StripsTo` contracts |
| `Text.TrimStart` | chatbot/answer_generator.py:88 | the leading-whitespace half of `.strip()`: a suffix of the input, with only whitespace before it and a non-whitespace first character |
| `Text.TrimEnd` | chatbot/answer_generator.py:88 | the trailing-whitespace half of `.strip()`: a prefix of the input, with only whitespace after it and a non-whitespace last character |
| `Text.LeadingSpace` | chatbot/answer_generator.py:88 | the number of whitespace characters `.lstrip()` drops: the length lost by `Text.TrimStart` |
| `Text.StripsTo` | chatbot/answer_generator.py:88 | `r` is `s` without its leading and trailing whitespace; no contract of its own, proved to describe `Text.Strip` by `Text.StripStripsTo` and to fix one string by `Text.StripsToUnique` |
| `Text.Strip` | chatbot/answer_generator.py:23 | `str.strip`: the result has no whitespace at either end, and is the infix left after dropping only whitespace from both ends |
| `Text.StripStripsTo` | chatbot/answer_generator.py:23 | the stripped string is a trimmed infix of the input with only whitespace before and after it |
| `Text.StripsToUnique` | chatbot/answer_generator.py:23 | only one string is the input without its leading and trailing whitespace, so that description pins `strip` down |
| `Text.StripTrimmed` | chatbot/answer_generator.py:23 | stripping a string with no whitespace at its ends changes nothing, so stripping is idempotent |
| `LexOrder.Less` | preprocess/translate_keyword.py:90 | `<` on strings, by code point; no contract of its own: `LexOrder.LessIrreflexive`, `LexOrder.LessTransitive` and `LexOrder.LessTotal` show it is the strict total order `sorted` uses |
| `LexOrder.LessIrreflexive` | preprocess/translate_keyword.py:90 | no string sorts before itself |
| `LexOrder.LessTransitive` | preprocess/translate_keyword.py:90 | the string order is transitive |
| `LexOrder.LessTotal` | preprocess/translate_keyword.py:90 | any two distinct strings are ordered one way or the other |
| `LexOrder.LessAsymmetric` | preprocess/translate_keyword.py:90 | no two strings each sort before the other |
| `LexOrder.StrictlySorted` | preprocess/translate_keyword.py:90 | what `sorted` of a set gives: every earlier element is strictly smaller; no contract of its own, established by `LexOrder.Insert` and `LexOrder.SortedSet` |
| `LexOrder.SameElements` | preprocess/translate_keyword.py:88-90 | `set(a) == set(b)`; no contract of its own, the element clause of `LexOrder.SortedSet` and the premise of `LexOrder.SortedListingUnique` |
| `LexOrder.StrictlySortedDistinct` | preprocess/translate_keyword.py:88 | a strictly ascending list has no repeats |
| `LexOrder.Insert` | preprocess/translate_keyword.py:88-90 | adding a string to a strictly ascending list keeps it strictly ascending and adds exactly that string |
| `LexOrder.SortedSet` | preprocess/translate_keyword.py:88-90 | `sorted(set(xs))` is strictly ascending and has exactly the elements of `xs` |
| `LexOrder.SortedListingUnique` | preprocess/translate_keyword.py:90 | two strictly ascending lists of the same elements are equal |
| `LexOrder.SortedSetOfSorted` | preprocess/translate_keyword.py:90 | `sorted(set(xs))` of a strictly ascending list is that list |
| `RawPreprocess.Contribution` | preprocess/raw_preprocess.py:19-29 | what one walked file adds; no contract of its own: `RawPreprocess.LoadJsonFromFolder` proves the loop adds it file by file |
| `RawPreprocess.Merged` | preprocess/raw_preprocess.py:16-31 | the contributions in walk order; no contract of its own: `RawPreprocess.MergedConcat` and `RawPreprocess.LoadJsonFromFolder` describe it |
| `RawPreprocess.MergedConcat` | preprocess/raw_preprocess.py:16-32 | the merged list of files laid end to end is the merged lists laid end to end: files contribute in walk order, one file's elements together |
| `RawPreprocess.LoadJsonFromFolder` | preprocess/raw_preprocess.py:16-32 | the loop builds the merged list: every element of a list file, the object of an object file, nothing for a non-`.json` name, a decode error or any other top-level value |
| `RawPreprocess.SourceKey` | preprocess/raw_preprocess.py:47-57 | `id` is read from `bill_id`, `paragraph` from `gen_summary`, every other field from its own name; no contract of its own, used by the `RawPreprocess.Remap` contract |
| `RawPreprocess.Remap` | preprocess/raw_preprocess.py:46-58 | the record has exactly the eleven bill keys; `id` comes from `bill_id`, `paragraph` from `gen_summary`, the rest from the same-named keys, and a missing key gives "" |
| `RawPreprocess.RemapIgnoresOtherKeys` | preprocess/raw_preprocess.py:46-58 | a scraped key outside the eleven source keys does not affect the record |
| `RawPreprocess.ProcessData` | preprocess/raw_preprocess.py:45-59 | an object gives its remapped record, which is never falsy; any other value gives `None` |
| `Json.TruthyDict` | preprocess/raw_preprocess.py:75 | `if processed_item:` on a dict or None: true exactly for a non-empty dict; no contract of its own, used by the `RawPreprocess.ProcessAll` contract |
| `RawPreprocess.ProcessAll` | preprocess/raw_preprocess.py:72-77 | the processed list is no longer than the input, and every record in it has exactly the bill keys |
| `RawPreprocess.Objects` | preprocess/raw_preprocess.py:72-76 | the objects among the merged values, in order, as an independent reference; no contract of its own, compared with `RawPreprocess.ProcessAll` by `RawPreprocess.ProcessAllRemapsObjects` |
| `RawPreprocess.ProcessAllRemapsObjects` | preprocess/raw_preprocess.py:72-77 | one record per object input, in input order, each the object remapped; non-objects are dropped |
| `RawPreprocess.ProcessAllData` | preprocess/raw_preprocess.py:72-77 | the loop builds exactly the processed list |
| `Json.IsStringIn` | preprocess/raw_preprocess.py:105 | `item.get(key) in allowed` for lists of `str`: the key is present and holds a string in the list; no contract of its own, the test inside `RawPreprocess.Selected` |
| `RawPreprocess.Selected` | preprocess/raw_preprocess.py:105 | the filter's test; no contract of its own: `RawPreprocess.FilterData` and `RawPreprocess.FilterKeepsEverySelected` state what passing it means |
| `RawPreprocess.FilterData` | preprocess/raw_preprocess.py:103-106 | every kept item is an input item whose committee and session are strings in the allow-lists |
| `RawPreprocess.IsSubsequence` | preprocess/raw_preprocess.py:103-106 | the kept items in their input order; no contract of its own, the conclusion of `RawPreprocess.FilterIsSubsequence` |
| `RawPreprocess.FilterIsSubsequence` | preprocess/raw_preprocess.py:103-106 | the kept items are an order-preserving subsequence of the input |
| `RawPreprocess.FilterKeepsEverySelected` | preprocess/raw_preprocess.py:103-106 | each item that passes is kept as many times as it occurs; no other item is kept |
| `RawPreprocess.FilterIdempotent` | preprocess/raw_preprocess.py:103-106 | filtering twice is filtering once |
| `RawPreprocess.Preprocess` | preprocess/raw_preprocess.py:118-139 | the ingest run gives the merged list and the filtered records; each final record has the bill keys, session "20" or "21", and a listed committee |
| `TranslateKeyword.Min` | preprocess/translate_keyword.py:63 | the clamp of `texts[i:i + size]` at the end of the list; no contract of its own, used by `TranslateKeyword.BatchAt`'s length clause |
| `TranslateKeyword.TerminologyTexts` | preprocess/translate_keyword.py:60 | one translator input per record |
| `TranslateKeyword.MissingTerminologyIsEmptyText` | preprocess/translate_keyword.py:60 | a record without `terminology` is translated from "" |
| `TranslateKeyword.IsMultiple` | preprocess/translate_keyword.py:62 | an offset `range(0, n, size)` can produce: 0, `size`, `2 * size`, ...; no contract of its own, characterised by `TranslateKeyword.BatchStartsAreMultiples` |
| `TranslateKeyword.BatchStarts` | preprocess/translate_keyword.py:62 | `range(start, n, size)`; no contract of its own: `TranslateKeyword.BatchStartsAreMultiples` proves it lists exactly the multiples of `size` from `start` below `n` |
| `TranslateKeyword.BatchStartOf` | preprocess/translate_keyword.py:62 | every index lies in the batch that starts at a multiple of the batch size at most `size - 1` below it |
| `TranslateKeyword.CoveringStart` | preprocess/translate_keyword.py:62-63 | a batch start covering an index is that index's batch start |
| `TranslateKeyword.StartsApart` | preprocess/translate_keyword.py:62 | distinct batch starts are at least a batch size apart, so batches do not overlap |
| `TranslateKeyword.BatchStartsAreMultiples` | preprocess/translate_keyword.py:62 | `range(start, n, size)` holds exactly the multiples of `size` from `start` below `n` |
| `TranslateKeyword.BatchesCoverOnce` | preprocess/translate_keyword.py:62-63 | every index below `n` lies in exactly one batch |
| `TranslateKeyword.Batches` | preprocess/translate_keyword.py:62-63 | every batch is non-empty and at most the batch size long |
| `TranslateKeyword.BatchesPartition` | preprocess/translate_keyword.py:62-63 | the batches, laid end to end, are the texts |
| `TranslateKeyword.BatchAt` | preprocess/translate_keyword.py:63 | `texts[start:start + size]` holds `min(start + size, n) - start` texts |
| `TranslateKeyword.BatchesAreSlicesAtStarts` | preprocess/translate_keyword.py:62-63 | batch `k` of the partition is the slice taken at the `k`-th start of `range(0, n, size)`, so the partition is exactly the batches the loop sends |
| `TranslateKeyword.OnePerInput` | preprocess/translate_keyword.py:63 | the translator returns one output per text of the batch; no contract of its own, the premise of the translation members, with the cases outside it under "Left out" |
| `TranslateKeyword.TranslationAt` | preprocess/translate_keyword.py:62-67 | the output a record receives; no contract of its own: `TranslateKeyword.TranslationAtInBatch` and `TranslateKeyword.EnrichedAt` describe it |
| `TranslateKeyword.Enriched` | preprocess/translate_keyword.py:64-71 | the enriched list has one record per input record |
| `TranslateKeyword.EnrichedChangesOnlyTranslation` | preprocess/translate_keyword.py:66-68 | each record gains `terminology_en`, holding the translation of its own text, and no other key or value changes |
| `TranslateKeyword.EnrichedInBatch` | preprocess/translate_keyword.py:64-68 | record `i + j` receives output `j` of the batch that starts at `i` |
| `TranslateKeyword.EnrichedAt` | preprocess/translate_keyword.py:66-67 | record `idx` of the enriched list is the input record with `terminology_en` set to the translation of its own text |
| `TranslateKeyword.TranslationAtInBatch` | preprocess/translate_keyword.py:62-67 | text `i + j` of the batch starting at `i` receives output `j` of that batch's translation |
| `TranslateKeyword.WriteBatch` | preprocess/translate_keyword.py:64-68 | the inner loop writes the batch's outputs into the batch's records in place, appends those records to the returned list, and leaves every later record untouched |
| `TranslateKeyword.TranslateTerminology` | preprocess/translate_keyword.py:59-71 | the nested loop writes each record's translation in place, and returns the records in their original order |
| `TranslateKeyword.TermSeparatorUnbordered` | preprocess/translate_keyword.py:88 | ", " cannot overlap itself, so term lists split and join without loss |
| `TranslateKeyword.Terms` | preprocess/translate_keyword.py:88 | `terminology_en.split(", ")`; no contract of its own: `Text.SplitPiecesClean`, `Text.JoinSplit` and `Text.SplitJoin` describe the split it is |
| `TranslateKeyword.DedupTerms` | preprocess/translate_keyword.py:88-90 | the rewritten list's terms are strictly ascending (no repeats) and are the terms of the original |
| `TranslateKeyword.DedupTermsIsSortedListing` | preprocess/translate_keyword.py:88-90 | the rewritten list is the only ascending, repeat-free listing of the terms, joined by ", " |
| `TranslateKeyword.DedupTermsIdempotent` | preprocess/translate_keyword.py:88-90 | rewriting twice is rewriting once |
| `TranslateKeyword.DedupRecord` | preprocess/translate_keyword.py:85-90 | a record keeps its keys and other values; a missing or empty `terminology_en` leaves it untouched; otherwise the field is rewritten |
| `TranslateKeyword.DedupRecordIdempotent` | preprocess/translate_keyword.py:84-91 | the post-pass on a record is idempotent |
| `TranslateKeyword.Splittable` | preprocess/translate_keyword.py:85-88 | a falsy value or a string, the values `.split` does not raise on; no contract of its own: `TranslateKeyword.FirstFailure` and `TranslateKeyword.DedupRecord` use it |
| `Json.Truthy` | preprocess/translate_keyword.py:86 | Python's truth value of a JSON value (`if terminology_en:`): false exactly for null, false, 0, "", [] and {}; no contract of its own, used by the `TranslateKeyword.DedupRecord` contract |
| `TranslateKeyword.FirstFailure` | preprocess/translate_keyword.py:84-88 | the first record whose truthy `terminology_en` is not a string, or none when every record goes through |
| `TranslateKeyword.FirstFailureAt` | preprocess/translate_keyword.py:84-88 | the first failure is the first index that fails |
| `TranslateKeyword.RemoveDuplicateKeywords` | preprocess/translate_keyword.py:84-91 | the loop rewrites records in place, in order, up to the first record that raises; the records from there on are unchanged |
| `Json.Get` | chatbot/answer_generator.py:19 | `dict.get` with a default: the stored value when the key is present, the default otherwise (used for metadata, records and JSON objects alike) |
| `AnswerGenerator.Slice` | chatbot/answer_generator.py:22-23 | a Python slice: the plain slice within bounds, "" when the start is past the end |
| `AnswerGenerator.SplitTitle` | chatbot/answer_generator.py:19-25 | the proposer and bare title; no contract of its own: `AnswerGenerator.SplitTitleUnbracketed`, `AnswerGenerator.SplitTitleComposed` and `AnswerGenerator.SplitTitleCloseFirst` fix it case by case |
| `AnswerGenerator.SplitTitleUnbracketed` | chatbot/answer_generator.py:21-25 | a title lacking "(" or ")" is kept whole, with no proposer |
| `AnswerGenerator.MissingTitleNoProposer` | chatbot/answer_generator.py:19-25 | a missing title reads "N/A" and names no proposer |
| `AnswerGenerator.SplitTitleComposed` | chatbot/answer_generator.py:21-23 | a title `bare(proposer)rest` gives back the proposer and the stripped bare title |
| `AnswerGenerator.SplitTitleCloseFirst` | chatbot/answer_generator.py:21-23 | a ")" before the first "(" gives an empty proposer, yet the title is still cut at the "(" |
| `AnswerGenerator.SessionPhrase` | chatbot/answer_generator.py:28-29 | the phrase is "{session}대 국회", or "국회 회기 정보 없음" exactly when the session is missing or "N/A" |
| `AnswerGenerator.FirstTerm` | chatbot/answer_generator.py:32-35 | the selected term is the text before the first ", ", or the whole list when there is none; the "N/A" fallback is never reached |
| `AnswerGenerator.FirstTermOfDeduped` | chatbot/answer_generator.py:32-34 | on a rewritten term list, the selected term is the smallest term of the original list |
| `AnswerGenerator.Opening` | chatbot/answer_generator.py:38 | the date and bare-title opening of the first sentence; no contract of its own, located in the sentence by `AnswerGenerator.FirstSentenceShape` |
| `AnswerGenerator.ProposerClause` | chatbot/answer_generator.py:39-40 | the proposer clause; no contract of its own: `AnswerGenerator.FirstSentenceShape` shows it appears exactly when there is a proposer |
| `AnswerGenerator.Closing` | chatbot/answer_generator.py:41 | the committee and session close of the first sentence; no contract of its own, located by `AnswerGenerator.FirstSentenceShape` |
| `AnswerGenerator.FirstSentence` | chatbot/answer_generator.py:38-41 | the first sentence; no contract of its own: `AnswerGenerator.FirstSentenceShape` and `AnswerGenerator.FirstSentenceWithProposer` describe it |
| `AnswerGenerator.FirstSentenceShape` | chatbot/answer_generator.py:38-41 | the first sentence is the date/title opening, then the proposer clause exactly when there is a proposer, then the committee/session close |
| `AnswerGenerator.FirstSentenceWithProposer` | chatbot/answer_generator.py:38-41 | for a title `bare(proposer)rest`, the sentence names the stripped bare title, then the proposer, then committee and session |
| `AnswerGenerator.MetadataBlock` | chatbot/answer_generator.py:48-56 | the eight labelled metadata lines, in order, with "N/A" for a missing key |
| `AnswerGenerator.BuildPrompt` | chatbot/answer_generator.py:47-75 | the prompt carries the metadata block, the first sentence, the question and context verbatim, the search site, and the first term of each term list (default "") |
| `AnswerGenerator.MissingTermsDefaults` | chatbot/answer_generator.py:32-55 | a missing term list suggests the empty term, while the metadata block shows "N/A" for it |
| `AnswerGenerator.Request` | chatbot/answer_generator.py:79-87 | the request carries the prompt, model "gpt-4o-mini", 400 tokens and temperature 0.7 |
| `AnswerGenerator.AnswerFrom` | chatbot/answer_generator.py:88-91 | a failed call gives ""; a completion gives its content stripped: a trimmed infix with only whitespace before and after it, which `Text.StripsToUnique` shows is a single string |
| `AnswerGenerator.BlankCompletionLooksFailed` | chatbot/answer_generator.py:88-91 | a whitespace-only completion gives the same answer as a failed call |
| `AnswerGenerator.GenerateAnswer` | chatbot/answer_generator.py:6-91 | the answer is "" when the service fails on the built request, and the stripped content otherwise |
| `ChromaQueryRag.PageContents` | chatbot/chroma_query_rag.py:31 | the hit texts, one per hit, in hit order |
| `ChromaQueryRag.QueryRag` | chatbot/chroma_query_rag.py:27-33 | no hits raises ValueError("No relevant context found."); otherwise the context is the texts space-joined in hit order, and the metadata is the first hit's |
| `ChromaQueryRag.QueryRagIgnoresScores` | chatbot/chroma_query_rag.py:31-32 | the scores play no part |
| `ChromaQueryRag.QueryRagContextConcat` | chatbot/chroma_query_rag.py:31-32 | contexts keep hit order, and only the first hit's metadata is returned |
| `ChromaQueryRag.QueryRagSingle` | chatbot/chroma_query_rag.py:31-32 | a single hit's text is the context as it stands |
| `ChromaQueryRag.QueryRagContextSplits` | chatbot/chroma_query_rag.py:31 | when no text holds a space, splitting the context on spaces gives back the texts |
| `ChatbotApp.GenerateAnswer` | app/chatbot_app.py:41-128 | the app's answer is the chatbot module's answer for a service called with the given key |
| `ChatbotApp.Decimal` | app/chatbot_app.py:222 | the argument count in CPython's TypeError message, in decimal; never empty |
| `ChatbotApp.Quoted` | app/chatbot_app.py:222 | a parameter name in quotes, as CPython lists it; no contract of its own, checked for the call at line 222 by `ChatbotApp.ThreeArgumentsMissMetadata` |
| `ChatbotApp.NameList` | app/chatbot_app.py:222 | CPython's listing of missing parameter names; no contract of its own, checked for the call at line 222 by `ChatbotApp.ThreeArgumentsMissMetadata` |
| `ChatbotApp.ArityCheck` | app/chatbot_app.py:41 | Python's positional-argument check: no error exactly when the argument count equals the parameter count |
| `ChatbotApp.ThreeArgumentsMissMetadata` | app/chatbot_app.py:222 | three arguments for the four parameters leave `metadata` unbound, with Python's message |
| `ChatbotApp.SubmitAsWritten` | app/chatbot_app.py:218-261 | the submit branch as written: no hits shows the warning "Error: No relevant context found."; any hit ends in an error |
| `ChatbotApp.AsWrittenNeverAnswers` | app/chatbot_app.py:218-261 | as written, every successful retrieval shows "Unexpected Error: generate_answer() missing 1 required positional argument: 'metadata'" |
| `ChatbotApp.SubmitCorrected` | app/chatbot_app.py:218-261 | with the key passed, no hits shows the warning; otherwise the answer is shown with the joined context and the first hit's metadata |
| `ChatbotApp.CorrectedCallBinds` | app/chatbot_app.py:222 | four arguments bind; three do not |
| `ChatbotApp.SubmitVersionsAgreeOnEmpty` | app/chatbot_app.py:258-259 | both versions show the same warning when nothing is retrieved |
| `ChatbotApp.FailedCompletionShowsEmptyAnswer` | app/chatbot_app.py:222-226 | a failing service still shows a success box, with an empty answer |
| `BuildChroma.DocumentText` | build_vector_db/build_chroma.py:45 | the document is the record's paragraph, or "" when it has none |
| `BuildChroma.StoreMetadata` | build_vector_db/build_chroma.py:46-58 | exactly the eleven metadata keys, each copied from the record or "" when missing |
| `BuildChroma.StoreMetadataDropsOtherKeys` | build_vector_db/build_chroma.py:46-58 | `id` and any other key outside the eleven leave no trace in the metadata |
| `BuildChroma.StoreMetadataOfBillRecord` | build_vector_db/build_chroma.py:46-58 | for a translated bill record, the metadata is the record without `id` |
| `BuildChroma.PrepareDocuments` | build_vector_db/build_chroma.py:41-58 | documents and metadatas are index-aligned with the records, and each metadata's `paragraph` equals its document |
| `GenerateMetadata.Row` | app/generate_metadata.py:19-25 | exactly the five columns, each copied from the record or "N/A" when missing |
| `GenerateMetadata.Rows` | app/generate_metadata.py:18-27 | one row per record, in record order |
| `GenerateMetadata.RowsConcat` | app/generate_metadata.py:18-27 | the rows of records laid end to end are the rows laid end to end |
| `GenerateMetadata.RowOfCompleteRecord` | app/generate_metadata.py:19-25 | a record with every column gives the record cut down to the columns |
| `GenerateMetadata.MissingColumnDefaultsDiffer` | app/generate_metadata.py:20-24 | a missing column reads "N/A" in the listing but "" in the vector-store metadata |

## Left out

- File and directory I/O is not modelled: `json.load`, `json.dump`, `save_to_json`, `load_json_file`, `load_data` and the CSV writing. The walked files are an input sequence in walk order; `os.walk`'s order itself is not modelled.
- The Python `print` calls are not modelled.
- The MarianMT tokenizer and model behind `translate_to_eng` and `initial_translation_model` are a parameter `translate`. An exception from them, which aborts the run, is not modelled.
- `TranslateKeyword.TranslateTerminology`: requires the translator to return one output per input. With fewer outputs the source leaves the batch's last records untranslated and returns a shorter list. With more outputs, an extra output `j` writes into record `i + j` as long as that index exists: it lands in the next batch's first records, which are appended once here and again by their own batch, so the returned list is longer than the input. IndexError is raised only once `i + j` reaches the number of records. Neither case is modelled.
- `TranslateKeyword.TranslateTerminology`: requires a positive batch size. `range` raises ValueError for 0 and yields nothing for a negative size.
- `TranslateKeyword.RemoveDuplicateKeywords`: the AttributeError raised by a truthy non-string `terminology_en` becomes a returned index. The exception propagating out of the run is not modelled.
- Records are values in the model. The Python list returned by `translate_terminology` shares its dict objects with the input list; that aliasing is modelled only as equal contents.
- The key order of a `dict`, and so of the written JSON, is not modelled.
- HuggingFace embeddings and Chroma are not modelled: the nearest-neighbour ranking, the `k` limit, `from_texts` and `persist`. The search result is a given list of hits. `from_texts` is the sink for the prepared lists.
- Stored metadata values are strings in the model. A non-string record value reaching the store is not modelled.
- The OpenAI chat-completion call is a parameter returning `Ok(content)` or `Failed`. The exact text and whitespace of the prompt template's fixed instructions are not modelled; the prompt is modelled by the pieces it embeds.
- The module-level API keys are not modelled: `openai.api_key = ""` in the chatbot module, and the app's assignment of the key to the global.
- The Streamlit page in `app/chatbot_app.py` (lines 132-217 and the panels of lines 224-256) is not modelled: CSV loading, filtering, date sorting, expanders and HTML.
- `ChatbotApp.SubmitCorrected`: the displayed answer, context and metadata are given; the HTML panels around them are not modelled.
- The app's copy of `query_rag` (app/chatbot_app.py:16-39) is identical to the chatbot one and is modelled once, as `ChromaQueryRag.QueryRag`.
- `argparse` command lines and device selection are not modelled.
- `build_vector_db/query_test.py` and `chatbot/main_rag.py` are print-only wrappers and are not part of this model.
- JSON numbers are reals in the model; Python's distinction between `int` and `float` is not kept.

## Findings

| source | as written | input that shows it | evidently intended | confidence | as-written member | corrected member |
|---|---|---|---|---|---|---|
| app/chatbot_app.py:222 | `generate_answer(user_input, context, metadata)` passes three positional arguments; the function at line 41 takes four (`api_key` first), so the call raises TypeError and the generic handler shows "Unexpected Error: generate_answer() missing 1 required positional argument: 'metadata'" | any question for which retrieval returns at least one document | `generate_answer(api_key, user_input, context, metadata)`, showing the answer | high; not executed | `ChatbotApp.SubmitAsWritten` (exhibited by `ChatbotApp.AsWrittenNeverAnswers`) | `ChatbotApp.SubmitCorrected` |
