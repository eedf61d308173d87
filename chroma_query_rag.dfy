/** The retrieval step: from the documents the vector store returned for a
    question, closest first, build the context and pick the metadata. */
module ChromaQueryRag {
  import Text
  import opened Common

  /** A stored document: its text and its metadata. */
  datatype Document = Document(pageContent: string, metadata: Meta)

  /** One hit of the similarity search: the document and its distance. */
  datatype Hit = Hit(doc: Document, score: real)

  /** What `query_rag` gives: the context and metadata, or the ValueError it
      raises. */
  datatype Retrieval = Found(context: string, metadata: Meta) | ValueError(message: string)

  const NoContextMessage: string := "No relevant context found."

  /** The texts of the hits, in hit order. */
  function PageContents(hits: seq<Hit>): (texts: seq<string>)
    ensures |texts| == |hits|
    ensures forall i :: 0 <= i < |hits| ==> texts[i] == hits[i].doc.pageContent
  {
    seq(|hits|, i requires 0 <= i < |hits| => hits[i].doc.pageContent)
  }

  /** `query_rag` after the search: an empty hit list raises ValueError;
      otherwise the context is the hit texts joined by single spaces, in
      hit order, and the metadata is that of the closest hit. */
  function QueryRag(hits: seq<Hit>): (r: Retrieval)
    ensures r.ValueError? <==> hits == []
    ensures r.ValueError? ==> r.message == NoContextMessage
    ensures r.Found? ==> r.metadata == hits[0].doc.metadata
                         && r.context == Text.Join(PageContents(hits), " ")
  {
    if hits == [] then ValueError(NoContextMessage)
    else Found(Text.Join(PageContents(hits), " "), hits[0].doc.metadata)
  }

  /** The scores play no part: hits with the same documents give the same
      result. */
  lemma QueryRagIgnoresScores(hits: seq<Hit>, rescored: seq<Hit>)
    requires |hits| == |rescored|
    requires forall i :: 0 <= i < |hits| ==> hits[i].doc == rescored[i].doc
    ensures QueryRag(hits) == QueryRag(rescored)
  {
    assert PageContents(hits) == PageContents(rescored);
  }

  /** The context of a hit list followed by more hits is the first context,
      a space, then the second: contexts keep hit order, and the closest
      hit's text leads. */
  lemma QueryRagContextConcat(a: seq<Hit>, b: seq<Hit>)
    requires a != [] && b != []
    ensures QueryRag(a + b).context == QueryRag(a).context + " " + QueryRag(b).context
    ensures QueryRag(a + b).metadata == QueryRag(a).metadata
  {
    assert PageContents(a + b) == PageContents(a) + PageContents(b);
    Text.JoinAppend(PageContents(a), PageContents(b), " ");
  }

  /** A single hit's text is the context as it stands. */
  lemma QueryRagSingle(h: Hit)
    ensures QueryRag([h]) == Found(h.doc.pageContent, h.doc.metadata)
  {
  }

  /** When no hit text holds a space, splitting the context on spaces gives
      back the hit texts. */
  lemma QueryRagContextSplits(hits: seq<Hit>)
    requires hits != []
    requires forall i :: 0 <= i < |hits| ==> ' ' !in hits[i].doc.pageContent
    ensures Text.Split(QueryRag(hits).context, " ") == PageContents(hits)
  {
    var texts := PageContents(hits);
    forall p | p in texts ensures !Text.Contains(p, " ") {
      Text.ContainsChar(p, ' ');
    }
    Text.SplitJoin(texts, " ");
  }
}
