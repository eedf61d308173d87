/** The question form of the web app: on submit, retrieve the context and
    metadata for the question, generate the answer and show it, or show the
    error. */
module ChatbotApp {
  import Common
  import Text
  import AnswerGenerator
  import ChromaQueryRag

  /** The app's `generate_answer`: the chatbot module's derivation with the
      API key set first. The completion service receives the key with each
      request. */
  function GenerateAnswer(apiKey: string, query: string, context: string, meta: Common.Meta,
                          complete: (string, AnswerGenerator.ChatRequest) -> AnswerGenerator.Completion): (answer: string)
    ensures answer == AnswerGenerator.GenerateAnswer(query, context, meta, req => complete(apiKey, req))
  {
    var prompt := AnswerGenerator.BuildPrompt(query, context, meta);
    AnswerGenerator.AnswerFrom(complete(apiKey, AnswerGenerator.Request(prompt)))
  }

  /** The parameters of the app's `generate_answer`, none with a default. */
  const GenerateAnswerParams: seq<string> := ["api_key", "query_text", "context", "metadata"]

  /** A natural number in decimal. */
  function Decimal(n: nat): (s: string)
    ensures s != []
  {
    if n < 10 then ["0123456789"[n]] else Decimal(n / 10) + ["0123456789"[n % 10]]
  }

  function Quoted(name: string): string
  {
    "'" + name + "'"
  }

  /** Python's listing of missing parameter names: "'a'", "'a' and 'b'",
      "'a', 'b', and 'c'". */
  function NameList(names: seq<string>): string
    requires names != []
  {
    var last := Quoted(names[|names| - 1]);
    if |names| == 1 then last
    else if |names| == 2 then Quoted(names[0]) + " and " + last
    else
      Text.Join(seq(|names| - 1, i requires 0 <= i < |names| - 1 => Quoted(names[i])), ", ")
      + ", and " + last
  }

  /** Python's check of a call with `argCount` positional arguments against
      `params`, none of which has a default: the TypeError message when the
      counts differ, nothing when they agree. */
  function ArityCheck(name: string, params: seq<string>, argCount: nat): (error: Common.Option<string>)
    ensures error.None? <==> argCount == |params|
  {
    if argCount < |params| then
      var missing := params[argCount..];
      Common.Some(name + "() missing " + Decimal(|missing|) + " required positional argument"
           + (if |missing| == 1 then "" else "s") + ": " + NameList(missing))
    else if argCount > |params| then
      Common.Some(name + "() takes " + Decimal(|params|) + " positional argument"
           + (if |params| == 1 then "" else "s") + " but " + Decimal(argCount)
           + (if argCount == 1 then " was given" else " were given"))
    else Common.None
  }

  /** What the form shows after a submit. */
  datatype Display =
    | Shown(answer: string, context: string, metadata: Common.Meta)
    | Warning(text: string)
    | Error(text: string)

  /** The submit branch as written: after a successful retrieval it calls
      `generate_answer(user_input, context, metadata)`, three positional
      arguments for four parameters, so Python raises TypeError before the
      body runs and the generic handler shows its message. A ValueError
      from retrieval is shown as a warning. */
  function SubmitAsWritten(apiKey: string, userInput: string, hits: seq<ChromaQueryRag.Hit>,
                           complete: (string, AnswerGenerator.ChatRequest) -> AnswerGenerator.Completion): (d: Display)
    ensures hits == [] ==> d == Warning("Error: " + ChromaQueryRag.NoContextMessage)
    ensures hits != [] ==> d.Error?
  {
    match ChromaQueryRag.QueryRag(hits)
    case ValueError(message) => Warning("Error: " + message)
    case Found(context, metadata) =>
      Error("Unexpected Error: " + ArityCheck("generate_answer", GenerateAnswerParams, 3).value)
  }

  /** The message Python gives for the three-argument call. */
  const MissingMetadataMessage: string :=
    "generate_answer() missing 1 required positional argument: 'metadata'"

  /** The message assembled from its pieces is the literal above. The
      pieces are joined in small steps, because the verifier joins string
      literals only pairwise and runs out of resource on the whole chain. */
  lemma MissingMetadataMessageParts()
    ensures "generate_answer" + "() missing " + "1" + " required positional argument" + "" + ": " + "'metadata'"
            == MissingMetadataMessage
  {
    MessageHead();
    MessageMiddle();
    MessageTail();
  }

  lemma MessageHead()
    ensures "generate_answer" + "() missing " + "1" == "generate_answer() missing 1"
  {
    assert "generate_answer" + "() missing " == "generate_answer() missing ";
  }

  lemma MessageMiddle()
    ensures "generate_answer() missing 1" + " required positional argument" + "" + ": "
            == "generate_answer() missing 1 required positional argument: "
  {
    assert "generate_answer() missing 1" + " required positional argument"
           == "generate_answer() missing 1 required positional argument";
  }

  lemma MessageTail()
    ensures "generate_answer() missing 1 required positional argument: " + "'metadata'" == MissingMetadataMessage
  {
  }

  /** Three arguments leave `metadata` unbound. */
  lemma ThreeArgumentsMissMetadata()
    ensures ArityCheck("generate_answer", GenerateAnswerParams, 3) == Common.Some(MissingMetadataMessage)
  {
    var missing := GenerateAnswerParams[3..];
    assert missing == ["metadata"];
    assert Decimal(|missing|) == "1";
    assert NameList(missing) == "'metadata'";
    assert ArityCheck("generate_answer", GenerateAnswerParams, 3)
           == Common.Some("generate_answer" + "() missing " + Decimal(|missing|) + " required positional argument"
                          + "" + ": " + NameList(missing));
    MissingMetadataMessageParts();
  }

  /** As written, no question is ever answered: every successful retrieval
      ends in the missing-argument error. */
  lemma AsWrittenNeverAnswers(apiKey: string, userInput: string, hits: seq<ChromaQueryRag.Hit>,
                              complete: (string, AnswerGenerator.ChatRequest) -> AnswerGenerator.Completion)
    requires hits != []
    ensures SubmitAsWritten(apiKey, userInput, hits, complete)
            == Error("Unexpected Error: " + MissingMetadataMessage)
  {
    ThreeArgumentsMissMetadata();
  }

  /** The submit branch with the key passed as the first argument: the
      answer is shown with the context and metadata it was drawn from. */
  function SubmitCorrected(apiKey: string, userInput: string, hits: seq<ChromaQueryRag.Hit>,
                           complete: (string, AnswerGenerator.ChatRequest) -> AnswerGenerator.Completion): (d: Display)
    ensures hits == [] ==> d == Warning("Error: " + ChromaQueryRag.NoContextMessage)
    ensures hits != [] ==>
              d.Shown?
              && d.context == Text.Join(ChromaQueryRag.PageContents(hits), " ")
              && d.metadata == hits[0].doc.metadata
              && d.answer == GenerateAnswer(apiKey, userInput, d.context, d.metadata, complete)
  {
    match ChromaQueryRag.QueryRag(hits)
    case ValueError(message) => Warning("Error: " + message)
    case Found(context, metadata) =>
      Shown(GenerateAnswer(apiKey, userInput, context, metadata, complete), context, metadata)
  }

  /** The corrected call passes as many arguments as there are parameters. */
  lemma CorrectedCallBinds()
    ensures ArityCheck("generate_answer", GenerateAnswerParams, 4).None?
    ensures ArityCheck("generate_answer", GenerateAnswerParams, 3).Some?
  {
  }

  /** The two versions differ only after a successful retrieval. */
  lemma SubmitVersionsAgreeOnEmpty(apiKey: string, userInput: string,
                                   complete: (string, AnswerGenerator.ChatRequest) -> AnswerGenerator.Completion)
    ensures SubmitAsWritten(apiKey, userInput, [], complete) == SubmitCorrected(apiKey, userInput, [], complete)
  {
  }

  /** A failed completion still shows a success box, with an empty answer. */
  lemma FailedCompletionShowsEmptyAnswer(apiKey: string, userInput: string, hits: seq<ChromaQueryRag.Hit>,
                                         complete: (string, AnswerGenerator.ChatRequest) -> AnswerGenerator.Completion)
    requires hits != []
    requires forall key, req :: complete(key, req) == AnswerGenerator.Failed
    ensures SubmitCorrected(apiKey, userInput, hits, complete).Shown?
    ensures SubmitCorrected(apiKey, userInput, hits, complete).answer == ""
  {
  }
}
