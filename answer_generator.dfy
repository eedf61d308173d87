/** The answer step: from the retrieved context and the metadata of the
    closest bill, derive the opening sentence and the suggested search terms,
    build the prompt and the chat-completion request, and turn the
    completion into the answer text. */
module AnswerGenerator {
  import opened Common
  import Text
  import Json
  import LexOrder
  import TranslateKeyword

  /** Python's slice `s[a:b]` for non-negative bounds: both bounds are
      clamped to the length, and a lower bound past the upper one gives "". */
  function Slice(s: string, a: nat, b: nat): (r: string)
    ensures a <= b <= |s| ==> r == s[a..b]
    ensures b < a ==> r == ""
  {
    var lo := if a < |s| then a else |s|;
    var hi := if b < |s| then b else |s|;
    if lo <= hi then s[lo..hi] else ""
  }

  /** A title split into the proposer note and the bare bill name. */
  datatype TitleParts = TitleParts(proposer: string, bare: string)

  /** The title handling: when the title holds both "(" and ")", the
      proposer is the text between the first "(" and the first ")" and the
      bare title is the stripped text before the first "("; otherwise the
      title is kept whole and there is no proposer. */
  function SplitTitle(title: string): TitleParts
  {
    if Text.Contains(title, "(") && Text.Contains(title, ")") then
      var open := Text.Find(title, "(");
      var close := Text.Find(title, ")");
      TitleParts(Slice(title, open + 1, close), Text.Strip(Slice(title, 0, open)))
    else
      TitleParts("", title)
  }

  /** A title without a "(" or without a ")" is kept whole. */
  lemma SplitTitleUnbracketed(title: string)
    requires '(' !in title || ')' !in title
    ensures SplitTitle(title) == TitleParts("", title)
  {
    Text.ContainsChar(title, '(');
    Text.ContainsChar(title, ')');
  }

  /** A missing title reads "N/A", which names no proposer. */
  lemma MissingTitleNoProposer(meta: Meta)
    requires "title" !in meta
    ensures SplitTitle(Json.Get(meta, "title", "N/A")) == TitleParts("", "N/A")
  {
    SplitTitleUnbracketed("N/A");
  }

  /** The usual title shape `bare(proposer)rest`: the proposer note comes
      back out, and the bare title is the stripped name before it. */
  lemma SplitTitleComposed(bare: string, proposer: string, rest: string)
    requires '(' !in bare && ')' !in bare && ')' !in proposer
    ensures SplitTitle(bare + "(" + proposer + ")" + rest)
            == TitleParts(proposer, Text.Strip(bare))
  {
    var title := bare + "(" + proposer + ")" + rest;
    assert title == bare + ['('] + (proposer + ")" + rest);
    Text.FindCharAfter(bare, '(', proposer + ")" + rest);
    assert title == (bare + "(" + proposer) + [')'] + rest;
    Text.FindCharAfter(bare + "(" + proposer, ')', rest);
    assert title[..|bare|] == bare;
    assert title[|bare| + 1..|bare| + 1 + |proposer|] == proposer;
  }

  /** A ")" before the first "(" gives no proposer, yet the title is still
      cut at the "(". */
  lemma SplitTitleCloseFirst(before: string, between: string, rest: string)
    requires ')' !in before && '(' !in before && '(' !in between
    ensures SplitTitle(before + ")" + between + "(" + rest)
            == TitleParts("", Text.Strip(before + ")" + between))
  {
    var title := before + ")" + between + "(" + rest;
    assert title == before + [')'] + (between + "(" + rest);
    Text.FindCharAfter(before, ')', between + "(" + rest);
    assert title == (before + ")" + between) + ['('] + rest;
    Text.FindCharAfter(before + ")" + between, '(', rest);
    assert title[..|before + ")" + between|] == before + ")" + between;
  }

  /** The session phrase: "{session}대 국회", or "국회 회기 정보 없음" when the
      session is missing (or is the text "N/A"). */
  const NoSessionPhrase: string := "국회 회기 정보 없음"

  function SessionPhrase(meta: Meta): (r: string)
    ensures r == NoSessionPhrase <==> Json.Get(meta, "session", "N/A") == "N/A"
    ensures Json.Get(meta, "session", "N/A") != "N/A" ==> r == Json.Get(meta, "session", "N/A") + "대 국회"
  {
    var session := Json.Get(meta, "session", "N/A");
    if session != "N/A" then
      var r := session + "대 국회";
      assert r[|r| - 1] != NoSessionPhrase[|NoSessionPhrase| - 1];
      r
    else NoSessionPhrase
  }

  /** The suggested search term of a term list: its first ", "-separated
      piece. The "N/A" fallback of the source is never taken, because a
      split always has a first piece. */
  function FirstTerm(s: string): (r: string)
    ensures !Text.Contains(s, ", ") ==> r == s
    ensures Text.Contains(s, ", ") ==> r == s[..Text.Find(s, ", ")]
  {
    Text.SplitHead(s, ", ");
    var terms := Text.Split(s, ", ");
    if |terms| > 0 then terms[0] else "N/A"
  }

  /** On a deduplicated term list, the suggested term is the smallest term
      of the original list. */
  lemma FirstTermOfDeduped(s: string)
    ensures FirstTerm(TranslateKeyword.DedupTerms(s)) in TranslateKeyword.Terms(s)
    ensures forall t :: t in TranslateKeyword.Terms(s) ==>
              t == FirstTerm(TranslateKeyword.DedupTerms(s))
              || LexOrder.Less(FirstTerm(TranslateKeyword.DedupTerms(s)), t)
  {
    var d := TranslateKeyword.DedupTerms(s);
    var ts := TranslateKeyword.Terms(d);
    Text.SplitHead(d, ", ");
    assert FirstTerm(d) == ts[0];
    assert ts[0] in ts;
    forall t | t in TranslateKeyword.Terms(s)
      ensures t == ts[0] || LexOrder.Less(ts[0], t)
    {
      assert t in ts;
    }
  }

  /** The opening of the first sentence, up to the bill name. */
  function Opening(date: string, bare: string): string
  {
    "의안정보시스템에 " + date + "에 게시된 법률안 검토 보고서에 따르면, '" + bare + "'은 "
  }

  /** The proposer clause, present only when there is a proposer. */
  function ProposerClause(proposer: string): string
  {
    proposer + "이 발의하였으며, "
  }

  /** The close of the first sentence. */
  function Closing(committee: string, sessionPhrase: string): string
  {
    committee + "에서 소관하는 법률안으로 " + sessionPhrase + "에서 공개되었습니다."
  }

  /** The first sentence the answer is told to start with. */
  function FirstSentence(meta: Meta): string
  {
    var parts := SplitTitle(Json.Get(meta, "title", "N/A"));
    var first := Opening(Json.Get(meta, "date", "N/A"), parts.bare);
    var first := if parts.proposer != "" then first + ProposerClause(parts.proposer) else first;
    first + Closing(Json.Get(meta, "committee", "N/A"), SessionPhrase(meta))
  }

  /** The first sentence opens with the date and bare title, closes with the
      committee and session, and holds the proposer clause in between
      exactly when the title names a proposer. */
  lemma FirstSentenceShape(meta: Meta)
    ensures var parts := SplitTitle(Json.Get(meta, "title", "N/A"));
            var opening := Opening(Json.Get(meta, "date", "N/A"), parts.bare);
            var closing := Closing(Json.Get(meta, "committee", "N/A"), SessionPhrase(meta));
            var s := FirstSentence(meta);
            |opening| + |closing| <= |s|
            && s[..|opening|] == opening
            && s[|s| - |closing|..] == closing
            && (parts.proposer == "" <==> |s| == |opening| + |closing|)
            && (parts.proposer != "" ==> s[|opening|..|s| - |closing|] == ProposerClause(parts.proposer))
  {
    var parts := SplitTitle(Json.Get(meta, "title", "N/A"));
    var opening := Opening(Json.Get(meta, "date", "N/A"), parts.bare);
    var closing := Closing(Json.Get(meta, "committee", "N/A"), SessionPhrase(meta));
    var middle := if parts.proposer != "" then ProposerClause(parts.proposer) else "";
    assert FirstSentence(meta) == opening + middle + closing;
    assert parts.proposer != "" ==> |middle| > 0;
    Framed(opening, middle, closing);
  }

  /** The pieces of a string laid end to end can be read back from it. */
  lemma Framed(opening: string, middle: string, closing: string)
    ensures var s := opening + middle + closing;
            s[..|opening|] == opening && s[|s| - |closing|..] == closing
            && s[|opening|..|s| - |closing|] == middle
  {
  }

  /** For a title of the usual shape `bare(proposer)rest` with a proposer,
      the first sentence names the bare title, then the proposer, then the
      committee and the session. */
  lemma FirstSentenceWithProposer(meta: Meta, bare: string, proposer: string, rest: string)
    requires Json.Get(meta, "title", "N/A") == bare + "(" + proposer + ")" + rest
    requires '(' !in bare && ')' !in bare && ')' !in proposer && proposer != ""
    ensures FirstSentence(meta)
            == Opening(Json.Get(meta, "date", "N/A"), Text.Strip(bare)) + ProposerClause(proposer)
               + Closing(Json.Get(meta, "committee", "N/A"), SessionPhrase(meta))
  {
    SplitTitleComposed(bare, proposer, rest);
  }

  /** The search site the closing suggestion links to. */
  const SearchSite: string := "https://likms.assembly.go.kr/bill/main.do"

  /** The user prompt, by its variable parts: the metadata block (label and
      value, "N/A" for a missing key), the first sentence, the suggested
      Korean and English terms, the search site, the context and the
      question. The fixed instruction text around them is not modelled. */
  datatype Prompt = Prompt(
    metadataBlock: seq<(string, string)>,
    firstSentence: string,
    koreanTerm: string,
    englishTerm: string,
    searchSite: string,
    context: string,
    question: string)

  /** The labels of the metadata block and the keys they show, in order. */
  const MetadataLabels: seq<(string, string)> := [
    ("Title", "title"), ("Session", "session"), ("Committee", "committee"),
    ("Date", "date"), ("Amendment", "amendment"), ("Enactment", "enactment"),
    ("Terminology", "terminology"), ("Terminology_en", "terminology_en")
  ]

  function MetadataBlock(meta: Meta): (block: seq<(string, string)>)
    ensures |block| == |MetadataLabels|
    ensures forall i :: 0 <= i < |block| ==>
              block[i].0 == MetadataLabels[i].0
              && (MetadataLabels[i].1 in meta ==> block[i].1 == meta[MetadataLabels[i].1])
              && (MetadataLabels[i].1 !in meta ==> block[i].1 == "N/A")
  {
    seq(|MetadataLabels|, i requires 0 <= i < |MetadataLabels| =>
      (MetadataLabels[i].0, Json.Get(meta, MetadataLabels[i].1, "N/A")))
  }

  /** The prompt for a question, a context and the metadata. The term
      lists default to "" here but to "N/A" in the metadata block. */
  function BuildPrompt(query: string, context: string, meta: Meta): (p: Prompt)
    ensures p.question == query && p.context == context
    ensures p.searchSite == SearchSite
    ensures p.koreanTerm == FirstTerm(Json.Get(meta, "terminology", ""))
    ensures p.englishTerm == FirstTerm(Json.Get(meta, "terminology_en", ""))
    ensures p.firstSentence == FirstSentence(meta) && p.metadataBlock == MetadataBlock(meta)
  {
    Prompt(MetadataBlock(meta), FirstSentence(meta),
           FirstTerm(Json.Get(meta, "terminology", "")),
           FirstTerm(Json.Get(meta, "terminology_en", "")),
           SearchSite, context, query)
  }

  /** A missing term list suggests the empty term, while the metadata block
      shows "N/A" for it. */
  lemma MissingTermsDefaults(query: string, context: string, meta: Meta)
    requires "terminology" !in meta
    ensures BuildPrompt(query, context, meta).koreanTerm == ""
    ensures BuildPrompt(query, context, meta).metadataBlock[6] == ("Terminology", "N/A")
  {
    assert !Text.Contains("", ", ");
  }

  /** The chat-completion request. */
  datatype ChatRequest = ChatRequest(
    model: string,
    systemMessage: string,
    userPrompt: Prompt,
    maxTokens: nat,
    temperature: real)

  const SystemMessage: string :=
    "메타데이터와 컨텍스트를 기반으로 사용자가 이해하기 쉬운 답변을 작성하십시오. 최종적으로 논리적인 흐름을 가진 답변을 제공하십시오 "

  function Request(p: Prompt): (req: ChatRequest)
    ensures req.userPrompt == p
    ensures req.model == "gpt-4o-mini" && req.maxTokens == 400 && req.temperature == 0.7
  {
    ChatRequest("gpt-4o-mini", SystemMessage, p, 400, 0.7)
  }

  /** What the chat-completion service gave: the first choice's message
      content, or an exception (network, authentication, quota, ...). */
  datatype Completion = Ok(content: string) | Failed

  /** The answer text: the stripped content, or "" after an exception. */
  function AnswerFrom(c: Completion): (answer: string)
    ensures c.Failed? ==> answer == ""
    ensures c.Ok? ==> Text.StripsTo(c.content, answer)
  {
    match c
    case Ok(content) =>
      Text.StripStripsTo(content);
      Text.Strip(content)
    case Failed => ""
  }

  /** A completion that is only whitespace gives the same answer as a
      failed call, so a caller cannot tell the two apart. */
  lemma BlankCompletionLooksFailed(content: string)
    requires forall i :: 0 <= i < |content| ==> Text.IsSpace(content[i])
    ensures AnswerFrom(Ok(content)) == AnswerFrom(Failed)
  {
    AllSpaceTrimsAway(content);
  }

  /** Whitespace alone strips to nothing. */
  lemma {:induction false} AllSpaceTrimsAway(s: string)
    requires forall i :: 0 <= i < |s| ==> Text.IsSpace(s[i])
    ensures Text.TrimStart(s) == ""
  {
    if s != [] {
      AllSpaceTrimsAway(s[1..]);
    }
  }

  /** `generate_answer` of the chatbot module. The completion service is the
      parameter `complete`; the module-level API key is not modelled. */
  function GenerateAnswer(query: string, context: string, meta: Meta,
                          complete: ChatRequest -> Completion): (answer: string)
    ensures var req := Request(BuildPrompt(query, context, meta));
            (complete(req).Failed? ==> answer == "")
            && (complete(req).Ok? ==> answer == Text.Strip(complete(req).content))
  {
    AnswerFrom(complete(Request(BuildPrompt(query, context, meta))))
  }
}
