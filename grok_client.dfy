/** The Feynman-article generator: the chat request sent to each provider, the check of the
    model's JSON reply, and the fallback from the primary provider to the secondary one. */
module GrokClient {
  import opened Wrappers
  import opened Text
  import opened News

  /** A value produced by `JSON.parse`. Numbers are integers in this model. */
  datatype Json =
    | JNull
    | JBool(b: bool)
    | JNumber(n: int)
    | JString(s: string)
    | JArray(items: seq<Json>)
    | JObject(fields: map<string, Json>)

  /** JavaScript truthiness of a property read: `None` is `undefined`. */
  predicate Truthy(v: Option<Json>) {
    match v
    case None => false
    case Some(j) =>
      match j
      case JNull => false
      case JBool(b) => b
      case JNumber(n) => n != 0
      case JString(s) => s != ""
      case JArray(_) => true
      case JObject(_) => true
  }

  /** `value || fallback`. */
  function Or(v: Option<Json>, fallback: Json): (r: Json)
    ensures Truthy(v) ==> Some(r) == v
    ensures !Truthy(v) ==> r == fallback
  {
    if Truthy(v) then v.value else fallback
  }

  /** Reading property `key` of a non-null value: only objects have the reply's property names. */
  function Get(v: Json, key: string): (r: Option<Json>)
    ensures r.Some? ==> v.JObject? && key in v.fields && r.value == v.fields[key]
    ensures v.JObject? && key in v.fields ==> r.Some?
  {
    if v.JObject? && key in v.fields then Some(v.fields[key]) else None
  }

  datatype QuestionType = Principle | Application | Opposite

  /** The type a question gets from its position alone. */
  function TypeAt(index: nat): (t: QuestionType)
    ensures index == 0 <==> t == Principle
    ensures index == 1 <==> t == Application
  {
    if index == 0 then Principle else if index == 1 then Application else Opposite
  }

  /** One question of the article; the texts are whatever the reply held (`None` when absent). */
  datatype Question = Question(question: Option<Json>, reasoning: Option<Json>, kind: QuestionType)

  /** The validated article. Fields are the reply's values, not checked against their declared types. */
  datatype FeynmanArticle = FeynmanArticle(
    feynmanTitle: Json,
    feynmanSummary: Json,
    feynmanContent: Json,
    questions: seq<Question>,
    tags: Json,
    targetAudience: Json,
    difficultyLevel: Json,
    educationContext: Json)

  /** Why generation failed: the two checks, a property read on `null`, a parse error, or a provider error. */
  datatype GenError =
    | InvalidStructure
    | WrongQuestionCount
    | NullProperty
    | ParseError(message: string)
    | ProviderError(message: string)

  const DefaultAudience := JString("teacher")
  const DefaultDifficulty := JNumber(3)

  /** The three reply properties whose absence (or falsiness) rejects the reply. */
  predicate HasRequiredFields(data: Json) {
    Truthy(Get(data, "feynmanTitle")) && Truthy(Get(data, "feynmanContent")) && Truthy(Get(data, "questions"))
  }

  /** `questions` is an array of exactly three entries. */
  predicate HasThreeQuestions(data: Json) {
    var q := Get(data, "questions");
    q.Some? && q.value.JArray? && |q.value.items| == 3
  }

  /** `questions.map(...)`: each entry's texts, the type by position; reading a property of `null` throws. */
  function MapQuestions(items: seq<Json>): (r: Result<seq<Question>, GenError>)
    ensures r.Success? <==> forall k :: 0 <= k < |items| ==> items[k] != JNull
    ensures r.Success? ==> |r.value| == |items|
    ensures r.Success? ==> forall k :: 0 <= k < |items| ==>
      r.value[k] == Question(Get(items[k], "question"), Get(items[k], "reasoning"), TypeAt(k))
    ensures r.Failure? ==> r.error == NullProperty
  {
    if items == [] then Success([])
    else
      var n := |items| - 1;
      var front := MapQuestions(items[..n]);
      if front.Failure? then front
      else if items[n] == JNull then Failure(NullProperty)
      else Success(front.value + [Question(Get(items[n], "question"), Get(items[n], "reasoning"), TypeAt(n))])
  }

  /** What every accepted article looks like: truthy title and content, three questions typed
      principle, application, opposite in that order, and optional fields that are truthy or their default. */
  predicate WellFormedArticle(a: FeynmanArticle) {
    && Truthy(Some(a.feynmanTitle)) && Truthy(Some(a.feynmanContent))
    && |a.questions| == 3
    && a.questions[0].kind == Principle && a.questions[1].kind == Application && a.questions[2].kind == Opposite
    && Truthy(Some(a.tags)) && Truthy(Some(a.targetAudience)) && Truthy(Some(a.difficultyLevel))
    && (Truthy(Some(a.feynmanSummary)) || a.feynmanSummary == JString(""))
    && (Truthy(Some(a.educationContext)) || a.educationContext == JString(""))
  }

  /** `validateFeynmanArticle`: reject a reply without title, content or questions, or without exactly
      three questions; otherwise copy it, retype the questions by position and fill falsy optional fields. */
  function ValidateFeynmanArticle(data: Json): (r: Result<FeynmanArticle, GenError>)
    ensures r.Success? ==> WellFormedArticle(r.value)
    ensures r == Failure(InvalidStructure) <==> data != JNull && !HasRequiredFields(data)
    ensures r == Failure(WrongQuestionCount) <==> data != JNull && HasRequiredFields(data) && !HasThreeQuestions(data)
    ensures r == Failure(NullProperty) <==>
      (data == JNull ||
       (HasRequiredFields(data) && HasThreeQuestions(data) &&
        exists k :: 0 <= k < 3 && Get(data, "questions").value.items[k] == JNull))
    ensures r.Failure? ==> r.error.NullProperty? || r.error.InvalidStructure? || r.error.WrongQuestionCount?
  {
    if data == JNull then Failure(NullProperty)
    else if !HasRequiredFields(data) then Failure(InvalidStructure)
    else if !HasThreeQuestions(data) then Failure(WrongQuestionCount)
    else
      var mapped := MapQuestions(Get(data, "questions").value.items);
      if mapped.Failure? then Failure(mapped.error)
      else
        Success(FeynmanArticle(
          Get(data, "feynmanTitle").value,
          Or(Get(data, "feynmanSummary"), JString("")),
          Get(data, "feynmanContent").value,
          mapped.value,
          Or(Get(data, "tags"), JArray([])),
          Or(Get(data, "targetAudience"), DefaultAudience),
          Or(Get(data, "difficultyLevel"), DefaultDifficulty),
          Or(Get(data, "educationContext"), JString(""))))
  }

  /** A reply is accepted exactly when it is not null, has the three required fields, has three
      questions and none of them is null. */
  lemma ValidateAcceptsIff(data: Json)
    ensures ValidateFeynmanArticle(data).Success? <==>
      && data != JNull && HasRequiredFields(data) && HasThreeQuestions(data)
      && forall k :: 0 <= k < 3 ==> Get(data, "questions").value.items[k] != JNull
  {
  }

  /** An accepted reply gives an article whose title, content and question texts are the reply's own. */
  lemma ValidatedArticleWellFormed(data: Json)
    requires ValidateFeynmanArticle(data).Success?
    ensures var a := ValidateFeynmanArticle(data).value;
      && Some(a.feynmanTitle) == Get(data, "feynmanTitle")
      && Some(a.feynmanContent) == Get(data, "feynmanContent")
      && forall k :: 0 <= k < 3 ==>
           a.questions[k].question == Get(Get(data, "questions").value.items[k], "question")
           && a.questions[k].reasoning == Get(Get(data, "questions").value.items[k], "reasoning")
  {
  }

  /** A falsy optional field gets its default; a truthy one is kept unchanged. */
  lemma OptionalFieldDefaults(data: Json)
    requires ValidateFeynmanArticle(data).Success?
    ensures var a := ValidateFeynmanArticle(data).value;
      && (!Truthy(Get(data, "feynmanSummary")) ==> a.feynmanSummary == JString(""))
      && (!Truthy(Get(data, "tags")) ==> a.tags == JArray([]))
      && (!Truthy(Get(data, "targetAudience")) ==> a.targetAudience == DefaultAudience)
      && (!Truthy(Get(data, "difficultyLevel")) ==> a.difficultyLevel == DefaultDifficulty)
      && (!Truthy(Get(data, "educationContext")) ==> a.educationContext == JString(""))
      && (Truthy(Get(data, "difficultyLevel")) ==> Some(a.difficultyLevel) == Get(data, "difficultyLevel"))
  {
  }

  /** The reply `{}` (what an empty completion is parsed as) is rejected for its missing fields. */
  lemma EmptyReplyRejected()
    ensures ValidateFeynmanArticle(JObject(map[])) == Failure(InvalidStructure)
  {
  }

  /** The JSON form of a question: absent texts stay absent, the type is written as its name. */
  function QuestionJson(q: Question): Json {
    var name := match q.kind
      case Principle => "principle"
      case Application => "application"
      case Opposite => "opposite";
    var texts := (if q.question.Some? then map["question" := q.question.value] else map[])
      + (if q.reasoning.Some? then map["reasoning" := q.reasoning.value] else map[]);
    JObject(texts["type" := JString(name)])
  }

  function QuestionsJson(qs: seq<Question>): (items: seq<Json>)
    ensures |items| == |qs| && forall k :: 0 <= k < |qs| ==> items[k] == QuestionJson(qs[k])
  {
    seq(|qs|, k requires 0 <= k < |qs| => QuestionJson(qs[k]))
  }

  /** The JSON form of an article, as the application stores it. */
  function ArticleJson(a: FeynmanArticle): Json {
    JObject(map[
      "feynmanTitle" := a.feynmanTitle,
      "feynmanSummary" := a.feynmanSummary,
      "feynmanContent" := a.feynmanContent,
      "questions" := JArray(QuestionsJson(a.questions)),
      "tags" := a.tags,
      "targetAudience" := a.targetAudience,
      "difficultyLevel" := a.difficultyLevel,
      "educationContext" := a.educationContext])
  }

  lemma QuestionJsonTexts(q: Question)
    ensures QuestionJson(q) != JNull
    ensures Get(QuestionJson(q), "question") == q.question
    ensures Get(QuestionJson(q), "reasoning") == q.reasoning
  {
    var texts := (if q.question.Some? then map["question" := q.question.value] else map[])
      + (if q.reasoning.Some? then map["reasoning" := q.reasoning.value] else map[]);
    assert "question" in texts <==> q.question.Some?;
    assert "reasoning" in texts <==> q.reasoning.Some?;
  }

  lemma ArticleJsonFields(a: FeynmanArticle)
    ensures var j := ArticleJson(a);
      && Get(j, "feynmanTitle") == Some(a.feynmanTitle)
      && Get(j, "feynmanSummary") == Some(a.feynmanSummary)
      && Get(j, "feynmanContent") == Some(a.feynmanContent)
      && Get(j, "tags") == Some(a.tags)
      && Get(j, "targetAudience") == Some(a.targetAudience)
      && Get(j, "difficultyLevel") == Some(a.difficultyLevel)
      && Get(j, "educationContext") == Some(a.educationContext)
      && Get(j, "questions") == Some(JArray(QuestionsJson(a.questions)))
  {
  }

  /** Questions typed by position are rebuilt unchanged from their JSON form. */
  lemma QuestionsRoundTrip(qs: seq<Question>)
    requires forall k :: 0 <= k < |qs| ==> qs[k].kind == TypeAt(k)
    ensures MapQuestions(QuestionsJson(qs)) == Success(qs)
  {
    var items := QuestionsJson(qs);
    forall k | 0 <= k < |qs|
      ensures items[k] != JNull
      ensures Question(Get(items[k], "question"), Get(items[k], "reasoning"), TypeAt(k)) == qs[k]
    {
      QuestionJsonTexts(qs[k]);
    }
    assert MapQuestions(items).value == qs;
  }

  /** A well-formed article is accepted unchanged from its JSON form. */
  lemma ValidateArticleJson(a: FeynmanArticle)
    requires WellFormedArticle(a)
    ensures ValidateFeynmanArticle(ArticleJson(a)) == Success(a)
  {
    ArticleJsonFields(a);
    QuestionsRoundTrip(a.questions);
  }

  /** Validation is a fixed point on its own output: checking an accepted article again changes nothing. */
  lemma ValidateIdempotent(data: Json)
    requires ValidateFeynmanArticle(data).Success?
    ensures var a := ValidateFeynmanArticle(data).value;
      ValidateFeynmanArticle(ArticleJson(a)) == Success(a)
  {
    ValidatedArticleWellFormed(data);
    ValidateArticleJson(ValidateFeynmanArticle(data).value);
  }

  /** The `difficultyLevel` of the reply is kept whatever its value: 7 is outside 1..5 and passes. */
  lemma DifficultyNotRangeChecked(title: string, content: string, items: seq<Json>)
    requires title != "" && content != "" && |items| == 3 && forall k :: 0 <= k < 3 ==> items[k] != JNull
    ensures var data := JObject(map[
        "feynmanTitle" := JString(title), "feynmanContent" := JString(content),
        "questions" := JArray(items), "difficultyLevel" := JNumber(7)]);
      ValidateFeynmanArticle(data).Success? && ValidateFeynmanArticle(data).value.difficultyLevel == JNumber(7)
  {
    var data := JObject(map[
        "feynmanTitle" := JString(title), "feynmanContent" := JString(content),
        "questions" := JArray(items), "difficultyLevel" := JNumber(7)]);
    assert Get(data, "questions") == Some(JArray(items));
    assert Get(data, "difficultyLevel") == Some(JNumber(7));
  }

  datatype Provider = Grok | OpenAI

  /** The category as the prompt writes it. */
  function CategoryName(c: Category): string {
    match c
    case AI => "AI"
    case Education => "Education"
    case AIEducation => "AI+Education"
  }

  /** The opening of the system prompt; the rest of its instructions are not part of this model. */
  function SystemPrompt(language: Language): (p: string)
    ensures p != ""
  {
    match language
    case Ko => "당신은 리처드 파인만 교수입니다."
    case En => "You are Professor Richard Feynman."
  }

  /** The labels of the prompt header, in the prompt's language. */
  function PromptLabels(language: Language): (labels: seq<string>)
    ensures |labels| == 4
  {
    match language
    case Ko => ["다음 뉴스를 파인만 기법으로 재작성하세요:\n\n**원본 뉴스:**\n제목: ", "\n내용: ", "\n출처: ", "\n카테고리: "]
    case En => ["Rewrite this news using the Feynman Technique:\n\n**Original News:**\nTitle: ", "\nContent: ", "\nSource: ", "\nCategory: "]
  }

  /** The header of the user prompt that carries the article; the step-by-step instructions after it
      are not part of this model. */
  function FeynmanPrompt(news: RawNews, language: Language): (p: string)
    ensures Contains(p, news.title) && Contains(p, news.content)
    ensures Contains(p, news.source) && Contains(p, CategoryName(news.category))
  {
    var labels := PromptLabels(language);
    var parts := [labels[0], news.title, labels[1], news.content, labels[2], news.source, labels[3], CategoryName(news.category)];
    PartOccurs(parts, 1);
    PartOccurs(parts, 3);
    PartOccurs(parts, 5);
    PartOccurs(parts, 7);
    Concat(parts)
  }

  /** A chat-completion request: model, system and user messages, JSON mode, temperature in tenths, token cap. */
  datatype ChatRequest = ChatRequest(
    model: string, system: string, user: string, jsonMode: bool, temperatureTenths: nat, maxTokens: nat)

  function ModelOf(provider: Provider): string {
    match provider
    case Grok => "grok-beta"
    case OpenAI => "gpt-4-turbo-preview"
  }

  /** The request `generateWithGrok` / `generateWithGPT4` sends. */
  function Request(provider: Provider, news: RawNews, language: Language): (q: ChatRequest)
    ensures q.model == ModelOf(provider)
    ensures q.jsonMode && q.temperatureTenths == 8 && q.maxTokens == 2000
  {
    ChatRequest(ModelOf(provider), SystemPrompt(language), FeynmanPrompt(news, language), true, 8, 2000)
  }

  /** Both providers are asked the same thing: the two requests differ only in the model name. */
  lemma SamePromptsForBothProviders(news: RawNews, language: Language)
    ensures Request(Grok, news, language) == Request(OpenAI, news, language).(model := "grok-beta")
    ensures Request(Grok, news, language).model != Request(OpenAI, news, language).model
  {
  }

  /** What a provider call gives: a thrown error, or the choices with their message contents. */
  datatype Completion = Threw(message: string) | Choices(contents: seq<Option<string>>)

  /** The text read from the reply: the first choice's content, or `{}` when it is missing or empty. */
  function ReplyText(contents: seq<Option<string>>): (text: string)
    requires contents != []
    ensures text != ""
    ensures contents[0].Some? && contents[0].value != "" ==> text == contents[0].value
  {
    if contents[0].None? || contents[0].value == "" then "{}" else contents[0].value
  }

  /** The reply text parsed and validated; a parse error is reported as such. */
  function ParseReply(text: string, parse: string -> Result<Json, string>): (r: Result<FeynmanArticle, GenError>)
    ensures r.Success? ==> WellFormedArticle(r.value)
    ensures r.Failure? ==> !r.error.ProviderError?
    ensures r.Failure? && r.error.ParseError? <==> parse(text).Failure?
  {
    match parse(text)
    case Failure(message) => Failure(ParseError(message))
    case Success(data) => ValidateFeynmanArticle(data)
  }

  /** A reply that parses is judged by validation alone. */
  lemma ParsedReplyIsValidated(text: string, parse: string -> Result<Json, string>)
    requires parse(text).Success?
    ensures ParseReply(text, parse) == ValidateFeynmanArticle(parse(text).value)
  {
  }

  /** `response.choices[0].message.content || '{}'`, parsed and validated. */
  function GenerateWith(provider: Provider, news: RawNews, language: Language,
                        call: ChatRequest -> Completion, parse: string -> Result<Json, string>): (r: Result<FeynmanArticle, GenError>)
    ensures r.Success? ==> WellFormedArticle(r.value)
    ensures r.Failure? && r.error.ProviderError? <==> call(Request(provider, news, language)).Threw?
    ensures call(Request(provider, news, language)).Threw? ==>
      r == Failure(ProviderError(call(Request(provider, news, language)).message))
    ensures r.Failure? && r.error.ParseError? ==> call(Request(provider, news, language)).Choices?
  {
    var completion := call(Request(provider, news, language));
    match completion
    case Threw(message) => Failure(ProviderError(message))
    case Choices(contents) =>
      if contents == [] then Failure(NullProperty) else ParseReply(ReplyText(contents), parse)
  }

  /** A provider that answers with choices has its first choice parsed and validated. */
  lemma AnsweredCallIsParsed(provider: Provider, news: RawNews, language: Language,
                             call: ChatRequest -> Completion, parse: string -> Result<Json, string>)
    requires call(Request(provider, news, language)).Choices?
    requires call(Request(provider, news, language)).contents != []
    ensures GenerateWith(provider, news, language, call, parse)
      == ParseReply(ReplyText(call(Request(provider, news, language)).contents), parse)
  {
  }

  /** `generateFeynmanArticle`: the primary provider's article, or on any failure the fallback's outcome. */
  function GenerateFeynmanArticle(news: RawNews, language: Language,
                                  call: ChatRequest -> Completion, parse: string -> Result<Json, string>): (r: Result<FeynmanArticle, GenError>)
    ensures r.Success? ==> WellFormedArticle(r.value)
    ensures r.Failure? ==> GenerateWith(Grok, news, language, call, parse).Failure?
    ensures r.Failure? ==> r == GenerateWith(OpenAI, news, language, call, parse)
  {
    var primary := GenerateWith(Grok, news, language, call, parse);
    if primary.Success? then primary else GenerateWith(OpenAI, news, language, call, parse)
  }

  /** The fallback is asked only when the primary failed; then its outcome, success or error, is the result. */
  lemma FallbackSequencing(news: RawNews, language: Language,
                           call: ChatRequest -> Completion, parse: string -> Result<Json, string>)
    ensures var primary := GenerateWith(Grok, news, language, call, parse);
      var fallback := GenerateWith(OpenAI, news, language, call, parse);
      var r := GenerateFeynmanArticle(news, language, call, parse);
      && (primary.Success? ==> r == primary)
      && (primary.Failure? ==> r == fallback)
      && (r.Failure? <==> primary.Failure? && fallback.Failure?)
  {
    var primary := GenerateWith(Grok, news, language, call, parse);
    assert GenerateFeynmanArticle(news, language, call, parse)
      == if primary.Success? then primary else GenerateWith(OpenAI, news, language, call, parse);
  }

  /** An empty completion is read as `{}` and rejected, so a provider answering with no content fails. */
  lemma EmptyCompletionRejected(provider: Provider, news: RawNews, language: Language,
                                call: ChatRequest -> Completion, parse: string -> Result<Json, string>)
    requires call(Request(provider, news, language)) == Choices([Some("")])
    requires parse("{}") == Success(JObject(map[]))
    ensures GenerateWith(provider, news, language, call, parse) == Failure(InvalidStructure)
  {
    AnsweredCallIsParsed(provider, news, language, call, parse);
    assert ReplyText([Some("")]) == "{}";
    EmptyReplyRejected();
    ParsedReplyIsValidated("{}", parse);
  }
}
