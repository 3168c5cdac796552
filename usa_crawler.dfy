/**
 * The US crawler: its source registry, the Ars Technica title filter, the
 * lower-cased keyword classifier over title and snippet, the item loop of
 * one feed and the source loop over the registry.
 */
module UsaCrawler {
  import opened Wrappers
  import opened Text
  import opened News
  import opened NewsId
  import opened Feeds

  datatype TitleFilter = AnyTitle | ArsTechnicaAi

  datatype Source = Source(name: string, url: string, filter: TitleFilter)

  const AiSources: seq<Source> := [
    Source("TechCrunch AI", "https://techcrunch.com/tag/artificial-intelligence/feed/", AnyTitle),
    Source("VentureBeat AI", "https://venturebeat.com/category/ai/feed/", AnyTitle),
    Source("MIT Technology Review", "https://www.technologyreview.com/topic/artificial-intelligence/feed/", AnyTitle),
    Source("The Verge AI", "https://www.theverge.com/rss/ai-artificial-intelligence/index.xml", AnyTitle),
    Source("Ars Technica AI", "https://feeds.arstechnica.com/arstechnica/technology-lab", ArsTechnicaAi)
  ]

  const EducationSources: seq<Source> := [
    Source("EdSurge", "https://www.edsurge.com/news.rss", AnyTitle),
    Source("eSchool News", "https://www.eschoolnews.com/feed/", AnyTitle),
    Source("THE Journal", "https://thejournal.com/rss-feeds/news.aspx", AnyTitle),
    Source("EdTech Magazine", "https://edtechmagazine.com/higher/rss.xml", AnyTitle)
  ]

  /** Ars Technica's technology feed is general: only titles mentioning AI, in any case, are taken.
      Both words the filter looks for are AI keywords of the classifier. */
  function Accepts(filter: TitleFilter, title: string): (accepted: bool)
    ensures filter == AnyTitle ==> accepted
    ensures filter == ArsTechnicaAi && accepted ==> MentionsAny(ToLower(title), AiKeywords)
  {
    match filter
    case AnyTitle => true
    case ArsTechnicaAi =>
      assert AiKeywords[0] == "ai" && AiKeywords[1] == "artificial intelligence";
      Contains(ToLower(title), "ai") || Contains(ToLower(title), "artificial intelligence")
  }

  const AiKeywords: seq<string> :=
    ["ai", "artificial intelligence", "gpt", "chatbot", "machine learning", "deep learning", "llm", "generative"]

  const EducationKeywords: seq<string> :=
    ["education", "school", "student", "teacher", "classroom", "learning", "university", "edtech"]

  const Vocabulary: seq<string> := [
    "AI", "ChatGPT", "GPT", "Claude", "Gemini", "OpenAI", "Anthropic", "Google", "Microsoft",
    "education", "school", "student", "teacher", "learning", "edtech"
  ]

  /** The text the classifier searches: title, a space and snippet, lower-cased. */
  function ClassifiedText(title: string, snippet: string): (t: string)
    ensures |t| == |title| + 1 + |snippet|
    ensures t == ToLower(title) + " " + ToLower(snippet)
  {
    ToLowerAppend(title + " ", snippet);
    ToLowerAppend(title, " ");
    ToLower(title + " " + snippet)
  }

  /** The category from the keywords of title and snippet; the source's category only when none matches. */
  function Categorize(title: string, snippet: string, default: SourceCategory): (c: Category)
    ensures var t := ClassifiedText(title, snippet);
      && (MentionsAny(t, AiKeywords) && MentionsAny(t, EducationKeywords) ==> c == AIEducation)
      && (MentionsAny(t, AiKeywords) && !MentionsAny(t, EducationKeywords) ==> c == AI)
      && (!MentionsAny(t, AiKeywords) && MentionsAny(t, EducationKeywords) ==> c == Education)
      && (!MentionsAny(t, AiKeywords) && !MentionsAny(t, EducationKeywords) ==> c == default)
  {
    var text := ClassifiedText(title, snippet);
    var hasAi := MentionsAny(text, AiKeywords);
    var hasEdu := MentionsAny(text, EducationKeywords);
    if hasAi && hasEdu then AIEducation
    else if hasAi then AI
    else if hasEdu then Education
    else default
  }

  /** A keyword in the lower-cased title is found whatever the snippet holds. */
  lemma TitleSignalKept(title: string, snippet: string, keywords: seq<string>)
    requires MentionsAny(ToLower(title), keywords)
    ensures MentionsAny(ClassifiedText(title, snippet), keywords)
  {
    MentionsAnyExtended(ToLower(title), " " + ToLower(snippet), keywords);
    assert ToLower(title) + (" " + ToLower(snippet)) == ToLower(title) + " " + ToLower(snippet);
  }

  /** A title naming both AI and education is AI+Education whatever the snippet and the source's category. */
  lemma TitleDecidesAIEducation(title: string, snippet: string, d: SourceCategory)
    requires MentionsAny(ToLower(title), AiKeywords) && MentionsAny(ToLower(title), EducationKeywords)
    ensures Categorize(title, snippet, d) == AIEducation
  {
    TitleSignalKept(title, snippet, AiKeywords);
    TitleSignalKept(title, snippet, EducationKeywords);
  }

  /** An Ars Technica title the filter lets through is always classified as AI or AI+Education. */
  lemma ArsTechnicaTitlesAreAi(title: string, snippet: string, d: SourceCategory)
    requires Accepts(ArsTechnicaAi, title)
    ensures Categorize(title, snippet, d) == AI || Categorize(title, snippet, d) == AIEducation
  {
    TitleSignalKept(title, snippet, AiKeywords);
  }

  /** Matching is by substring: "ai" inside "said" makes a teachers' story AI+Education. */
  lemma SaidCountsAsAi(d: SourceCategory)
    ensures Categorize("Teacher said", "", d) == AIEducation
  {
    var t := ClassifiedText("Teacher said", "");
    assert t == "teacher said ";
    ContainsAt(t, AiKeywords[0], 9);
    ContainsAt(t, EducationKeywords[3], 0);
  }

  /** The vocabulary entries found in the title, both sides lower-cased, in vocabulary order. */
  function ExtractKeywords(title: string): (r: seq<string>)
    ensures forall kw :: kw in r <==> kw in Vocabulary && Contains(ToLower(title), ToLower(kw))
    ensures IsSubsequence(r, Vocabulary)
  {
    KeywordsIn(title, Vocabulary, true)
  }

  /** The stored content: the snippet, else the full content, at most 500 characters. */
  function Excerpt(item: FeedItem): (r: string)
    ensures |r| <= MaxContentLength && |r| <= |OrElse(item.contentSnippet, OrElse(item.content, ""))|
    ensures r == OrElse(item.contentSnippet, OrElse(item.content, ""))[..|r|]
    ensures var source := OrElse(item.contentSnippet, OrElse(item.content, ""));
      |r| == if |source| <= MaxContentLength then |source| else MaxContentLength
  {
    Take(OrElse(item.contentSnippet, OrElse(item.content, "")), MaxContentLength)
  }

  /** The record built for one accepted item. */
  function ToRecord(item: FeedItem, source: Source, category: SourceCategory, country: Country,
                    now: string): (n: RawNews)
    ensures n.url == OrElse(item.link, "") && n.id == GenerateId(n.url)
    ensures n.title == OrElse(item.title, "")
    ensures n.source == source.name && n.country == country && n.status == Pending
    ensures n.content == Excerpt(item)
    ensures |n.content| <= MaxContentLength
    ensures n.publishedAt == OrElse(item.pubDate, now) && n.crawledAt == now
    ensures n.category == Categorize(n.title, OrElse(item.contentSnippet, ""), category)
    ensures n.keywords == ExtractKeywords(n.title)
  {
    var title := OrElse(item.title, "");
    var url := OrElse(item.link, "");
    RawNews(
      id := GenerateId(url),
      title := title,
      content := Excerpt(item),
      source := source.name,
      url := url,
      publishedAt := OrElse(item.pubDate, now),
      crawledAt := now,
      category := Categorize(title, OrElse(item.contentSnippet, ""), category),
      country := country,
      status := Pending,
      keywords := ExtractKeywords(title))
  }

  predicate Kept(source: Source, item: FeedItem) {
    Accepts(source.filter, OrElse(item.title, ""))
  }

  /** Per item of the window: its record if the title passes the filter, nothing otherwise. */
  function Candidates(source: Source, category: SourceCategory, country: Country, items: seq<FeedItem>,
                      now: string): (c: seq<Option<RawNews>>)
    ensures |c| == |items|
    ensures forall i :: 0 <= i < |items| ==>
      c[i] == if Kept(source, items[i]) then Some(ToRecord(items[i], source, category, country, now)) else None
  {
    seq(|items|, i requires 0 <= i < |items| =>
      if Kept(source, items[i]) then Some(ToRecord(items[i], source, category, country, now)) else None)
  }

  /** The records of the items that pass the source's filter, in feed order. */
  function FeedRecords(source: Source, category: SourceCategory, country: Country, items: seq<FeedItem>,
                       now: string): (r: seq<RawNews>)
    ensures |r| <= |items|
  {
    Present(Candidates(source, category, country, items, now))
  }

  /** A record is produced exactly for each item that passes the filter. */
  lemma FeedRecordsMembers(source: Source, category: SourceCategory, country: Country,
                           items: seq<FeedItem>, now: string, x: RawNews)
    ensures x in FeedRecords(source, category, country, items, now) <==>
      exists i :: 0 <= i < |items| && Kept(source, items[i]) && x == ToRecord(items[i], source, category, country, now)
  {
    PresentMembers(Candidates(source, category, country, items, now), x);
  }

  /** What crawling one fetched feed yields: the fetch error, or the records of its first 20 items. */
  function FeedOutcome(source: Source, category: SourceCategory, country: Country, feed: FetchResult,
                       now: string): (r: Result<seq<RawNews>, string>)
    ensures r.Failure? <==> feed.Failure?
    ensures r.Failure? ==> r.error == feed.error
    ensures r.Success? ==> |r.value| <= MaxItemsPerFeed
  {
    match feed
    case Failure(e) => Failure(e)
    case Success(items) => Success(FeedRecords(source, category, country, Window(items), now))
  }

  /** `crawlRSS`: a feed that could not be fetched throws; otherwise the first 20 items are filtered and normalised. */
  method CrawlRss(source: Source, category: SourceCategory, country: Country, feed: FetchResult,
                  now: string) returns (r: Result<seq<RawNews>, string>)
    ensures r == FeedOutcome(source, category, country, feed, now)
    ensures feed.Failure? <==> r.Failure?
    ensures r.Success? ==> |r.value| <= MaxItemsPerFeed
  {
    if feed.Failure? {
      return Failure(feed.error);
    }
    var items := Window(feed.value);
    ghost var candidates := Candidates(source, category, country, items, now);
    var articles: seq<RawNews> := [];
    for i := 0 to |items|
      invariant articles == Present(candidates[..i])
    {
      assert candidates[..i + 1][..i] == candidates[..i];
      var item := items[i];
      if !Accepts(source.filter, OrElse(item.title, "")) {
        continue;
      }
      articles := articles + [ToRecord(item, source, category, country, now)];
    }
    assert candidates[..|items|] == candidates;
    return Success(articles);
  }

  /** What one source contributes: nothing when its feed fails. */
  function SourceRecords(source: Source, category: SourceCategory, fetch: string -> FetchResult,
                         now: string): seq<RawNews>
  {
    var outcome := FeedOutcome(source, category, US, fetch(source.url), now);
    if outcome.Success? then outcome.value else []
  }

  /** `SourceRecords` as a function of the source alone, for the given crawl. */
  function RecordsOf(category: SourceCategory, fetch: string -> FetchResult, now: string): Source -> seq<RawNews>
  {
    source => SourceRecords(source, category, fetch, now)
  }

  /** The records of the whole registry: AI sources first, then education sources. */
  function RegistryRecords(fetch: string -> FetchResult, now: string): seq<RawNews>
  {
    Gather(AiSources, RecordsOf(AI, fetch, now)) + Gather(EducationSources, RecordsOf(Education, fetch, now))
  }

  /** One pass of the source loop: the records `crawlRSS` returns, or nothing when it throws (the error is only logged). */
  method CrawlSource(source: Source, category: SourceCategory, fetch: string -> FetchResult, now: string)
    returns (added: seq<RawNews>)
    ensures added == RecordsOf(category, fetch, now)(source)
  {
    var articles := CrawlRss(source, category, US, fetch(source.url), now);
    added := if articles.Success? then articles.value else [];
  }

  /** One registry list crawled in order, collecting what each source yields. */
  method CrawlSources(sources: seq<Source>, category: SourceCategory, fetch: string -> FetchResult, now: string)
    returns (all: seq<RawNews>)
    ensures all == Gather(sources, RecordsOf(category, fetch, now))
  {
    ghost var recordsOf := RecordsOf(category, fetch, now);
    all := [];
    for i := 0 to |sources|
      invariant all == Gather(sources[..i], recordsOf)
    {
      var added := CrawlSource(sources[i], category, fetch, now);
      GatherStep(sources, recordsOf, i);
      all := all + added;
    }
    assert sources[..|sources|] == sources;
  }

  /** `crawlUSANews`: each source crawled in registry order, AI sources first; a failing source is skipped. */
  method CrawlUsaNews(fetch: string -> FetchResult, now: string) returns (all: seq<RawNews>)
    ensures all == RegistryRecords(fetch, now)
  {
    var ai := CrawlSources(AiSources, AI, fetch, now);
    var education := CrawlSources(EducationSources, Education, fetch, now);
    all := ai + education;
  }

  /** Per-source isolation: a source whose feed fails can be dropped from its list without changing the result. */
  lemma FailingSourceContributesNothing(sources: seq<Source>, category: SourceCategory, fetch: string -> FetchResult,
                                        now: string, k: nat)
    requires k < |sources|
    requires fetch(sources[k].url).Failure?
    ensures Gather(sources, RecordsOf(category, fetch, now))
         == Gather(sources[..k] + sources[k + 1..], RecordsOf(category, fetch, now))
  {
    GatherWithoutEmpty(sources, RecordsOf(category, fetch, now), k);
  }

  /** `x` is the record of `item`, an item of the fetched feed of `s` that passes the source's filter;
      its content is the item's snippet or content, cut to 500 characters. */
  predicate RecordOfItem(x: RawNews, s: Source, item: FeedItem, fetch: string -> FetchResult) {
    && fetch(s.url).Success? && item in fetch(s.url).value && Kept(s, item)
    && x.source == s.name && x.url == OrElse(item.link, "") && x.title == OrElse(item.title, "")
    && x.content == Excerpt(item)
  }

  /** Every record crawled from a list is a pending US record of one of its sources that was fetched,
      with content of at most 500 characters and an id derived from its url. */
  lemma CrawledRecordsWellFormed(sources: seq<Source>, category: SourceCategory, fetch: string -> FetchResult,
                                 now: string, x: RawNews)
    requires x in Gather(sources, RecordsOf(category, fetch, now))
    ensures x.country == US && x.status == Pending && |x.content| <= MaxContentLength
    ensures x.id == GenerateId(x.url)
    ensures exists s :: s in sources && fetch(s.url).Success? && x.source == s.name
    ensures exists s, item :: s in sources && RecordOfItem(x, s, item, fetch)
  {
    GatherMembers(sources, RecordsOf(category, fetch, now), x);
    var k :| 0 <= k < |sources| && x in RecordsOf(category, fetch, now)(sources[k]);
    var item := SourceRecordWellFormed(sources[k], category, fetch, now, x);
  }

  /** One source's records: each is the record of an item of its fetched feed. */
  lemma SourceRecordWellFormed(s: Source, category: SourceCategory, fetch: string -> FetchResult,
                               now: string, x: RawNews) returns (item: FeedItem)
    requires x in RecordsOf(category, fetch, now)(s)
    ensures x.country == US && x.status == Pending && |x.content| <= MaxContentLength
    ensures x.id == GenerateId(x.url)
    ensures RecordOfItem(x, s, item, fetch)
  {
    var items := fetch(s.url).value;
    FeedRecordsMembers(s, category, US, Window(items), now, x);
    var i :| 0 <= i < |Window(items)| && Kept(s, Window(items)[i])
      && x == ToRecord(Window(items)[i], s, category, US, now);
    item := items[i];
  }

  /** The same for the whole registry. */
  lemma UsaRecordsWellFormed(fetch: string -> FetchResult, now: string, x: RawNews)
    requires x in RegistryRecords(fetch, now)
    ensures x.country == US && x.status == Pending && |x.content| <= MaxContentLength
    ensures x.id == GenerateId(x.url)
    ensures exists s :: (s in AiSources || s in EducationSources) && fetch(s.url).Success? && x.source == s.name
    ensures exists s, item :: (s in AiSources || s in EducationSources) && RecordOfItem(x, s, item, fetch)
  {
    if x in Gather(AiSources, RecordsOf(AI, fetch, now)) {
      CrawledRecordsWellFormed(AiSources, AI, fetch, now, x);
    } else {
      CrawledRecordsWellFormed(EducationSources, Education, fetch, now, x);
    }
  }
}
