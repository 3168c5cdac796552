/**
 * The Korean crawler: its source registry, the ZDNet title filter, the
 * case-sensitive keyword classifier, the item loop of one feed and the
 * source loop over the registry.
 */
module KoreaCrawler {
  import opened Wrappers
  import opened Text
  import opened News
  import opened NewsId
  import opened Feeds

  datatype TitleFilter = AnyTitle | ZdnetAi

  datatype Source = Source(name: string, url: string, filter: TitleFilter)

  const AiSources: seq<Source> := [
    Source("AI타임스", "https://www.aitimes.com/rss/allArticle.xml", AnyTitle),
    Source("ZDNet Korea AI", "https://zdnet.co.kr/rss/news.xml", ZdnetAi),
    Source("전자신문 AI", "https://rss.etnews.com/Section901.xml", AnyTitle)
  ]

  const EducationSources: seq<Source> := [
    Source("에듀프레스", "http://www.edupress.kr/rss/allArticle.xml", AnyTitle),
    Source("대학저널", "http://www.dhnews.co.kr/rss/allArticle.xml", AnyTitle)
  ]

  /** ZDNet's feed is general news: only titles naming AI are taken. Every word the filter looks for
      is one of the classifier's AI keywords. */
  function Accepts(filter: TitleFilter, title: string): (accepted: bool)
    ensures filter == AnyTitle ==> accepted
    ensures filter == ZdnetAi && accepted ==> MentionsAny(title, AiKeywords)
  {
    match filter
    case AnyTitle => true
    case ZdnetAi =>
      assert AiKeywords[0] == "AI" && AiKeywords[1] == "인공지능" && AiKeywords[5] == "머신러닝";
      Contains(title, "AI") || Contains(title, "인공지능") || Contains(title, "머신러닝")
  }

  const AiKeywords: seq<string> := ["AI", "인공지능", "GPT", "챗봇", "딥러닝", "머신러닝", "생성형"]

  const EducationKeywords: seq<string> := ["교육", "학교", "학생", "교사", "수업", "학습", "대학"]

  const Vocabulary: seq<string> := [
    "AI", "인공지능", "GPT", "ChatGPT", "Claude", "챗봇", "교육", "학교", "학생", "교사", "대학",
    "온라인", "디지털", "에듀테크"
  ]

  /** The category from the title's keywords (case-sensitive); the source's category only when none matches. */
  function Categorize(title: string, default: SourceCategory): (c: Category)
    ensures MentionsAny(title, AiKeywords) && MentionsAny(title, EducationKeywords) ==> c == AIEducation
    ensures MentionsAny(title, AiKeywords) && !MentionsAny(title, EducationKeywords) ==> c == AI
    ensures !MentionsAny(title, AiKeywords) && MentionsAny(title, EducationKeywords) ==> c == Education
    ensures !MentionsAny(title, AiKeywords) && !MentionsAny(title, EducationKeywords) ==> c == default
  {
    var hasAi := MentionsAny(title, AiKeywords);
    var hasEdu := MentionsAny(title, EducationKeywords);
    if hasAi && hasEdu then AIEducation
    else if hasAi then AI
    else if hasEdu then Education
    else default
  }

  /** A ZDNet title the filter lets through is always classified as AI or AI+Education. */
  lemma ZdnetTitlesAreAi(title: string, default: SourceCategory)
    requires Accepts(ZdnetAi, title)
    ensures Categorize(title, default) == AI || Categorize(title, default) == AIEducation
  {
  }

  /** Once any keyword matches, the registry's category plays no part. */
  lemma KeywordsOverrideDefault(title: string, d1: SourceCategory, d2: SourceCategory)
    requires MentionsAny(title, AiKeywords) || MentionsAny(title, EducationKeywords)
    ensures Categorize(title, d1) == Categorize(title, d2)
  {
  }

  /** More text after the title can only add matches: AI+Education is never lost. */
  lemma AIEducationSurvivesAppend(title: string, more: string, d: SourceCategory)
    requires Categorize(title, d) == AIEducation
    ensures Categorize(title + more, d) == AIEducation
  {
    MentionsAnyExtended(title, more, AiKeywords);
    MentionsAnyExtended(title, more, EducationKeywords);
  }

  /** A title naming both AI and education is AI+Education whatever the source's category. */
  lemma AiAndEducationTitle(d: SourceCategory)
    ensures Categorize("AI 교육", d) == AIEducation
  {
    ContainsAt("AI 교육", AiKeywords[0], 0);
    ContainsAt("AI 교육", EducationKeywords[0], 3);
  }

  /** The vocabulary entries found verbatim in the title, in vocabulary order. */
  function ExtractKeywords(title: string): (r: seq<string>)
    ensures forall kw :: kw in r <==> kw in Vocabulary && Contains(title, kw)
    ensures IsSubsequence(r, Vocabulary)
  {
    KeywordsIn(title, Vocabulary, false)
  }

  /** `stripHTML`: the text of the markup (extraction is `textOf`), trimmed, at most 500 characters. */
  function StripHtml(textOf: string -> string, html: string): (r: string)
    ensures |r| <= MaxContentLength && |r| <= |Trim(textOf(html))|
    ensures r == Trim(textOf(html))[..|r|]
    ensures |Trim(textOf(html))| <= MaxContentLength ==> r == Trim(textOf(html))
    ensures |r| == if |Trim(textOf(html))| <= MaxContentLength then |Trim(textOf(html))| else MaxContentLength
  {
    Take(Trim(textOf(html)), MaxContentLength)
  }

  /** The record built for one accepted item. */
  function ToRecord(item: FeedItem, source: Source, category: SourceCategory, country: Country,
                    now: string, textOf: string -> string): (n: RawNews)
    ensures n.url == OrElse(item.link, "") && n.id == GenerateId(n.url)
    ensures n.title == OrElse(item.title, "")
    ensures n.source == source.name && n.country == country && n.status == Pending
    ensures n.content == StripHtml(textOf, OrElse(item.contentSnippet, OrElse(item.content, "")))
    ensures |n.content| <= MaxContentLength
    ensures n.publishedAt == OrElse(item.pubDate, now) && n.crawledAt == now
    ensures n.category == Categorize(n.title, category)
    ensures n.keywords == ExtractKeywords(n.title)
  {
    var title := OrElse(item.title, "");
    var url := OrElse(item.link, "");
    RawNews(
      id := GenerateId(url),
      title := title,
      content := StripHtml(textOf, OrElse(item.contentSnippet, OrElse(item.content, ""))),
      source := source.name,
      url := url,
      publishedAt := OrElse(item.pubDate, now),
      crawledAt := now,
      category := Categorize(title, category),
      country := country,
      status := Pending,
      keywords := ExtractKeywords(title))
  }

  predicate Kept(source: Source, item: FeedItem) {
    Accepts(source.filter, OrElse(item.title, ""))
  }

  /** Per item of the window: its record if the title passes the filter, nothing otherwise. */
  function Candidates(source: Source, category: SourceCategory, country: Country, items: seq<FeedItem>,
                      now: string, textOf: string -> string): (c: seq<Option<RawNews>>)
    ensures |c| == |items|
    ensures forall i :: 0 <= i < |items| ==>
      c[i] == if Kept(source, items[i]) then Some(ToRecord(items[i], source, category, country, now, textOf)) else None
  {
    seq(|items|, i requires 0 <= i < |items| =>
      if Kept(source, items[i]) then Some(ToRecord(items[i], source, category, country, now, textOf)) else None)
  }

  /** The records of the items that pass the source's filter, in feed order. */
  function FeedRecords(source: Source, category: SourceCategory, country: Country, items: seq<FeedItem>,
                       now: string, textOf: string -> string): (r: seq<RawNews>)
    ensures |r| <= |items|
  {
    Present(Candidates(source, category, country, items, now, textOf))
  }

  /** A record is produced exactly for each item that passes the filter. */
  lemma FeedRecordsMembers(source: Source, category: SourceCategory, country: Country,
                           items: seq<FeedItem>, now: string, textOf: string -> string, x: RawNews)
    ensures x in FeedRecords(source, category, country, items, now, textOf) <==>
      exists i :: 0 <= i < |items| && Kept(source, items[i]) && x == ToRecord(items[i], source, category, country, now, textOf)
  {
    PresentMembers(Candidates(source, category, country, items, now, textOf), x);
  }

  /** What crawling one fetched feed yields: the fetch error, or the records of its first 20 items. */
  function FeedOutcome(source: Source, category: SourceCategory, country: Country, feed: FetchResult,
                       now: string, textOf: string -> string): (r: Result<seq<RawNews>, string>)
    ensures r.Failure? <==> feed.Failure?
    ensures r.Failure? ==> r.error == feed.error
    ensures r.Success? ==> |r.value| <= MaxItemsPerFeed
  {
    match feed
    case Failure(e) => Failure(e)
    case Success(items) => Success(FeedRecords(source, category, country, Window(items), now, textOf))
  }

  /** `crawlRSS`: a feed that could not be fetched throws; otherwise the first 20 items are filtered and normalised. */
  method CrawlRss(source: Source, category: SourceCategory, country: Country, feed: FetchResult,
                  now: string, textOf: string -> string) returns (r: Result<seq<RawNews>, string>)
    ensures r == FeedOutcome(source, category, country, feed, now, textOf)
    ensures feed.Failure? <==> r.Failure?
    ensures r.Success? ==> |r.value| <= MaxItemsPerFeed
  {
    if feed.Failure? {
      return Failure(feed.error);
    }
    var items := Window(feed.value);
    ghost var candidates := Candidates(source, category, country, items, now, textOf);
    var articles: seq<RawNews> := [];
    for i := 0 to |items|
      invariant articles == Present(candidates[..i])
    {
      assert candidates[..i + 1][..i] == candidates[..i];
      var item := items[i];
      if !Accepts(source.filter, OrElse(item.title, "")) {
        continue;
      }
      articles := articles + [ToRecord(item, source, category, country, now, textOf)];
    }
    assert candidates[..|items|] == candidates;
    return Success(articles);
  }

  /** What one source contributes: nothing when its feed fails. */
  function SourceRecords(source: Source, category: SourceCategory, fetch: string -> FetchResult,
                         now: string, textOf: string -> string): seq<RawNews>
  {
    var outcome := FeedOutcome(source, category, KR, fetch(source.url), now, textOf);
    if outcome.Success? then outcome.value else []
  }

  /** `SourceRecords` as a function of the source alone, for the given crawl. */
  function RecordsOf(category: SourceCategory, fetch: string -> FetchResult, now: string, textOf: string -> string)
    : Source -> seq<RawNews>
  {
    source => SourceRecords(source, category, fetch, now, textOf)
  }

  /** The records of the whole registry: AI sources first, then education sources. */
  function RegistryRecords(fetch: string -> FetchResult, now: string, textOf: string -> string): seq<RawNews>
  {
    Gather(AiSources, RecordsOf(AI, fetch, now, textOf)) + Gather(EducationSources, RecordsOf(Education, fetch, now, textOf))
  }

  /** One pass of the source loop: the records `crawlRSS` returns, or nothing when it throws (the error is only logged). */
  method CrawlSource(source: Source, category: SourceCategory, fetch: string -> FetchResult,
                     now: string, textOf: string -> string) returns (added: seq<RawNews>)
    ensures added == RecordsOf(category, fetch, now, textOf)(source)
  {
    var articles := CrawlRss(source, category, KR, fetch(source.url), now, textOf);
    added := if articles.Success? then articles.value else [];
  }

  /** One registry list crawled in order, collecting what each source yields. */
  method CrawlSources(sources: seq<Source>, category: SourceCategory, fetch: string -> FetchResult,
                      now: string, textOf: string -> string)
    returns (all: seq<RawNews>)
    ensures all == Gather(sources, RecordsOf(category, fetch, now, textOf))
  {
    ghost var recordsOf := RecordsOf(category, fetch, now, textOf);
    all := [];
    for i := 0 to |sources|
      invariant all == Gather(sources[..i], recordsOf)
    {
      var added := CrawlSource(sources[i], category, fetch, now, textOf);
      GatherStep(sources, recordsOf, i);
      all := all + added;
    }
    assert sources[..|sources|] == sources;
  }

  /** `crawlKoreaNews`: each source crawled in registry order, AI sources first; a failing source is skipped. */
  method CrawlKoreaNews(fetch: string -> FetchResult, now: string, textOf: string -> string)
    returns (all: seq<RawNews>)
    ensures all == RegistryRecords(fetch, now, textOf)
  {
    var ai := CrawlSources(AiSources, AI, fetch, now, textOf);
    var education := CrawlSources(EducationSources, Education, fetch, now, textOf);
    all := ai + education;
  }

  /** Per-source isolation: a source whose feed fails can be dropped from its list without changing the result. */
  lemma FailingSourceContributesNothing(sources: seq<Source>, category: SourceCategory, fetch: string -> FetchResult,
                                        now: string, textOf: string -> string, k: nat)
    requires k < |sources|
    requires fetch(sources[k].url).Failure?
    ensures Gather(sources, RecordsOf(category, fetch, now, textOf))
         == Gather(sources[..k] + sources[k + 1..], RecordsOf(category, fetch, now, textOf))
  {
    GatherWithoutEmpty(sources, RecordsOf(category, fetch, now, textOf), k);
  }

  /** `x` is the record of `item`, an item of the fetched feed of `s` that passes the source's filter. */
  predicate RecordOfItem(x: RawNews, s: Source, item: FeedItem, fetch: string -> FetchResult, textOf: string -> string) {
    && fetch(s.url).Success? && item in fetch(s.url).value && Kept(s, item)
    && x.source == s.name && x.url == OrElse(item.link, "") && x.title == OrElse(item.title, "")
    && x.content == StripHtml(textOf, OrElse(item.contentSnippet, OrElse(item.content, "")))
  }

  /** Every record crawled from a list is a pending Korean record of one of its sources that was fetched,
      with content of at most 500 characters and an id derived from its url. */
  lemma CrawledRecordsWellFormed(sources: seq<Source>, category: SourceCategory, fetch: string -> FetchResult,
                                 now: string, textOf: string -> string, x: RawNews)
    requires x in Gather(sources, RecordsOf(category, fetch, now, textOf))
    ensures x.country == KR && x.status == Pending && |x.content| <= MaxContentLength
    ensures x.id == GenerateId(x.url)
    ensures exists s :: s in sources && fetch(s.url).Success? && x.source == s.name
    ensures exists s, item :: s in sources && RecordOfItem(x, s, item, fetch, textOf)
  {
    GatherMembers(sources, RecordsOf(category, fetch, now, textOf), x);
    var k :| 0 <= k < |sources| && x in RecordsOf(category, fetch, now, textOf)(sources[k]);
    var item := SourceRecordWellFormed(sources[k], category, fetch, now, textOf, x);
  }

  /** One source's records: each is the record of an item of its fetched feed. */
  lemma SourceRecordWellFormed(s: Source, category: SourceCategory, fetch: string -> FetchResult,
                               now: string, textOf: string -> string, x: RawNews) returns (item: FeedItem)
    requires x in RecordsOf(category, fetch, now, textOf)(s)
    ensures x.country == KR && x.status == Pending && |x.content| <= MaxContentLength
    ensures x.id == GenerateId(x.url)
    ensures RecordOfItem(x, s, item, fetch, textOf)
  {
    var items := fetch(s.url).value;
    FeedRecordsMembers(s, category, KR, Window(items), now, textOf, x);
    var i :| 0 <= i < |Window(items)| && Kept(s, Window(items)[i])
      && x == ToRecord(Window(items)[i], s, category, KR, now, textOf);
    item := items[i];
  }

  /** The same for the whole registry. */
  lemma KoreaRecordsWellFormed(fetch: string -> FetchResult, now: string, textOf: string -> string, x: RawNews)
    requires x in RegistryRecords(fetch, now, textOf)
    ensures x.country == KR && x.status == Pending && |x.content| <= MaxContentLength
    ensures x.id == GenerateId(x.url)
    ensures exists s :: (s in AiSources || s in EducationSources) && fetch(s.url).Success? && x.source == s.name
    ensures exists s, item :: (s in AiSources || s in EducationSources) && RecordOfItem(x, s, item, fetch, textOf)
  {
    if x in Gather(AiSources, RecordsOf(AI, fetch, now, textOf)) {
      CrawledRecordsWellFormed(AiSources, AI, fetch, now, textOf, x);
    } else {
      CrawledRecordsWellFormed(EducationSources, Education, fetch, now, textOf, x);
    }
  }
}
