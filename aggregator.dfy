/**
 * The aggregation step of a crawl run: merging the two country crawls,
 * first-occurrence deduplication by url, the check-then-insert save into
 * the `raw_news` collection, the run log and the run summary.
 */
module Aggregator {
  import opened Wrappers
  import opened Text
  import opened News
  import opened NewsId
  import opened Feeds

  /** The urls of the articles (the `seen` set of a pass over them). */
  function Urls(s: seq<RawNews>): set<string> {
    set a | a in s :: a.url
  }

  /** The document ids of the articles. */
  function Ids(s: seq<RawNews>): set<string> {
    set a | a in s :: a.id
  }

  lemma UrlsSnoc(s: seq<RawNews>, a: RawNews)
    ensures Urls(s + [a]) == Urls(s) + {a.url}
  {
    assert forall b :: b in s + [a] <==> b in s || b == a;
  }

  predicate DistinctUrls(s: seq<RawNews>) {
    forall i, j :: 0 <= i < j < |s| ==> s[i].url != s[j].url
  }

  /** The first article with each url, in input order. */
  function Dedup(s: seq<RawNews>): (r: seq<RawNews>)
    ensures |r| <= |s|
    ensures Urls(r) == Urls(s)
    ensures DistinctUrls(r)
    ensures forall a :: a in r ==> a in s
  {
    if s == [] then []
    else
      var n := |s| - 1;
      var r := Dedup(s[..n]);
      assert s == s[..n] + [s[n]];
      UrlsSnoc(s[..n], s[n]);
      if s[n].url in Urls(r) then r
      else
        UrlsSnoc(r, s[n]);
        r + [s[n]]
  }

  /** `s[i]` is the first article of `s` with its url. */
  predicate IsFirstOccurrence(s: seq<RawNews>, i: int)
    requires 0 <= i < |s|
  {
    forall j :: 0 <= j < i ==> s[j].url != s[i].url
  }

  /** Each position marked with its article if that is the first with its url. */
  function FirstMarks(s: seq<RawNews>): (m: seq<Option<RawNews>>)
    ensures |m| == |s|
    ensures forall i :: 0 <= i < |s| ==> m[i] == if IsFirstOccurrence(s, i) then Some(s[i]) else None
  {
    seq(|s|, i requires 0 <= i < |s| => if IsFirstOccurrence(s, i) then Some(s[i]) else None)
  }

  /** A url is among the first `n` articles' urls exactly when some earlier article has it. */
  lemma EarlierUrl(s: seq<RawNews>, n: nat)
    requires n < |s|
    ensures s[n].url in Urls(s[..n]) <==> !IsFirstOccurrence(s, n)
  {
    if s[n].url in Urls(s[..n]) {
      var a :| a in s[..n] && a.url == s[n].url;
      var j :| 0 <= j < n && s[..n][j] == a;
      assert s[j].url == s[n].url;
    }
    if !IsFirstOccurrence(s, n) {
      var j :| 0 <= j < n && s[j].url == s[n].url;
      assert s[..n][j] == s[j];
    }
  }

  lemma FirstMarksPrefix(s: seq<RawNews>, n: nat)
    requires n <= |s|
    ensures FirstMarks(s)[..n] == FirstMarks(s[..n])
  {
    var t := s[..n];
    var m, mt := FirstMarks(s), FirstMarks(t);
    forall i | 0 <= i < n
      ensures m[i] == mt[i]
    {
      assert forall j :: 0 <= j < i ==> t[j] == s[j];
      assert IsFirstOccurrence(s, i) == IsFirstOccurrence(t, i);
    }
    assert m[..n] == mt;
  }

  /** Deduplication keeps exactly the first occurrence of each url, in input order. */
  lemma {:induction false} DedupKeepsFirst(s: seq<RawNews>)
    ensures Dedup(s) == Present(FirstMarks(s))
    decreases |s|
  {
    if s != [] {
      var n := |s| - 1;
      DedupKeepsFirst(s[..n]);
      var m := FirstMarks(s);
      FirstMarksPrefix(s, n);
      assert Present(m) == Present(m[..n]) + (if m[n].Some? then [m[n].value] else []);
      EarlierUrl(s, n);
    }
  }

  /** A list without repeated urls is left as it is. */
  lemma {:induction false} DedupOfDistinct(s: seq<RawNews>)
    requires DistinctUrls(s)
    ensures Dedup(s) == s
    decreases |s|
  {
    if s != [] {
      var n := |s| - 1;
      DedupOfDistinct(s[..n]);
      EarlierUrl(s, n);
      assert s == s[..n] + [s[n]];
    }
  }

  /** Deduplicating twice is deduplicating once. */
  lemma DedupIdempotent(s: seq<RawNews>)
    ensures Dedup(Dedup(s)) == Dedup(s)
  {
    DedupOfDistinct(Dedup(s));
  }

  /** One more article never changes what was kept before it. */
  lemma DedupSnocPrefix(s: seq<RawNews>, x: RawNews)
    ensures |Dedup(s)| <= |Dedup(s + [x])| && Dedup(s + [x])[..|Dedup(s)|] == Dedup(s)
  {
    assert (s + [x])[..|s|] == s;
  }

  /** What is kept of a first list comes first and is unchanged by anything appended after it. */
  lemma {:induction false} DedupPrefix(a: seq<RawNews>, b: seq<RawNews>)
    ensures |Dedup(a)| <= |Dedup(a + b)| && Dedup(a + b)[..|Dedup(a)|] == Dedup(a)
    decreases |b|
  {
    if b == [] {
      assert a + b == a;
    } else {
      var n := |b| - 1;
      var c := a + b[..n];
      assert a + b == c + [b[n]];
      DedupSnocPrefix(c, b[n]);
      DedupPrefix(a, b[..n]);
      var whole, mid, first := Dedup(a + b), Dedup(c), Dedup(a);
      assert whole[..|first|] == whole[..|mid|][..|first|];
    }
  }

  /** `deduplicateNews`: a pass with a `seen` set of urls, keeping an article only when its url is new. */
  method DeduplicateNews(articles: seq<RawNews>) returns (unique: seq<RawNews>)
    ensures unique == Dedup(articles)
  {
    var seen: set<string> := {};
    unique := [];
    for i := 0 to |articles|
      invariant unique == Dedup(articles[..i])
      invariant seen == Urls(unique)
    {
      assert articles[..i + 1][..i] == articles[..i];
      var article := articles[i];
      if article.url !in seen {
        UrlsSnoc(unique, article);
        seen := seen + {article.url};
        unique := unique + [article];
      }
    }
    assert articles[..|articles|] == articles;
  }

  /** The document the save writes: the article with the server timestamp as `crawledAt`. */
  function Stamp(a: RawNews, serverTime: string): RawNews {
    a.(crawledAt := serverTime)
  }

  /** The articles whose url is not already stored, in order. */
  function NewArticles(s: seq<RawNews>, stored: set<string>): (r: seq<RawNews>)
    ensures |r| <= |s|
    ensures IsSubsequence(r, s)
  {
    if s == [] then []
    else
      var n := |s| - 1;
      var front := NewArticles(s[..n], stored);
      assert s == s[..n] + [s[n]];
      SubsequenceSnoc(front, s[..n], s[n]);
      if s[n].url in stored then front else front + [s[n]]
  }

  /** An article is saved as new exactly when it is in the list and its url is not stored. */
  lemma {:induction false} NewArticlesMembers(s: seq<RawNews>, stored: set<string>, a: RawNews)
    ensures a in NewArticles(s, stored) <==> a in s && a.url !in stored
    decreases |s|
  {
    if s != [] {
      var n := |s| - 1;
      NewArticlesMembers(s[..n], stored, a);
      assert s == s[..n] + [s[n]];
    }
  }

  /** Without repeated urls the last article's url is not among the earlier ones. */
  lemma LastUrlIsNew(s: seq<RawNews>)
    requires DistinctUrls(s) && s != []
    ensures s[|s| - 1].url !in Urls(s[..|s| - 1])
  {
    var n := |s| - 1;
    forall a | a in s[..n]
      ensures a.url != s[n].url
    {
      var j :| 0 <= j < n && s[..n][j] == a;
      assert s[j] == a;
    }
  }

  /** Appending an article with a fresh url adds one unstored url exactly when that url is not stored. */
  lemma UnstoredUrlsSnoc(s: seq<RawNews>, a: RawNews, stored: set<string>)
    requires a.url !in Urls(s)
    ensures |Urls(s + [a]) - stored| == |Urls(s) - stored| + (if a.url in stored then 0 else 1)
  {
    UrlsSnoc(s, a);
    var before := Urls(s) - stored;
    if a.url in stored {
      assert Urls(s + [a]) - stored == before;
    } else {
      assert Urls(s + [a]) - stored == before + {a.url};
    }
  }

  /** Dropping the last article keeps the urls distinct. */
  lemma DistinctUrlsPrefix(s: seq<RawNews>, n: nat)
    requires DistinctUrls(s) && n <= |s|
    ensures DistinctUrls(s[..n])
  {
    forall i, j | 0 <= i < j < n ensures s[..n][i].url != s[..n][j].url {
      assert s[..n][i] == s[i] && s[..n][j] == s[j];
    }
  }

  /** One more article adds one to the new count exactly when its url is not stored. */
  lemma NewArticlesCountStep(s: seq<RawNews>, stored: set<string>)
    requires s != []
    ensures |NewArticles(s, stored)|
      == |NewArticles(s[..|s| - 1], stored)| + (if s[|s| - 1].url in stored then 0 else 1)
  {
    NewArticlesStep(s, stored, |s| - 1);
    assert s[..|s|] == s;
  }

  /** Without repeated urls the count of new articles is the number of urls not yet stored. */
  lemma {:induction false} NewArticlesCount(s: seq<RawNews>, stored: set<string>)
    requires DistinctUrls(s)
    ensures |NewArticles(s, stored)| == |Urls(s) - stored|
    decreases |s|
  {
    if s != [] {
      var n := |s| - 1;
      DistinctUrlsPrefix(s, n);
      NewArticlesCount(s[..n], stored);
      NewArticlesCountStep(s, stored);
      LastUrlIsNew(s);
      UnstoredUrlsSnoc(s[..n], s[n], stored);
      assert s[..n] + [s[n]] == s;
    }
  }

  lemma NewArticlesStep(s: seq<RawNews>, stored: set<string>, i: nat)
    requires i < |s|
    ensures NewArticles(s[..i + 1], stored)
      == NewArticles(s[..i], stored) + (if s[i].url in stored then [] else [s[i]])
  {
    assert s[..i + 1][..i] == s[..i];
  }

  /** The batch of writes: one `set` per article keyed by its id, a later `set` on an id replacing an earlier one. */
  function BatchOf(s: seq<RawNews>, serverTime: string): (b: map<string, RawNews>)
    ensures b.Keys == Ids(s)
  {
    if s == [] then map[]
    else
      var n := |s| - 1;
      assert s == s[..n] + [s[n]];
      assert Ids(s) == Ids(s[..n]) + {s[n].id} by {
        assert forall x :: x in s <==> x in s[..n] || x == s[n];
      }
      BatchOf(s[..n], serverTime)[s[n].id := Stamp(s[n], serverTime)]
  }

  predicate DistinctIds(s: seq<RawNews>) {
    forall i, j :: 0 <= i < j < |s| ==> s[i].id != s[j].id
  }

  /** Appending an article adds (or replaces) exactly its own document. */
  lemma BatchOfSnoc(s: seq<RawNews>, a: RawNews, serverTime: string)
    ensures BatchOf(s + [a], serverTime) == BatchOf(s, serverTime)[a.id := Stamp(a, serverTime)]
  {
    assert (s + [a])[..|s|] == s;
  }

  /** Distinct ids: one id per article. */
  lemma {:induction false} IdsOfDistinct(s: seq<RawNews>)
    requires DistinctIds(s)
    ensures |Ids(s)| == |s|
    decreases |s|
  {
    if s != [] {
      var n := |s| - 1;
      assert DistinctIds(s[..n]);
      IdsOfDistinct(s[..n]);
      forall a | a in s[..n]
        ensures a.id != s[n].id
      {
        var j :| 0 <= j < n && s[..n][j] == a;
        assert s[j] == a;
      }
      assert s == s[..n] + [s[n]];
      assert Ids(s) == Ids(s[..n]) + {s[n].id};
    }
  }

  /** Without shared ids every article gets its own document, so the batch has one write per article. */
  lemma BatchOfDistinctIds(s: seq<RawNews>, serverTime: string)
    requires DistinctIds(s)
    ensures |BatchOf(s, serverTime)| == |s|
  {
    IdsOfDistinct(s);
    assert |BatchOf(s, serverTime)| == |BatchOf(s, serverTime).Keys|;
  }

  /** The document of an id holds the last article written with that id. */
  lemma {:induction false} BatchOfLastWriteWins(s: seq<RawNews>, serverTime: string, k: nat)
    requires k < |s|
    requires forall j :: k < j < |s| ==> s[j].id != s[k].id
    ensures BatchOf(s, serverTime)[s[k].id] == Stamp(s[k], serverTime)
    decreases |s|
  {
    var n := |s| - 1;
    if k < n {
      BatchOfLastWriteWins(s[..n], serverTime, k);
    }
  }

  /** Two new articles with different urls but one id: the save counts two, the batch writes one document. */
  lemma OvercountOnSharedId(a1: RawNews, a2: RawNews, stored: set<string>, serverTime: string)
    requires a1.url != a2.url && a1.url !in stored && a2.url !in stored
    requires a1.id == a2.id
    ensures |NewArticles([a1, a2], stored)| == 2
    ensures |BatchOf(NewArticles([a1, a2], stored), serverTime)| == 1
  {
    assert [a1, a2][..1] == [a1];
    assert [a1][..0] == [];
    assert NewArticles([a1, a2], stored) == [a1, a2];
    assert Ids([a1, a2]) == {a1.id} by {
      assert forall x :: x in [a1, a2] <==> x == a1 || x == a2;
    }
  }

  /** Crawled records of two different `https://www.` urls share their id, so the save overstates its count. */
  lemma WwwArticlesOvercount(a1: RawNews, a2: RawNews, stored: set<string>, serverTime: string)
    requires a1.id == GenerateId(a1.url) && a2.id == GenerateId(a2.url)
    requires |a1.url| >= 12 && a1.url[..12] == WwwPrefix
    requires |a2.url| >= 12 && a2.url[..12] == WwwPrefix
    requires a1.url != a2.url && a1.url !in stored && a2.url !in stored
    ensures |NewArticles([a1, a2], stored)| == 2
    ensures |BatchOf(NewArticles([a1, a2], stored), serverTime)| == 1
  {
    WwwUrlsShareId(a1.url, a2.url);
    OvercountOnSharedId(a1, a2, stored, serverTime);
  }

  /** A document whose id no new article has is left as it was by the commit. */
  lemma CommitPreservesUnrelated(docs: map<string, RawNews>, inserted: seq<RawNews>, serverTime: string, id: string)
    requires id in docs && id !in Ids(inserted)
    ensures id in docs + BatchOf(inserted, serverTime) && (docs + BatchOf(inserted, serverTime))[id] == docs[id]
  {
  }

  /** The run summary returned by `crawlAllNews`. */
  datatype CrawlSummary = CrawlSummary(success: bool, totalNews: nat, newNews: nat, errors: seq<string>)

  const KoreaFailurePrefix := "한국 뉴스 크롤링 실패: "
  const UsaFailurePrefix := "미국 뉴스 크롤링 실패: "
  const StoreFailurePrefix := "Firestore 저장 실패: "

  /** The articles a country crawl contributes: none when it threw. */
  function Collected(crawl: Result<seq<RawNews>, string>): seq<RawNews> {
    if crawl.Success? then crawl.value else []
  }

  /** The error a country crawl adds: one message when it threw. */
  function CrawlError(crawl: Result<seq<RawNews>, string>, prefix: string): seq<string> {
    if crawl.Success? then [] else [prefix + crawl.error]
  }

  /** All articles of the run, Korean first. */
  function Merged(korea: Result<seq<RawNews>, string>, usa: Result<seq<RawNews>, string>): seq<RawNews> {
    Collected(korea) + Collected(usa)
  }

  /** The summary of a run: dedup of the merged articles, the count saved, the errors in the order they arose. */
  function Summary(korea: Result<seq<RawNews>, string>, usa: Result<seq<RawNews>, string>,
                   stored: set<string>, storeFailure: Option<string>): (s: CrawlSummary)
    ensures s.newNews <= s.totalNews
    ensures s.success <==> korea.Success? && usa.Success? && storeFailure.None?
    ensures storeFailure.None? ==> s.newNews == |Urls(Merged(korea, usa)) - stored|
    ensures storeFailure.Some? ==> s.newNews == 0
  {
    var unique := Dedup(Merged(korea, usa));
    var errors := CrawlError(korea, KoreaFailurePrefix) + CrawlError(usa, UsaFailurePrefix)
      + (if storeFailure.Some? then [StoreFailurePrefix + storeFailure.value] else []);
    NewArticlesCount(unique, stored);
    var newNews := if storeFailure.None? then |NewArticles(unique, stored)| else 0;
    CrawlSummary(|errors| == 0, |unique|, newNews, errors)
  }

  /** A run succeeds exactly when both crawls and the save succeed; each failure adds exactly one error. */
  lemma SummarySuccess(korea: Result<seq<RawNews>, string>, usa: Result<seq<RawNews>, string>,
                       stored: set<string>, storeFailure: Option<string>)
    ensures var s := Summary(korea, usa, stored, storeFailure);
      && (s.success <==> korea.Success? && usa.Success? && storeFailure.None?)
      && |s.errors| == (if korea.Failure? then 1 else 0) + (if usa.Failure? then 1 else 0)
                       + (if storeFailure.Some? then 1 else 0)
      && s.totalNews == |Dedup(Merged(korea, usa))|
  {
  }

  /** A Korean crawl that throws adds one leading error, and the US articles are still deduplicated and saved. */
  lemma KoreaFailureIsolated(korea: Result<seq<RawNews>, string>, usa: Result<seq<RawNews>, string>,
                             stored: set<string>, storeFailure: Option<string>)
    requires korea.Failure?
    ensures var s := Summary(korea, usa, stored, storeFailure);
      && s.errors[0] == KoreaFailurePrefix + korea.error
      && s.totalNews == |Dedup(Collected(usa))|
      && !s.success
  {
    assert Merged(korea, usa) == Collected(usa);
  }

  /** A US crawl that throws adds one error after any Korean one, and the Korean articles are kept. */
  lemma UsaFailureIsolated(korea: Result<seq<RawNews>, string>, usa: Result<seq<RawNews>, string>,
                           stored: set<string>, storeFailure: Option<string>)
    requires usa.Failure?
    ensures var s := Summary(korea, usa, stored, storeFailure);
      && s.errors[|CrawlError(korea, KoreaFailurePrefix)|] == UsaFailurePrefix + usa.error
      && s.totalNews == |Dedup(Collected(korea))|
      && !s.success
  {
    assert Merged(korea, usa) == Collected(korea);
  }

  /** A save that throws leaves the new-article count at zero and ends the errors with one store message. */
  lemma StoreFailureRecorded(korea: Result<seq<RawNews>, string>, usa: Result<seq<RawNews>, string>,
                             stored: set<string>, e: string)
    ensures var s := Summary(korea, usa, stored, Some(e));
      && s.newNews == 0 && |s.errors| > 0 && s.errors[|s.errors| - 1] == StoreFailurePrefix + e && !s.success
  {
  }

  /** Every Korean article kept by the run precedes the US ones, and a US article repeating a Korean url is dropped. */
  lemma KoreanArticlesFirst(korea: seq<RawNews>, usa: seq<RawNews>)
    ensures var unique := Dedup(Merged(Success(korea), Success(usa)));
      |Dedup(korea)| <= |unique| && unique[..|Dedup(korea)|] == Dedup(korea)
  {
    DedupPrefix(korea, usa);
  }

  /** The batch `saveToFirestore` builds: a `set` for every article whose url the existence query does not find. */
  method BuildBatch(articles: seq<RawNews>, stored: set<string>, serverTime: string)
    returns (batch: map<string, RawNews>, newCount: nat)
    ensures batch == BatchOf(NewArticles(articles, stored), serverTime)
    ensures newCount == |NewArticles(articles, stored)|
  {
    batch := map[];
    newCount := 0;
    ghost var inserted: seq<RawNews> := [];
    for i := 0 to |articles|
      invariant inserted == NewArticles(articles[..i], stored)
      invariant batch == BatchOf(inserted, serverTime)
      invariant newCount == |inserted|
    {
      var article := articles[i];
      NewArticlesStep(articles, stored, i);
      if article.url !in stored {
        BatchOfSnoc(inserted, article, serverTime);
        batch := batch[article.id := Stamp(article, serverTime)];
        newCount := newCount + 1;
        inserted := inserted + [article];
      }
    }
    assert articles[..|articles|] == articles;
  }

  /** The database: the `raw_news` documents keyed by id and the `crawl_logs` collection. */
  /** The first half of `crawlAllNews`: the Korean then the US articles, and one error per crawl that threw. */
  method MergeCrawls(korea: Result<seq<RawNews>, string>, usa: Result<seq<RawNews>, string>)
    returns (allArticles: seq<RawNews>, errors: seq<string>)
    ensures allArticles == Merged(korea, usa)
    ensures errors == CrawlError(korea, KoreaFailurePrefix) + CrawlError(usa, UsaFailurePrefix)
    ensures |errors| == (if korea.Failure? then 1 else 0) + (if usa.Failure? then 1 else 0)
  {
    errors := [];
    allArticles := [];
    if korea.Success? {
      allArticles := allArticles + korea.value;
    } else {
      errors := errors + [KoreaFailurePrefix + korea.error];
    }
    if usa.Success? {
      allArticles := allArticles + usa.value;
    } else {
      errors := errors + [UsaFailurePrefix + usa.error];
    }
  }

  class Firestore {
    var rawNews: map<string, RawNews>
    var crawlLogs: seq<CrawlLog>

    constructor(docs: map<string, RawNews>, logs: seq<CrawlLog>)
      ensures rawNews == docs && crawlLogs == logs
    {
      rawNews := docs;
      crawlLogs := logs;
    }

    /** The urls the existence query (`where('url', '==', …)`) can find. */
    function StoredUrls(): set<string>
      reads this
    {
      set id | id in rawNews :: rawNews[id].url
    }

    /** `saveToFirestore`: one existence query per article, a batch `set` for each new one, one commit.
        `failure` is an error thrown by a query or by the commit; then nothing is written. */
    method SaveToFirestore(articles: seq<RawNews>, serverTime: string, failure: Option<string>)
      returns (r: Result<nat, string>)
      modifies this
      ensures crawlLogs == old(crawlLogs)
      ensures failure.Some? ==> r == Failure(failure.value) && rawNews == old(rawNews)
      ensures failure.None? ==>
        var inserted := NewArticles(articles, old(StoredUrls()));
        r == Success(|inserted|) && rawNews == old(rawNews) + BatchOf(inserted, serverTime)
    {
      var batch, newCount := BuildBatch(articles, StoredUrls(), serverTime);
      if failure.Some? {
        return Failure(failure.value);
      }
      rawNews := rawNews + batch;
      return Success(newCount);
    }

    /** `saveCrawlLog`: one `crawl_logs` record for the whole run; `failure` is an error thrown by the write. */
    method SaveCrawlLog(success: bool, newNews: nat, serverTime: string, failure: Option<string>)
      returns (r: Result<(), string>)
      modifies this
      ensures rawNews == old(rawNews)
      ensures failure.None? ==> r.Success? && crawlLogs == old(crawlLogs) + [CrawlLog("all", serverTime, success, newNews)]
      ensures failure.Some? ==> r == Failure(failure.value) && crawlLogs == old(crawlLogs)
    {
      if failure.Some? {
        return Failure(failure.value);
      }
      crawlLogs := crawlLogs + [CrawlLog("all", serverTime, success, newNews)];
      return Success(());
    }

    /** `crawlAllNews`: merge both crawls (a thrown crawl adds an error), deduplicate, save, log, summarise.
        The log write is not guarded, so its failure is the run's failure. */
    method CrawlAllNews(korea: Result<seq<RawNews>, string>, usa: Result<seq<RawNews>, string>, serverTime: string,
                        storeFailure: Option<string>, logFailure: Option<string>)
      returns (r: Result<CrawlSummary, string>)
      modifies this
      ensures var s := Summary(korea, usa, old(StoredUrls()), storeFailure);
        && (logFailure.None? ==>
              r == Success(s) && crawlLogs == old(crawlLogs) + [CrawlLog("all", serverTime, s.success, s.newNews)])
        && (logFailure.Some? ==> r == Failure(logFailure.value) && crawlLogs == old(crawlLogs))
      ensures rawNews == if storeFailure.Some? then old(rawNews)
        else old(rawNews) + BatchOf(NewArticles(Dedup(Merged(korea, usa)), old(StoredUrls())), serverTime)
    {
      var allArticles, errors := MergeCrawls(korea, usa);
      ghost var summary := Summary(korea, usa, StoredUrls(), storeFailure);
      var unique := DeduplicateNews(allArticles);
      var newNews := 0;
      var saved := SaveToFirestore(unique, serverTime, storeFailure);
      if saved.Success? {
        newNews := saved.value;
      } else {
        errors := errors + [StoreFailurePrefix + saved.error];
      }
      assert errors == summary.errors && newNews == summary.newNews && |unique| == summary.totalNews;
      var logged := SaveCrawlLog(|errors| == 0, newNews, serverTime, logFailure);
      if logged.Failure? {
        return Failure(logged.error);
      }
      return Success(CrawlSummary(|errors| == 0, |unique|, newNews, errors));
    }
  }
}
