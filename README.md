# AI education news pipeline — a verified model

This project models the core of the `ai-edu-news` pipeline in Dafny.

- **Crawl.** The Korean and US crawlers read a fixed registry of RSS feeds. Each crawler takes the first 20 items of every feed and applies the per-source title filter. ZDNet Korea needs AI words, and Ars Technica needs `ai` or `artificial intelligence` in the lower-cased title. Each kept item is normalised into a `raw_news` record: a category from keywords, keywords from the title, at most 500 characters of content, and an id derived from the URL. A feed that fails contributes nothing, and the other feeds still run.
- **Aggregate.** `crawlAllNews` merges the two countries' records with the Korean ones first. It keeps the first record of every URL and saves the new ones to Firestore in one batch. It writes one `crawl_logs` record and returns a run summary.
- **Generate.** `generateFeynmanArticle` asks Grok, then GPT-4 if Grok fails, to rewrite an article. It checks the JSON reply with `validateFeynmanArticle`.
- **Helpers.** `truncate`, `generateSlug`, `isValidEmail`, the unit choice of `timeAgo`, and the category and country badges.

Modules:

| module | models |
|---|---|
| `Text` | the JavaScript string operations the core uses |
| `News` | the record types |
| `NewsId` | UTF-8, base64 and `generateId` |
| `Feeds` | feed items and the gathering loop over sources |
| `KoreaCrawler`, `UsaCrawler` | the two crawlers |
| `Aggregator` | deduplication, the Firestore class, and the run |
| `GrokClient` | validation, prompts and provider fallback |
| `Utils` | the helpers |

Firestore is a class whose `rawNews` map (documents keyed by id) and `crawlLogs` sequence are updated in place by `SaveToFirestore`, `SaveCrawlLog` and `CrawlAllNews`. The loops of the source are kept as loops with invariants:

- the item loop of `crawlRSS`;
- the source loops of `crawlKoreaNews` and `crawlUSANews`;
- the `seen`-set loop of `deduplicateNews`;
- the batch loop of `saveToFirestore`;
- the unit loop of `timeAgo`.

Most methods are proved equal to a specification function, and lemmas state what that function guarantees. Two are not. `Utils.TimeAgo` states its result directly: the unit it picks and the phrase it returns. `Aggregator.Firestore.SaveCrawlLog` states the record it appends.

Behaviours of the code that the model records as they are:

- **Shared ids.** `generateId` keeps the first 16 base64 digits of the URL's bytes, so the id depends only on the first 12 bytes. Every URL beginning `https://www.` gets the same id (`NewsId.WwwUrlsShareId`). Several registry feeds serve such URLs.
- **Overcount.** `saveToFirestore` counts every article whose URL is not stored. Articles that share an id are still counted one by one. The batch writes one document for them, and later writes replace earlier ones. So the returned `newNews` can exceed the number of documents written (`Aggregator.WwwArticlesOvercount`).
- **Overwrite.** A stored document whose id a new article shares is overwritten (`Aggregator.BatchOf`, `Aggregator.Firestore.SaveToFirestore`).
- **Substring matching.** The US classifier matches keywords as substrings of lower-cased text, so the `ai` in "said" marks a story as AI (`UsaCrawler.SaidCountsAsAi`).
- **No range check.** `validateFeynmanArticle` copies `difficultyLevel` without a range check (`GrokClient.DifficultyNotRangeChecked`).
- **The log write can fail the run.** In `lib/crawlers/index.ts` the crawl-log write is awaited outside any `try`. If it throws, `crawlAllNews` throws. Yet every other step of `crawlAllNews` is wrapped in `try`/`catch`, and its declared return type is the summary. The model follows the code: `Aggregator.Firestore.CrawlAllNews` returns `Failure` with the log error and appends no log record.

## Model

| member | source | states |
|---|---|---|
| Text.Filter | ai-edu-news/lib/utils.ts:85 | the kept characters are a subsequence of the input, exactly as many as satisfy the test, each satisfying it; the input itself when all do |
| Text.FilterUnique | ai-edu-news/lib/utils.ts:85 | a subsequence whose characters all pass the test and with as many of them as the input has is the filter's output |
| Text.FilterAppend | ai-edu-news/lib/utils.ts:85 | filtering distributes over concatenation |
| Text.PartOccurs | ai-edu-news/lib/grok-client.ts:160-166 | every part of a template literal occurs in its text |
| Feeds.OrElse | ai-edu-news/lib/crawlers/korea-crawler.ts:101 | `x \|\| ''`: the value when present and non-empty, else the fallback |
| Feeds.Window | ai-edu-news/lib/crawlers/korea-crawler.ts:89 | `slice(0, 20)`: a prefix of the items of length min(n, 20) |
| Feeds.GatherMembers | ai-edu-news/lib/crawlers/korea-crawler.ts:55-72 | a record is gathered iff some source yields it |
| Feeds.GatherWithoutEmpty | ai-edu-news/lib/crawlers/korea-crawler.ts:56-61 | a source that yields nothing can be removed without changing the gathered list |
| Feeds.GatherAppend | ai-edu-news/lib/crawlers/korea-crawler.ts:55-72 | gathering over two source lists is the concatenation of gathering over each |
| NewsId.Utf8Append | ai-edu-news/lib/crawlers/korea-crawler.ts:178 | `Buffer.from` encoding distributes over concatenation |
| NewsId.Utf8Ascii | ai-edu-news/lib/crawlers/korea-crawler.ts:178 | ASCII text encodes to one byte per character, equal to its code |
| NewsId.Base64 | ai-edu-news/lib/crawlers/korea-crawler.ts:178 | base64 output length is 4·⌈n/3⌉ |
| NewsId.Base64RoundTrip | ai-edu-news/lib/crawlers/korea-crawler.ts:178 | decoding the base64 text gives back the bytes |
| NewsId.Base64Prefix | ai-edu-news/lib/crawlers/korea-crawler.ts:178 | the first 4k digits encode exactly the first 3k bytes |
| NewsId.AlnumOnly | ai-edu-news/lib/crawlers/korea-crawler.ts:179 | `replace(/[^a-zA-Z0-9]/g, '')`: a subsequence of the input holding every ASCII letter and digit of it, in order, with its multiplicity, and nothing else |
| NewsId.GenerateId | ai-edu-news/lib/crawlers/korea-crawler.ts:176-180 | the id has at most 16 characters, all ASCII letters or digits |
| NewsId.IdFromFirstTwelveBytes | ai-edu-news/lib/crawlers/korea-crawler.ts:178 | the id is a function of the first 12 encoded bytes of the URL |
| NewsId.SameFirstTwelveBytesSameId | ai-edu-news/lib/crawlers/korea-crawler.ts:178-179 | URLs with the same first 12 bytes get the same id |
| NewsId.SharedPrefixSameId | ai-edu-news/lib/crawlers/korea-crawler.ts:178-179 | URLs sharing a prefix of 12 or more bytes share their id |
| NewsId.WwwUrlsShareId | ai-edu-news/lib/crawlers/usa-crawler.ts:191-194 | every two `https://www.` URLs get the same id |
| KoreaCrawler.Accepts | ai-edu-news/lib/crawlers/korea-crawler.ts:25-26 | sources without a filter accept every title; ZDNet accepts a title only when it contains one of the AI keywords |
| KoreaCrawler.Categorize | ai-edu-news/lib/crawlers/korea-crawler.ts:120-139 | AI and education words give AI+Education; only one kind gives that category; none gives the source's category |
| KoreaCrawler.ZdnetTitlesAreAi | ai-edu-news/lib/crawlers/korea-crawler.ts:25-26 | a title ZDNet's filter accepts is categorised AI or AI+Education |
| KoreaCrawler.KeywordsOverrideDefault | ai-edu-news/lib/crawlers/korea-crawler.ts:130-138 | once a keyword matches, the source's category has no effect |
| KoreaCrawler.AIEducationSurvivesAppend | ai-edu-news/lib/crawlers/korea-crawler.ts:127-131 | a longer title never loses the AI+Education category |
| KoreaCrawler.AiAndEducationTitle | ai-edu-news/lib/crawlers/korea-crawler.ts:124-131 | "AI 교육" is AI+Education under either source category |
| KoreaCrawler.ExtractKeywords | ai-edu-news/lib/crawlers/korea-crawler.ts:144-163 | a vocabulary entry is returned iff the title contains it (case-sensitive), in vocabulary order |
| KoreaCrawler.StripHtml | ai-edu-news/lib/crawlers/korea-crawler.ts:168-171 | the first min(n, 500) characters of the trimmed text of length n: all of it when it fits, exactly 500 otherwise |
| KoreaCrawler.ToRecord | ai-edu-news/lib/crawlers/korea-crawler.ts:97-111 | url, id, title, source, country, pending status, timestamps, category, keywords, and the content as the stripped snippet-or-content |
| KoreaCrawler.FeedRecordsMembers | ai-edu-news/lib/crawlers/korea-crawler.ts:89-112 | a record is produced iff some item passing the filter normalises to it |
| KoreaCrawler.FeedOutcome | ai-edu-news/lib/crawlers/korea-crawler.ts:80-89 | fails iff the fetch failed, with the fetch's error; otherwise at most 20 records |
| KoreaCrawler.CrawlRss | ai-edu-news/lib/crawlers/korea-crawler.ts:80-115 | a failed fetch fails; otherwise the filtered records of the first 20 items, at most 20 |
| KoreaCrawler.CrawlSource | ai-edu-news/lib/crawlers/korea-crawler.ts:56-61 | one source's records, or none when its feed fails |
| KoreaCrawler.CrawlSources | ai-edu-news/lib/crawlers/korea-crawler.ts:55-62 | the records of every source of a list, in registry order |
| KoreaCrawler.CrawlKoreaNews | ai-edu-news/lib/crawlers/korea-crawler.ts:51-75 | the AI sources' records followed by the education sources' records |
| KoreaCrawler.FailingSourceContributesNothing | ai-edu-news/lib/crawlers/korea-crawler.ts:56-61 | a failing feed changes nothing for the other sources |
| KoreaCrawler.CrawledRecordsWellFormed | ai-edu-news/lib/crawlers/korea-crawler.ts:55-72 | every record is Korean, pending, ≤ 500 content characters, with the URL's id, and is the record of an item that a listed source's successful feed holds and its filter keeps: same url, title, source and content |
| KoreaCrawler.SourceRecordWellFormed | ai-edu-news/lib/crawlers/korea-crawler.ts:56-61 | the same for one source: each of its records comes from a kept item of its feed |
| KoreaCrawler.KoreaRecordsWellFormed | ai-edu-news/lib/crawlers/korea-crawler.ts:51-75 | the same for the whole registry, with the item's source in the registry |
| UsaCrawler.Accepts | ai-edu-news/lib/crawlers/usa-crawler.ts:39 | sources without a filter accept every title; Ars Technica accepts a title only when its lower-cased form contains an AI keyword |
| UsaCrawler.ClassifiedText | ai-edu-news/lib/crawlers/usa-crawler.ts:143 | the classified text is the lower-cased title, a space, and the lower-cased snippet |
| UsaCrawler.Categorize | ai-edu-news/lib/crawlers/usa-crawler.ts:138-160 | the four-way category of title and snippet with the source's category as last resort |
| UsaCrawler.TitleSignalKept | ai-edu-news/lib/crawlers/usa-crawler.ts:143-149 | a keyword in the title is found whatever the snippet |
| UsaCrawler.TitleDecidesAIEducation | ai-edu-news/lib/crawlers/usa-crawler.ts:143-152 | a title with both kinds of keyword is AI+Education whatever the snippet |
| UsaCrawler.ArsTechnicaTitlesAreAi | ai-edu-news/lib/crawlers/usa-crawler.ts:39 | a title Ars Technica's filter accepts is categorised AI or AI+Education whatever the snippet |
| UsaCrawler.SaidCountsAsAi | ai-edu-news/lib/crawlers/usa-crawler.ts:145-152 | "Teacher said" is AI+Education because "said" contains "ai" |
| UsaCrawler.ExtractKeywords | ai-edu-news/lib/crawlers/usa-crawler.ts:165-186 | an entry is returned iff the lower-cased title contains the lower-cased entry, in vocabulary order |
| UsaCrawler.Excerpt | ai-edu-news/lib/crawlers/usa-crawler.ts:120 | the first min(n, 500) characters of snippet-or-content of length n: all of it when it fits, exactly 500 otherwise |
| UsaCrawler.ToRecord | ai-edu-news/lib/crawlers/usa-crawler.ts:115-129 | the record's fields, with the category from title and snippet and the content the excerpt of the item |
| UsaCrawler.FeedRecordsMembers | ai-edu-news/lib/crawlers/usa-crawler.ts:107-130 | a record is produced iff some item passing the filter normalises to it |
| UsaCrawler.FeedOutcome | ai-edu-news/lib/crawlers/usa-crawler.ts:98-107 | fails iff the fetch failed, with the fetch's error; otherwise at most 20 records |
| UsaCrawler.CrawlRss | ai-edu-news/lib/crawlers/usa-crawler.ts:98-133 | a failed fetch fails; otherwise the filtered records of the first 20 items |
| UsaCrawler.CrawlSource | ai-edu-news/lib/crawlers/usa-crawler.ts:74-79 | one source's records, or none when its feed fails |
| UsaCrawler.CrawlSources | ai-edu-news/lib/crawlers/usa-crawler.ts:73-80 | the records of every source of a list, in registry order |
| UsaCrawler.CrawlUsaNews | ai-edu-news/lib/crawlers/usa-crawler.ts:69-93 | the AI sources' records followed by the education sources' records |
| UsaCrawler.FailingSourceContributesNothing | ai-edu-news/lib/crawlers/usa-crawler.ts:74-79 | a failing feed changes nothing for the other sources |
| UsaCrawler.CrawledRecordsWellFormed | ai-edu-news/lib/crawlers/usa-crawler.ts:73-90 | every record is US, pending, ≤ 500 content characters, with the URL's id, and is the record of an item that a listed source's successful feed holds and its filter keeps: same url, title, source and excerpt |
| UsaCrawler.SourceRecordWellFormed | ai-edu-news/lib/crawlers/usa-crawler.ts:74-79 | the same for one source: each of its records comes from a kept item of its feed |
| UsaCrawler.UsaRecordsWellFormed | ai-edu-news/lib/crawlers/usa-crawler.ts:69-93 | the same for the whole registry, with the item's source in the registry |
| Aggregator.Dedup | ai-edu-news/lib/crawlers/index.ts:81-93 | no longer than the input, the same URLs, no URL twice, only input articles |
| Aggregator.DedupKeepsFirst | ai-edu-news/lib/crawlers/index.ts:85-90 | exactly the first article of each URL is kept, in input order |
| Aggregator.DedupOfDistinct | ai-edu-news/lib/crawlers/index.ts:81-93 | a list without repeated URLs is returned unchanged |
| Aggregator.DedupIdempotent | ai-edu-news/lib/crawlers/index.ts:81-93 | deduplicating twice is deduplicating once |
| Aggregator.DedupPrefix | ai-edu-news/lib/crawlers/index.ts:26-49 | what is kept of the first list is a prefix of what is kept of the merged list |
| Aggregator.DeduplicateNews | ai-edu-news/lib/crawlers/index.ts:81-93 | the `seen`-set loop computes exactly the deduplicated list |
| Aggregator.NewArticles | ai-edu-news/lib/crawlers/index.ts:102-118 | the articles saved as new are a subsequence of the input: in input order, none repeated |
| Aggregator.NewArticlesMembers | ai-edu-news/lib/crawlers/index.ts:104-118 | an article is saved as new iff it is in the list and its URL is not stored |
| Aggregator.NewArticlesCount | ai-edu-news/lib/crawlers/index.ts:104-117 | without repeated URLs, the count of new articles is the number of URLs not yet stored |
| Aggregator.BatchOf | ai-edu-news/lib/crawlers/index.ts:112-116 | the batch writes exactly one document per distinct id |
| Aggregator.BatchOfDistinctIds | ai-edu-news/lib/crawlers/index.ts:112-117 | without shared ids the batch has one document per article |
| Aggregator.BatchOfLastWriteWins | ai-edu-news/lib/crawlers/index.ts:112-116 | an id's document holds the last article written with it |
| Aggregator.OvercountOnSharedId | ai-edu-news/lib/crawlers/index.ts:110-117 | two new articles with one id count 2 but write 1 document |
| Aggregator.WwwArticlesOvercount | ai-edu-news/lib/crawlers/index.ts:110-117 | two new `https://www.` articles count 2 but write 1 document |
| Aggregator.CommitPreservesUnrelated | ai-edu-news/lib/crawlers/index.ts:121 | the commit leaves every document whose id no new article has |
| Aggregator.BuildBatch | ai-edu-news/lib/crawlers/index.ts:99-119 | the loop builds the batch of the new articles and counts them |
| Aggregator.MergeCrawls | ai-edu-news/lib/crawlers/index.ts:26-49 | the Korean then the US articles, and exactly one error per crawl that threw, Korean first |
| Aggregator.Firestore.SaveToFirestore | ai-edu-news/lib/crawlers/index.ts:98-123 | on success the documents are the old ones plus the batch, and the count is the number of new articles; on failure nothing changes; logs untouched |
| Aggregator.Firestore.SaveCrawlLog | ai-edu-news/lib/crawlers/index.ts:128-139 | appends one `all` record with the success flag and the new count, or fails and appends nothing |
| Aggregator.Firestore.CrawlAllNews | ai-edu-news/lib/crawlers/index.ts:15-76 | returns the run summary and logs it, or fails when the log write fails; documents as after the save |
| Aggregator.Summary | ai-edu-news/lib/crawlers/index.ts:51-75 | success iff both crawls and the save succeed; new count ≤ total; new count is the number of merged URLs not stored, or 0 when the save failed |
| Aggregator.SummarySuccess | ai-edu-news/lib/crawlers/index.ts:65-75 | success iff both crawls and the save succeed; one error per failure; total is the dedup count |
| Aggregator.KoreaFailureIsolated | ai-edu-news/lib/crawlers/index.ts:27-35 | a failed Korean crawl adds the first error and the US articles are still counted |
| Aggregator.UsaFailureIsolated | ai-edu-news/lib/crawlers/index.ts:38-46 | a failed US crawl adds an error after any Korean one and the Korean articles are kept |
| Aggregator.StoreFailureRecorded | ai-edu-news/lib/crawlers/index.ts:53-61 | a failed save leaves the new count at 0 and ends the errors with the store message |
| Aggregator.KoreanArticlesFirst | ai-edu-news/lib/crawlers/index.ts:26-49 | the kept Korean articles come first and unchanged in the run's list |
| GrokClient.Or | ai-edu-news/lib/grok-client.ts:306 | `value \|\| fallback` under JavaScript truthiness |
| GrokClient.TypeAt | ai-edu-news/lib/grok-client.ts:311 | position 0 is principle, 1 application, any other opposite |
| GrokClient.MapQuestions | ai-edu-news/lib/grok-client.ts:308-312 | succeeds iff no entry is null; the texts are copied in order, with the type set by position |
| GrokClient.ValidateFeynmanArticle | ai-edu-news/lib/grok-client.ts:293-318 | an accepted article is well formed; the structure error iff title, content or questions is falsy; the count error iff those are present but questions is not an array of 3; the property-read error iff the reply or a question is null |
| GrokClient.ValidateAcceptsIff | ai-edu-news/lib/grok-client.ts:295-302 | accepted iff not null, title, content and questions truthy, exactly 3 questions, none null |
| GrokClient.ValidatedArticleWellFormed | ai-edu-news/lib/grok-client.ts:304-317 | an accepted article has 3 typed questions and the reply's own title, content and question texts |
| GrokClient.OptionalFieldDefaults | ai-edu-news/lib/grok-client.ts:306-316 | falsy optional fields get `''`, `[]`, `teacher`, `3`, `''`; a truthy difficulty is kept |
| GrokClient.EmptyReplyRejected | ai-edu-news/lib/grok-client.ts:88 | the reply `{}` is rejected as an invalid structure |
| GrokClient.QuestionsRoundTrip | ai-edu-news/lib/grok-client.ts:308-312 | questions typed by position are rebuilt unchanged from their JSON form |
| GrokClient.ValidateArticleJson | ai-edu-news/lib/grok-client.ts:293-318 | a well-formed article is accepted unchanged from its JSON form |
| GrokClient.ValidateIdempotent | ai-edu-news/lib/grok-client.ts:293-318 | validating the JSON of an accepted article returns the same article |
| GrokClient.DifficultyNotRangeChecked | ai-edu-news/lib/grok-client.ts:315 | a reply with difficulty 7 is accepted with difficulty 7 |
| GrokClient.FeynmanPrompt | ai-edu-news/lib/grok-client.ts:158-166 | the prompt contains the article's title, content, source and category |
| GrokClient.SystemPrompt | ai-edu-news/lib/grok-client.ts:125-153 | a non-empty system prompt per language |
| GrokClient.Request | ai-edu-news/lib/grok-client.ts:71-86 | the model's name, JSON mode, temperature 0.8, at most 2000 tokens |
| GrokClient.SamePromptsForBothProviders | ai-edu-news/lib/grok-client.ts:65-120 | the two providers' requests differ only in the model name |
| GrokClient.ReplyText | ai-edu-news/lib/grok-client.ts:88 | the reply text is the first choice's content, or `{}` when it is missing or empty |
| GrokClient.ParseReply | ai-edu-news/lib/grok-client.ts:88-89 | an accepted reply is well formed; a parse error iff `JSON.parse` throws; never a provider error |
| GrokClient.GenerateWith | ai-edu-news/lib/grok-client.ts:65-120 | an article is well formed; a provider error iff the call threw, carrying its message; a parse error only after the call answered |
| GrokClient.GenerateFeynmanArticle | ai-edu-news/lib/grok-client.ts:48-60 | an article is well formed; a failure means Grok failed and is GPT-4's own outcome |
| GrokClient.FallbackSequencing | ai-edu-news/lib/grok-client.ts:52-59 | the primary's article when it succeeds, else the fallback's outcome; fails iff both fail |
| GrokClient.EmptyCompletionRejected | ai-edu-news/lib/grok-client.ts:88-89 | an empty completion is parsed as `{}` and rejected |
| Utils.Truncate | ai-edu-news/lib/utils.ts:94-97 | unchanged when it fits; otherwise the first `length` characters and `...`, length + 3 in all |
| Utils.TruncateIdempotent | ai-edu-news/lib/utils.ts:94-97 | truncating twice is truncating once |
| Utils.StripSpecial | ai-edu-news/lib/utils.ts:85 | a subsequence of the input holding every word character, whitespace and `-` of it, with its multiplicity, and nothing else; the identity when nothing is special |
| Utils.SquashRuns | ai-edu-news/lib/utils.ts:86-87 | never longer than the text, and empty only for the empty text |
| Utils.SquashRunsShape | ai-edu-news/lib/utils.ts:86-87 | the squashed text ends as the text does, or with the replacement after a run, and holds only the replacement and the text's other characters |
| Utils.SquashRunsKeepsOthers | ai-edu-news/lib/utils.ts:86-87 | every character that is neither a run character nor the replacement survives, in order and with its multiplicity |
| Utils.SquashRunsSplit | ai-edu-news/lib/utils.ts:86-87 | a character outside the runs splits the text: squashing the whole is squashing each side around it |
| Utils.SquashRunsNoAdjacent | ai-edu-news/lib/utils.ts:87 | after squashing, no two neighbouring hyphens remain |
| Utils.SquashRunsIdentity | ai-edu-news/lib/utils.ts:86-87 | a text without runs is left unchanged |
| Utils.StrippedLowerChars | ai-edu-news/lib/utils.ts:84-85 | after lower-casing and stripping only slug characters and whitespace remain |
| Utils.SlugBody | ai-edu-news/lib/utils.ts:84-87 | only `[a-z0-9_-]`, no `--` |
| Utils.GenerateSlug | ai-edu-news/lib/utils.ts:82-89 | the first min(n, 100) characters of the slug body of length n; only `[a-z0-9_-]`, no `--` |
| Utils.SlugIdempotent | ai-edu-news/lib/utils.ts:82-89 | a slug is its own slug |
| Utils.SlugKeepsAlnum | ai-edu-news/lib/utils.ts:84-87 | the slug body's ASCII letters and digits are exactly those of the lower-cased title, in order |
| Utils.SlugAlnumPrefix | ai-edu-news/lib/utils.ts:82-89 | the slug's letters and digits are the first ones of the lower-cased title, all of them when the body fits in 100 characters |
| Utils.SlugOfTwoWords | ai-edu-news/lib/utils.ts:82-89 | two lower-case alphanumeric words separated by a space become the words joined by one `-` |
| Utils.ShapeCount | ai-edu-news/lib/utils.ts:116 | a string the pattern matches has exactly one `@` |
| Utils.IsValidEmailIff | ai-edu-news/lib/utils.ts:115-118 | the check holds iff the string is local@domain.last with no whitespace or `@` in any part |
| Utils.TimeAgo | ai-edu-news/lib/utils.ts:64-76 | the first unit, largest first, with at least one whole elapsed; `just now` / `방금 전` under 60 seconds, negatives included |
| Utils.WholeUnits | ai-edu-news/lib/utils.ts:66-67 | at least one whole unit elapsed iff the seconds reach the unit |
| Utils.CountBelowNextUnit | ai-edu-news/lib/utils.ts:40-57 | the chosen count is at most 12 months, 4 weeks, 6 days, 23 hours or 59 minutes |
| Utils.EnglishPlural | ai-edu-news/lib/utils.ts:71 | `1 minute ago` but `2 minutes ago` |
| Utils.GetCategoryColor | ai-edu-news/lib/utils.ts:123-130 | the badge contains `bg-H-100`, `text-H-800`, `dark:bg-H-900` and `dark:text-H-300` for the category's hue H, and is exactly as long as the four separated by single spaces |
| Utils.CategoryColorsDistinct | ai-edu-news/lib/utils.ts:123-130 | different categories get different badges |
| Utils.GetCountryFlag | ai-edu-news/lib/utils.ts:135-137 | the flag is the two regional indicator symbols of the country code |
| Utils.CountryFlagsDistinct | ai-edu-news/lib/utils.ts:136 | the two flags differ |

The US crawler's `generateId` (`usa-crawler.ts:191-194`) is character for character the Korean one (`korea-crawler.ts:176-180`). Both use `NewsId.GenerateId`.

## Left out

- Fetching and parsing feeds (`rss-parser`, the network) become the parameter `fetch`, which maps a feed URL to its items or an error message.
- cheerio's HTML-to-text extraction in `stripHTML` becomes the parameter `textOf`.
- `new Date().toISOString()` is the parameter `now`, and Firestore's `serverTimestamp()` is `serverTime`.
- A Firestore query or commit that throws, and a crawl-log write that throws, are `Option` parameters. Network timing, retries and concurrent runs are not modelled.
- The existence check sees only the documents stored before the run, because the batch is committed after the loop. The model states it that way.
- `getTodayNews` and `getStartOfDay` (`index.ts:144-179`) are a dashboard query, not part of the run.
- The model's crawlers catch every per-source failure, so they never fail. The "country crawl threw" branches of `crawlAllNews` are reached through its two `Result` parameters.
- `${error}` string conversion is not modelled: error messages are given as strings. `console` logging is left out.
- Aggregator.Firestore.CrawlAllNews: the log record's `crawledAt` is `serverTime`. It does not model the Firestore sentinel value.
- `toLowerCase` is modelled on ASCII letters only (`Text.ToLower`). The US classifier, the US keyword search and `generateSlug` therefore do not lower-case non-ASCII letters.
- Dafny characters are Unicode scalar values, while JavaScript strings count UTF-16 code units. `substring(0, 500)`, `truncate` and the 100-character slug limit therefore count astral characters differently.
- JSON values are a datatype with integer numbers. Fractional numbers and `NaN` are not modelled.
- `JSON.parse` is the parameter `parse`, and the provider calls are the parameter `call`. The OpenAI and xAI clients and their keys are not part of this model.
- A completion is a thrown error or a list of message contents. A choice without a `message` object is not modelled.
- GrokClient.SystemPrompt: models only the opening sentence of each system prompt and states only that it is not empty. The remaining instruction text is data.
- GrokClient.FeynmanPrompt: models the header that embeds the article; the step-by-step instructions that follow it are left out.
- The `language = 'ko'` default of `generateFeynmanArticle` is a caller-side default: the model always takes the language explicitly.
- `grok-client.ts` declares its own narrower `RawNews` interface. The model uses the full record, of which the prompt reads only title, content, source and category.
- `estimateCost` (`grok-client.ts:323-339`) and `formatNumber` (`utils.ts:102-110`) are floating-point arithmetic with `toFixed`.
- Utils.Truncate: the `length = 100` default of `truncate` (`utils.ts:94`) is a caller-side default: the model always takes the length explicitly.
- `formatDate` and `cn` (`utils.ts:7-30`) are locale formatting and CSS class merging by libraries.
- Utils.TimeAgo: the `locale = 'ko'` default of `timeAgo` (`utils.ts:35`) is a caller-side default: the model always takes the language explicitly.
- Utils.TimeAgo: takes the elapsed whole seconds as input. Parsing the date, reading the clock and `Math.floor` of the millisecond difference are left out, and so is the `NaN` an invalid date gives.
