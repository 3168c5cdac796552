/** The records of the `raw_news` and `crawl_logs` collections and their enumerations. */
module News {

  datatype Category = AI | Education | AIEducation

  /** The category a source is registered under: the registry has only the two base lists. */
  type SourceCategory = c: Category | !c.AIEducation? witness AI

  datatype Country = KR | US

  /** Lifecycle of a crawled article: pending -> selected -> processed -> published. */
  datatype Status = Pending | Selected | Processed | Published

  datatype Language = Ko | En

  /** One crawled article; `url` is the deduplication key, `id` the document id. */
  datatype RawNews = RawNews(
    id: string,
    title: string,
    content: string,
    source: string,
    url: string,
    publishedAt: string,
    crawledAt: string,
    category: Category,
    country: Country,
    status: Status,
    keywords: seq<string>)

  /** One record of the `crawl_logs` collection. */
  datatype CrawlLog = CrawlLog(source: string, crawledAt: string, success: bool, newsCount: nat)
}
