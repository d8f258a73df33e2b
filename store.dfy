/**
 * The tables of the datastore the scripts share, held in memory: one field
 * per table, one datatype per row. Every script reads and writes the store
 * through these fields; `Valid()` collects the facts every script keeps true.
 */
module Store {
  import opened Wrappers

  /**
   * Row identifiers. A row's id is modelled as its position in its table
   * (1, 2, 3, ...); the scripts depend only on ids being distinct and stable,
   * not on which values a serial column hands out.
   */
  type Id = nat

  datatype Severity = High | Medium | Low
  datatype SignalType = Buy | Sell
  datatype Sentiment = Bullish | Bearish | Neutral

  /** A row of `raw_news`. `content` is `None` when the column is null. */
  datatype RawNews = RawNews(
    id: Id,
    sourceId: Id,
    title: string,
    content: Option<string>,
    url: string,
    publishedAt: Option<seq<int>>,
    fetchedAt: int,
    isProcessed: bool,
    hashSignature: string)

  /** A row of `processed_events`. */
  datatype ProcessedEvent = ProcessedEvent(
    rawNewsId: Id,
    companyId: Id,
    detectedKeywords: seq<string>,
    category: string,
    baseScore: int,
    marketCapBoost: int,
    finalScore: int,
    sentiment: Sentiment,
    confidenceScore: int,
    processedAt: int)

  /** A row of `signals`. */
  datatype Signal = Signal(
    companyId: Id,
    rawNewsId: Id,
    signalType: SignalType,
    severity: Severity,
    signalScore: int,
    generatedAt: int,
    isActive: bool)

  /** A row of `companies`. */
  datatype Company = Company(
    id: Id,
    symbol: string,
    name: string,
    isin: string,
    exchange: string,
    isListed: bool)

  /** The quote fields copied into a `prices` row (absent fields are `None`). */
  datatype MarketData = MarketData(
    price: Option<real>,
    dayOpen: Option<real>,
    dayHigh: Option<real>,
    dayLow: Option<real>,
    volume: Option<real>,
    change: Option<real>,
    pchange: Option<real>)

  /** A row of `prices`. */
  datatype PriceRow = PriceRow(companyId: Id, data: MarketData)

  /** Row k of `raw_news` carries id k + 1: `.eq("id", x)` selects `rows[x - 1]`. */
  ghost predicate ArticleIdsArePositions(rows: seq<RawNews>) {
    forall k :: 0 <= k < |rows| ==> rows[k].id == k + 1
  }

  /** Row k of `companies` carries id k + 1. */
  ghost predicate CompanyIdsArePositions(rows: seq<Company>) {
    forall k :: 0 <= k < |rows| ==> rows[k].id == k + 1
  }

  /** No two articles share a fingerprint. */
  ghost predicate UniqueFingerprints(rows: seq<RawNews>) {
    forall i, j :: 0 <= i < j < |rows| ==> rows[i].hashSignature != rows[j].hashSignature
  }

  /** No two companies share a ticker symbol. */
  ghost predicate UniqueSymbols(rows: seq<Company>) {
    forall i, j :: 0 <= i < j < |rows| ==> rows[i].symbol != rows[j].symbol
  }

  /** Every event names an existing, already processed article and an existing company. */
  ghost predicate EventsReferToRows(events: seq<ProcessedEvent>, raw: seq<RawNews>, companies: seq<Company>) {
    forall e :: e in events ==>
      && 1 <= e.rawNewsId <= |raw|
      && raw[e.rawNewsId - 1].isProcessed
      && 1 <= e.companyId <= |companies|
  }

  /** At most one processed event per article. */
  ghost predicate OneEventPerArticle(events: seq<ProcessedEvent>) {
    forall i, j :: 0 <= i < j < |events| ==> events[i].rawNewsId != events[j].rawNewsId
  }

  /** At most one signal per article: the pipeline's idempotency guarantee. */
  ghost predicate OneSignalPerArticle(signals: seq<Signal>) {
    forall i, j :: 0 <= i < j < |signals| ==> signals[i].rawNewsId != signals[j].rawNewsId
  }

  /** `.select(...).eq("exchange", exchange)` on `companies`, in table order. */
  function CompaniesOn(rows: seq<Company>, exchange: string): (r: seq<Company>)
    ensures |r| <= |rows|
    ensures forall c :: c in r <==> c in rows && c.exchange == exchange
    decreases |rows|
  {
    if rows == [] then []
    else
      var init := CompaniesOn(rows[..|rows| - 1], exchange);
      var last := rows[|rows| - 1];
      assert rows == rows[..|rows| - 1] + [last];
      if last.exchange == exchange then init + [last] else init
  }

  class Datastore {
    var rawNews: seq<RawNews>
    var events: seq<ProcessedEvent>
    var signals: seq<Signal>
    var companies: seq<Company>
    var prices: seq<PriceRow>

    ghost predicate Valid()
      reads this
    {
      && ArticleIdsArePositions(rawNews)
      && UniqueFingerprints(rawNews)
      && CompanyIdsArePositions(companies)
      && UniqueSymbols(companies)
      && EventsReferToRows(events, rawNews, companies)
      && OneEventPerArticle(events)
      && OneSignalPerArticle(signals)
    }

    /** An empty store. */
    constructor ()
      ensures Valid()
      ensures rawNews == [] && events == [] && signals == [] && companies == [] && prices == []
    {
      rawNews, events, signals, companies, prices := [], [], [], [], [];
    }
  }
}
