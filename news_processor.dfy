/**
 * The news processor: for every unprocessed article, find the first tracked
 * company it mentions and a bullish/bearish/neutral reading over two fixed
 * lexicons; record a processed event when both exist, and mark the article
 * processed in every case.
 */
module NewsProcessor {
  import opened Wrappers
  import opened Text
  import opened Store

  const PositiveKeywords: seq<string> := ["profit", "growth", "surge", "rally", "beat", "upgrade"]
  const NegativeKeywords: seq<string> := ["loss", "fall", "decline", "drop", "downgrade", "miss"]

  /** The twelve lexicon words are distinct. */
  lemma LexiconsAreDistinct()
    ensures |PositiveKeywords| == 6 && |NegativeKeywords| == 6
    ensures NoDuplicates(PositiveKeywords + NegativeKeywords)
  {
  }

  /** The number of words of `lexicon` that occur in `text`: `sum(word in text for word in lexicon)`. */
  function Hits(lexicon: seq<string>, text: string): (n: nat)
    ensures n <= |lexicon|
    decreases |lexicon|
  {
    if lexicon == [] then 0
    else Hits(lexicon[..|lexicon| - 1], text) + (if Contains(text, lexicon[|lexicon| - 1]) then 1 else 0)
  }

  /** The words of `lexicon` that occur in `text`, in lexicon order, one entry per counted hit. */
  function Present(lexicon: seq<string>, text: string): (r: seq<string>)
    ensures |r| == Hits(lexicon, text)
    decreases |lexicon|
  {
    if lexicon == [] then []
    else Present(lexicon[..|lexicon| - 1], text) + (if Contains(text, lexicon[|lexicon| - 1]) then [lexicon[|lexicon| - 1]] else [])
  }

  /** `Present` holds exactly the lexicon words that occur in the text. */
  lemma {:induction false} PresentMembers(lexicon: seq<string>, text: string)
    ensures forall w :: w in Present(lexicon, text) <==> w in lexicon && Contains(text, w)
    decreases |lexicon|
  {
    if lexicon != [] {
      var init := lexicon[..|lexicon| - 1];
      var last := lexicon[|lexicon| - 1];
      assert lexicon == init + [last];
      PresentMembers(init, text);
    }
  }

  /** Filtering a concatenated lexicon filters each part in turn. */
  lemma {:induction false} PresentAppend(a: seq<string>, b: seq<string>, text: string)
    ensures Present(a + b, text) == Present(a, text) + Present(b, text)
    decreases |b|
  {
    if b != [] {
      var init := b[..|b| - 1];
      assert (a + b)[..|a + b| - 1] == a + init;
      PresentAppend(a, init, text);
    } else {
      assert a + b == a;
    }
  }

  /** The words present in `text` keep the lexicon free of duplicates. */
  lemma {:induction false} PresentNoDuplicates(lexicon: seq<string>, text: string)
    requires NoDuplicates(lexicon)
    ensures NoDuplicates(Present(lexicon, text))
    decreases |lexicon|
  {
    if lexicon != [] {
      var init := lexicon[..|lexicon| - 1];
      var last := lexicon[|lexicon| - 1];
      assert last !in init by {
        assert forall i :: 0 <= i < |init| ==> init[i] == lexicon[i];
      }
      PresentNoDuplicates(init, text);
      PresentMembers(init, text);
    }
  }

  /** A list without duplicates has as many elements as its set of elements. */
  lemma {:induction false} DistinctCardinality(words: seq<string>)
    requires NoDuplicates(words)
    ensures |set w | w in words| == |words|
    decreases |words|
  {
    if words != [] {
      var init := words[..|words| - 1];
      var last := words[|words| - 1];
      assert words == init + [last];
      assert last !in init by {
        assert forall i :: 0 <= i < |init| ==> init[i] == words[i];
      }
      DistinctCardinality(init);
      assert (set w | w in words) == (set w | w in init) + {last};
    }
  }

  /**
   * `Hits` counts distinct words, not occurrences: for a lexicon without
   * duplicates it is the size of the set of lexicon words present.
   */
  lemma HitsCountsDistinctWords(lexicon: seq<string>, text: string)
    requires NoDuplicates(lexicon)
    ensures Hits(lexicon, text) == |WordsPresent(lexicon, text)|
  {
    var p := Present(lexicon, text);
    PresentMembers(lexicon, text);
    PresentNoDuplicates(lexicon, text);
    DistinctCardinality(p);
    assert (set w | w in p) == WordsPresent(lexicon, text);
  }

  /** The set of lexicon words that occur in `text`. */
  ghost function WordsPresent(lexicon: seq<string>, text: string): set<string> {
    set w | w in lexicon && Contains(text, w)
  }

  /**
   * `analyze_sentiment`: bullish with the positive count when positive words
   * outnumber negative ones, bearish with the negative count in the opposite
   * case, neutral with 0 on a tie. The count is 0 exactly for neutral and
   * never exceeds the size of a lexicon, 6.
   */
  function AnalyzeSentiment(text: string): (r: (Sentiment, nat))
    ensures r.1 <= 6
    ensures r.1 == 0 <==> r.0 == Neutral
    ensures var pos, neg := Hits(PositiveKeywords, ToLower(text)), Hits(NegativeKeywords, ToLower(text));
            && (r.0 == Bullish <==> pos > neg)
            && (r.0 == Bearish <==> neg > pos)
            && (r.0 != Neutral ==> r.1 == if pos > neg then pos else neg)
  {
    var lower := ToLower(text);
    var pos := Hits(PositiveKeywords, lower);
    var neg := Hits(NegativeKeywords, lower);
    if pos > neg then (Bullish, pos)
    else if neg > pos then (Bearish, neg)
    else (Neutral, 0)
  }

  /** A company is mentioned when its lower-cased name or symbol occurs in the text. */
  predicate Mentions(text: string, company: Company) {
    Contains(text, ToLower(company.name)) || Contains(text, ToLower(company.symbol))
  }

  /** `detect_company`: the id of the first company in roster order that the text mentions. */
  function DetectCompany(text: string, companies: seq<Company>): Option<Id>
    decreases |companies|
  {
    if companies == [] then None
    else if Mentions(text, companies[0]) then Some(companies[0].id)
    else DetectCompany(text, companies[1..])
  }

  /**
   * `DetectCompany` gives `None` exactly when no company is mentioned, and
   * otherwise the id of a mentioned company that no earlier company precedes.
   */
  lemma {:induction false} DetectCompanyFirstMatch(text: string, companies: seq<Company>)
    ensures DetectCompany(text, companies).None? <==> forall k :: 0 <= k < |companies| ==> !Mentions(text, companies[k])
    ensures DetectCompany(text, companies).Some? ==>
              exists k :: 0 <= k < |companies| && Mentions(text, companies[k])
                          && DetectCompany(text, companies).value == companies[k].id
                          && forall j :: 0 <= j < k ==> !Mentions(text, companies[j])
    decreases |companies|
  {
    if companies != [] && !Mentions(text, companies[0]) {
      DetectCompanyFirstMatch(text, companies[1..]);
      assert forall k :: 1 <= k < |companies| ==> companies[k] == companies[1..][k - 1];
      if DetectCompany(text, companies).Some? {
        var k :| 0 <= k < |companies[1..]| && Mentions(text, companies[1..][k])
                 && DetectCompany(text, companies[1..]).value == companies[1..][k].id
                 && forall j :: 0 <= j < k ==> !Mentions(text, companies[1..][j]);
        assert Mentions(text, companies[k + 1]);
      }
    } else if companies != [] {
      assert Mentions(text, companies[0]);
    }
  }

  /**
   * A company whose symbol (or name) is empty is mentioned by every text, so
   * no company after it in the roster is ever detected.
   */
  lemma EmptySymbolShadowsLaterCompanies(text: string, companies: seq<Company>, k: nat)
    requires k < |companies| && companies[k].symbol == ""
    ensures DetectCompany(text, companies).Some?
    ensures exists j :: 0 <= j <= k && DetectCompany(text, companies).value == companies[j].id
  {
    EmptyOccursEverywhere(text);
    assert Mentions(text, companies[k]);
    DetectCompanyFirstMatch(text, companies);
  }

  /** The keyword list `extract_keywords` builds: the positive words present, then the negative ones. */
  method ExtractKeywords(text: string) returns (detected: seq<string>)
    ensures detected == Present(PositiveKeywords, ToLower(text)) + Present(NegativeKeywords, ToLower(text))
    ensures forall w :: w in detected <==> (w in PositiveKeywords || w in NegativeKeywords) && Contains(ToLower(text), w)
    ensures |detected| == Hits(PositiveKeywords, ToLower(text)) + Hits(NegativeKeywords, ToLower(text))
    ensures NoDuplicates(detected)
  {
    var textLower := ToLower(text);
    var words := PositiveKeywords + NegativeKeywords;
    detected := [];
    for i := 0 to |words|
      invariant detected == Present(words[..i], textLower)
    {
      assert words[..i + 1] == words[..i] + [words[i]];
      PresentAppend(words[..i], [words[i]], textLower);
      assert [words[i]][..0] == [];
      if Contains(textLower, words[i]) {
        detected := detected + [words[i]];
      }
    }
    assert words[..|words|] == words;
    PresentAppend(PositiveKeywords, NegativeKeywords, textLower);
    LexiconsAreDistinct();
    PresentNoDuplicates(words, textLower);
    PresentMembers(words, textLower);
  }

  /** The text the processor reads: title, a space and content, lower-cased; a null content reads "". */
  function CombinedText(article: RawNews): string {
    ToLower(article.title + " " + article.content.GetOr(""))
  }

  function Min(a: int, b: int): int {
    if a < b then a else b
  }

  /** The event `process_news` inserts for one article, if any. */
  function EventFor(article: RawNews, companies: seq<Company>, now: int): Option<ProcessedEvent> {
    var text := CombinedText(article);
    var companyId := DetectCompany(text, companies);
    if companyId.None? || companyId.value == 0 then None
    else
      var (sentiment, hits) := AnalyzeSentiment(text);
      if hits == 0 then None
      else Some(ProcessedEvent(
        article.id, companyId.value, Present(PositiveKeywords, ToLower(text)) + Present(NegativeKeywords, ToLower(text)),
        "GENERAL", hits * 10, 0, hits * 10, sentiment, Min(hits * 20, 100), now))
  }

  /**
   * An event is inserted exactly when a company with a non-zero id is
   * detected and the sentiment count is positive; it refers to the article
   * and to the detected company, and has base_score = final_score = 10 x
   * hits (10..60), confidence min(20 x hits, 100) (20..100), category
   * GENERAL, market_cap_boost 0 and a bullish or bearish label.
   */
  lemma EventShape(article: RawNews, companies: seq<Company>, now: int)
    ensures var text := CombinedText(article);
            var companyId := DetectCompany(text, companies);
            EventFor(article, companies, now).Some? <==>
              companyId.Some? && companyId.value != 0 && AnalyzeSentiment(text).1 > 0
    ensures EventFor(article, companies, now).Some? ==>
              var ev := EventFor(article, companies, now).value;
              var text := CombinedText(article);
              var hits := AnalyzeSentiment(text).1;
              && ev.rawNewsId == article.id
              && Some(ev.companyId) == DetectCompany(text, companies)
              && ev.baseScore == ev.finalScore == hits * 10
              && 10 <= ev.baseScore <= 60
              && ev.confidenceScore == Min(hits * 20, 100)
              && 20 <= ev.confidenceScore <= 100
              && ev.category == "GENERAL" && ev.marketCapBoost == 0
              && ev.sentiment == AnalyzeSentiment(text).0 && ev.sentiment != Neutral
              && ev.processedAt == now
  {
  }

  /** `fetch_unprocessed_news`: the rows with is_processed false, in table order. */
  function Unprocessed(rows: seq<RawNews>): (r: seq<RawNews>)
    ensures forall a :: a in r <==> a in rows && !a.isProcessed
    decreases |rows|
  {
    if rows == [] then []
    else
      var init := rows[..|rows| - 1];
      var last := rows[|rows| - 1];
      assert rows == init + [last];
      if !last.isProcessed then Unprocessed(init) + [last] else Unprocessed(init)
  }

  /** Filtering keeps the order of the rows, so increasing ids stay increasing. */
  lemma {:induction false} UnprocessedIdsIncrease(rows: seq<RawNews>)
    requires IdsIncrease(rows)
    ensures IdsIncrease(Unprocessed(rows))
    decreases |rows|
  {
    if rows != [] {
      var init := rows[..|rows| - 1];
      var last := rows[|rows| - 1];
      assert IdsIncrease(init);
      UnprocessedIdsIncrease(init);
      var r := Unprocessed(init);
      forall a | a in r ensures a.id < last.id {
        var i :| 0 <= i < |init| && init[i] == a;
        assert rows[i] == a;
      }
    }
  }

  /** Ids grow along the sequence (so no id appears twice). */
  ghost predicate IdsIncrease(rows: seq<RawNews>) {
    forall i, j :: 0 <= i < j < |rows| ==> rows[i].id < rows[j].id
  }

  /** The events the loop of `process_news` inserts for `articles`, in order. */
  function EventsFor(articles: seq<RawNews>, companies: seq<Company>, now: int): seq<ProcessedEvent>
    decreases |articles|
  {
    if articles == [] then []
    else
      var init := articles[..|articles| - 1];
      EventsFor(init, companies, now)
      + match EventFor(articles[|articles| - 1], companies, now)
        case None => []
        case Some(ev) => [ev]
  }

  /** An inserted event refers to its article and to a company of the roster. */
  lemma EventRefersTo(article: RawNews, companies: seq<Company>, now: int)
    requires EventFor(article, companies, now).Some?
    ensures EventFor(article, companies, now).value.rawNewsId == article.id
    ensures exists m :: 0 <= m < |companies| && companies[m].id == EventFor(article, companies, now).value.companyId
  {
    DetectCompanyFirstMatch(CombinedText(article), companies);
  }

  /** Each inserted event refers to one of the articles and to a company of the roster. */
  lemma {:induction false} EventsForRefer(articles: seq<RawNews>, companies: seq<Company>, now: int)
    ensures forall ev :: ev in EventsFor(articles, companies, now) ==>
              && (exists i :: 0 <= i < |articles| && articles[i].id == ev.rawNewsId)
              && (exists m :: 0 <= m < |companies| && companies[m].id == ev.companyId)
    decreases |articles|
  {
    if articles != [] {
      var init := articles[..|articles| - 1];
      var last := articles[|articles| - 1];
      EventsForRefer(init, companies, now);
      forall ev | ev in EventsFor(articles, companies, now)
        ensures exists i :: 0 <= i < |articles| && articles[i].id == ev.rawNewsId
        ensures exists m :: 0 <= m < |companies| && companies[m].id == ev.companyId
      {
        if ev in EventsFor(init, companies, now) {
          var i :| 0 <= i < |init| && init[i].id == ev.rawNewsId;
          assert articles[i] == init[i];
        } else {
          EventRefersTo(last, companies, now);
        }
      }
    }
  }

  /** Articles with distinct ids get events with distinct article ids. */
  lemma {:induction false} EventsForOnePerArticle(articles: seq<RawNews>, companies: seq<Company>, now: int)
    requires IdsIncrease(articles)
    ensures OneEventPerArticle(EventsFor(articles, companies, now))
    decreases |articles|
  {
    if articles != [] {
      var init := articles[..|articles| - 1];
      var last := articles[|articles| - 1];
      assert IdsIncrease(init);
      EventsForOnePerArticle(init, companies, now);
      EventsForRefer(init, companies, now);
      var prev := EventsFor(init, companies, now);
      var r := EventsFor(articles, companies, now);
      if EventFor(last, companies, now).Some? {
        EventRefersTo(last, companies, now);
        forall i, j | 0 <= i < j < |r| ensures r[i].rawNewsId != r[j].rawNewsId {
          if j == |prev| {
            assert r[i] in prev;
            var n :| 0 <= n < |init| && init[n].id == r[i].rawNewsId;
            assert articles[n] == init[n];
          }
        }
      }
    }
  }

  /** The ids of `articles`. */
  ghost function IdsOf(articles: seq<RawNews>): set<Id> {
    set a | a in articles :: a.id
  }

  /** `rows` after marking each article of `articles` processed, one after the other. */
  function MarkAll(rows: seq<RawNews>, articles: seq<RawNews>): seq<RawNews>
    decreases |articles|
  {
    if articles == [] then rows
    else MarkProcessed(MarkAll(rows, articles[..|articles| - 1]), articles[|articles| - 1].id)
  }

  /** Marking a list of articles marks exactly the rows whose ids it holds. */
  lemma {:induction false} MarkAllMarks(rows: seq<RawNews>, articles: seq<RawNews>)
    ensures |MarkAll(rows, articles)| == |rows|
    ensures forall k :: 0 <= k < |rows| ==>
              MarkAll(rows, articles)[k] == rows[k].(isProcessed := rows[k].isProcessed || rows[k].id in IdsOf(articles))
    decreases |articles|
  {
    if articles != [] {
      var init := articles[..|articles| - 1];
      var last := articles[|articles| - 1];
      MarkAllMarks(rows, init);
      assert articles == init + [last];
      assert IdsOf(articles) == IdsOf(init) + {last.id};
    }
  }

  /** Marking every unprocessed article leaves every row processed and otherwise unchanged. */
  lemma AllMarked(rows: seq<RawNews>)
    ensures |MarkAll(rows, Unprocessed(rows))| == |rows|
    ensures forall k :: 0 <= k < |rows| ==> MarkAll(rows, Unprocessed(rows))[k] == rows[k].(isProcessed := true)
  {
    MarkAllMarks(rows, Unprocessed(rows));
    forall k | 0 <= k < |rows| ensures MarkAll(rows, Unprocessed(rows))[k] == rows[k].(isProcessed := true) {
      if !rows[k].isProcessed {
        assert rows[k] in Unprocessed(rows);
      }
    }
  }

  /** One more article adds its event, if any, at the end. */
  lemma EventsForSnoc(articles: seq<RawNews>, i: nat, companies: seq<Company>, now: int)
    requires i < |articles|
    ensures EventsFor(articles[..i + 1], companies, now) ==
            EventsFor(articles[..i], companies, now) + EventsFor([articles[i]], companies, now)
  {
    assert articles[..i + 1][..i] == articles[..i];
    assert [articles[i]][..0] == [];
  }

  method ProcessArticle(db: Datastore, article: RawNews, companies: seq<Company>, now: int)
    modifies db
    ensures db.events == old(db.events) + EventsFor([article], companies, now)
    ensures db.rawNews == MarkProcessed(old(db.rawNews), article.id)
    ensures db.signals == old(db.signals) && db.companies == old(db.companies) && db.prices == old(db.prices)
  {
    var event := AnalyzeArticle(article, companies, now);
    assert [article][..0] == [];
    if event.Some? {
      db.events := db.events + [event.value];
    } else {
      assert db.events + [] == db.events;
    }
    db.rawNews := MarkProcessed(db.rawNews, article.id);
  }

  /** `.update({"is_processed": True}).eq("id", id)` on `raw_news`. */
  function MarkProcessed(rows: seq<RawNews>, id: Id): (r: seq<RawNews>)
  {
    seq(|rows|, k requires 0 <= k < |rows| => if rows[k].id == id then rows[k].(isProcessed := true) else rows[k])
  }

  /**
   * The body of the `process_news` loop up to the insert: detect the company,
   * read the sentiment and, when both are there, build the event row.
   */
  method AnalyzeArticle(article: RawNews, companies: seq<Company>, now: int) returns (event: Option<ProcessedEvent>)
    ensures event == EventFor(article, companies, now)
  {
    var combinedText := ToLower(article.title + " " + article.content.GetOr(""));
    var companyId := DetectCompany(combinedText, companies);
    if companyId.None? || companyId.value == 0 {
      return None;
    }
    var (sentiment, scoreHits) := AnalyzeSentiment(combinedText);
    if scoreHits == 0 {
      return None;
    }
    var detectedKeywords := ExtractKeywords(combinedText);
    var baseScore := scoreHits * 10;
    var confidence := Min(scoreHits * 20, 100);
    event := Some(ProcessedEvent(
      article.id, companyId.value, detectedKeywords, "GENERAL", baseScore, 0, baseScore,
      sentiment, confidence, now));
  }

  /**
   * `process_news`: every unprocessed article gets at most one event (one
   * exactly when `EventFor` gives one), and every article ends up processed
   * whether or not an event was inserted; the other columns and tables are
   * untouched.
   */
  method ProcessNews(db: Datastore, now: int)
    requires db.Valid()
    modifies db
    ensures db.Valid()
    ensures db.events == old(db.events) + EventsFor(Unprocessed(old(db.rawNews)), CompaniesOn(old(db.companies), "NSE"), now)
    ensures |db.rawNews| == |old(db.rawNews)|
    ensures forall k :: 0 <= k < |db.rawNews| ==> db.rawNews[k] == old(db.rawNews[k]).(isProcessed := true)
    ensures db.signals == old(db.signals) && db.companies == old(db.companies) && db.prices == old(db.prices)
  {
    var articles := Unprocessed(db.rawNews);
    var companies := CompaniesOn(db.companies, "NSE");
    ghost var rows0 := db.rawNews;
    ProcessArticles(db, articles, companies, now);
    AllMarked(rows0);
    ProcessNewsKeepsValid(old(db.events), rows0, db.companies, now, db.events, db.rawNews);
  }

  /** The loop of `process_news`: each article in turn goes through `ProcessArticle`. */
  method ProcessArticles(db: Datastore, articles: seq<RawNews>, companies: seq<Company>, now: int)
    modifies db
    ensures db.events == old(db.events) + EventsFor(articles, companies, now)
    ensures db.rawNews == MarkAll(old(db.rawNews), articles)
    ensures db.signals == old(db.signals) && db.companies == old(db.companies) && db.prices == old(db.prices)
  {
    for i := 0 to |articles|
      invariant db.events == old(db.events) + EventsFor(articles[..i], companies, now)
      invariant db.rawNews == MarkAll(old(db.rawNews), articles[..i])
      invariant db.signals == old(db.signals) && db.companies == old(db.companies) && db.prices == old(db.prices)
    {
      var article := articles[i];
      assert articles[..i + 1][..i] == articles[..i];
      EventsForSnoc(articles, i, companies, now);
      ghost var start, before, added := old(db.events), EventsFor(articles[..i], companies, now), EventsFor([article], companies, now);
      assert (start + before) + added == start + (before + added);
      ProcessArticle(db, article, companies, now);
    }
    assert articles[..|articles|] == articles;
  }

  /** The rows' ids are their positions plus one, so they increase. */
  lemma PositionsIncrease(rows: seq<RawNews>)
    requires ArticleIdsArePositions(rows)
    ensures IdsIncrease(rows)
  {
  }

  /** The store invariant survives a run of `process_news`. */
  lemma ProcessNewsKeepsValid(events0: seq<ProcessedEvent>, rows0: seq<RawNews>, companies: seq<Company>, now: int,
                              events: seq<ProcessedEvent>, rows: seq<RawNews>)
    requires ArticleIdsArePositions(rows0) && UniqueFingerprints(rows0)
    requires CompanyIdsArePositions(companies)
    requires EventsReferToRows(events0, rows0, companies) && OneEventPerArticle(events0)
    requires events == events0 + EventsFor(Unprocessed(rows0), CompaniesOn(companies, "NSE"), now)
    requires |rows| == |rows0| && forall k :: 0 <= k < |rows0| ==> rows[k] == rows0[k].(isProcessed := true)
    ensures ArticleIdsArePositions(rows) && UniqueFingerprints(rows)
    ensures EventsReferToRows(events, rows, companies) && OneEventPerArticle(events)
  {
    var articles := Unprocessed(rows0);
    var roster := CompaniesOn(companies, "NSE");
    var added := EventsFor(articles, roster, now);
    PositionsIncrease(rows0);
    UnprocessedIdsIncrease(rows0);
    EventsForOnePerArticle(articles, roster, now);
    AddedEventsReferToUnprocessed(rows0, companies, now);
    AppendKeepsOnePerArticle(events0, added, rows0, companies);
    AppendRefersToRows(events0, added, rows0, companies, rows);
  }

  /**
   * Old events name processed articles and new ones name articles that were
   * unprocessed, so no article gets a second event.
   */
  lemma AppendKeepsOnePerArticle(events0: seq<ProcessedEvent>, added: seq<ProcessedEvent>,
                                 rows0: seq<RawNews>, companies: seq<Company>)
    requires EventsReferToRows(events0, rows0, companies) && OneEventPerArticle(events0)
    requires OneEventPerArticle(added)
    requires forall ev :: ev in added ==> 1 <= ev.rawNewsId <= |rows0| && !rows0[ev.rawNewsId - 1].isProcessed
    ensures OneEventPerArticle(events0 + added)
  {
    var events := events0 + added;
    forall i, j | 0 <= i < j < |events| ensures events[i].rawNewsId != events[j].rawNewsId {
      if j >= |events0| && i < |events0| {
        assert events[i] in events0;
        assert events[j] in added;
      } else if i >= |events0| {
        assert events[i] == added[i - |events0|];
        assert events[j] == added[j - |events0|];
      }
    }
  }

  /** Once every row is processed, old and new events all refer to processed rows. */
  lemma AppendRefersToRows(events0: seq<ProcessedEvent>, added: seq<ProcessedEvent>,
                           rows0: seq<RawNews>, companies: seq<Company>, rows: seq<RawNews>)
    requires EventsReferToRows(events0, rows0, companies)
    requires forall ev :: ev in added ==> 1 <= ev.rawNewsId <= |rows0| && 1 <= ev.companyId <= |companies|
    requires |rows| == |rows0| && forall k :: 0 <= k < |rows0| ==> rows[k] == rows0[k].(isProcessed := true)
    ensures EventsReferToRows(events0 + added, rows, companies)
  {
    forall ev | ev in events0 + added
      ensures 1 <= ev.rawNewsId <= |rows| && rows[ev.rawNewsId - 1].isProcessed && 1 <= ev.companyId <= |companies|
    {
      if ev !in events0 {
        assert ev in added;
      }
    }
  }

  /** An unprocessed row sits at the position its id names. */
  lemma UnprocessedRowAt(rows0: seq<RawNews>, a: RawNews)
    requires ArticleIdsArePositions(rows0) && a in Unprocessed(rows0)
    ensures 1 <= a.id <= |rows0| && rows0[a.id - 1] == a && !a.isProcessed
  {
    var k :| 0 <= k < |rows0| && rows0[k] == a;
  }

  /** A company of the NSE roster sits at the position its id names. */
  lemma RosterCompanyAt(companies: seq<Company>, c: Company)
    requires CompanyIdsArePositions(companies) && c in CompaniesOn(companies, "NSE")
    ensures 1 <= c.id <= |companies|
  {
    var k :| 0 <= k < |companies| && companies[k] == c;
  }

  /** A run's new events refer to articles that were unprocessed before it and to existing companies. */
  lemma AddedEventsReferToUnprocessed(rows0: seq<RawNews>, companies: seq<Company>, now: int)
    requires ArticleIdsArePositions(rows0) && CompanyIdsArePositions(companies)
    ensures forall ev :: ev in EventsFor(Unprocessed(rows0), CompaniesOn(companies, "NSE"), now) ==>
              && 1 <= ev.rawNewsId <= |rows0| && !rows0[ev.rawNewsId - 1].isProcessed
              && 1 <= ev.companyId <= |companies|
  {
    var articles := Unprocessed(rows0);
    var roster := CompaniesOn(companies, "NSE");
    EventsForRefer(articles, roster, now);
    forall ev | ev in EventsFor(articles, roster, now)
      ensures 1 <= ev.rawNewsId <= |rows0| && !rows0[ev.rawNewsId - 1].isProcessed
      ensures 1 <= ev.companyId <= |companies|
    {
      RowReferredTo(ev, articles, roster, rows0, companies);
    }
  }

  /** An event naming an unprocessed row and a roster company names them at their positions. */
  lemma {:induction false} RowReferredTo(ev: ProcessedEvent, articles: seq<RawNews>, roster: seq<Company>,
                      rows0: seq<RawNews>, companies: seq<Company>)
    requires ArticleIdsArePositions(rows0) && CompanyIdsArePositions(companies)
    requires articles == Unprocessed(rows0) && roster == CompaniesOn(companies, "NSE")
    requires exists i :: 0 <= i < |articles| && articles[i].id == ev.rawNewsId
    requires exists m :: 0 <= m < |roster| && roster[m].id == ev.companyId
    ensures 1 <= ev.rawNewsId <= |rows0| && !rows0[ev.rawNewsId - 1].isProcessed
    ensures 1 <= ev.companyId <= |companies|
  {
    var i :| 0 <= i < |articles| && articles[i].id == ev.rawNewsId;
    UnprocessedRowAt(rows0, articles[i]);
    var m :| 0 <= m < |roster| && roster[m].id == ev.companyId;
    RosterCompanyAt(companies, roster[m]);
  }

  /**
   * After a run every article is processed, so a following run fetches no
   * article and inserts no event: an article gets events in one run at most.
   */
  lemma {:induction false} SecondRunFindsNothing(rows: seq<RawNews>, companies: seq<Company>, now: int)
    requires forall k :: 0 <= k < |rows| ==> rows[k].isProcessed
    ensures Unprocessed(rows) == []
    ensures EventsFor(Unprocessed(rows), companies, now) == []
    decreases |rows|
  {
    if rows != [] {
      SecondRunFindsNothing(rows[..|rows| - 1], companies, now);
    }
  }
}
