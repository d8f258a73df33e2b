# navi-news-scanner: a verified model of the signal pipeline

The repository runs as a set of batch scripts around one datastore:

- **Ingestion** (`news_ingestion.py`): each feed entry whose stripped title and link are both non-empty becomes a `raw_news` row, unless a row with the same fingerprint already exists. The fingerprint is the digest of title, "-" and url.
- **Processing** (`news_processor.py`): each unprocessed article is matched against the NSE companies and scored against two six-word sentiment lexicons. It gets at most one `processed_events` row, and it is marked processed either way.
- **Intraday engine** (`intraday_engine.py`): each recent event is re-scored against three weighted keyword tables, HIGH, MEDIUM and LOW. The result is at most one BUY/SELL `signals` row per article.
- **Price snapshot** (`sync_prices_snapshot.py`): quotes are requested for the NSE symbols fifty at a time, with the `.NS` suffix. Matched quotes are stored in `prices`.
- **Universe sync** (`sync_nse_universe.py`): the exchange's equity CSV is normalised, the rows of series "EQ" are kept, and they are upserted into `companies` by symbol.

The Dafny model keeps the form of each script:

- Pure computations are functions over datatypes. These cover keyword scoring, sentiment, company detection, fingerprints, the symbol map, batching and row normalisation.
- Loops that update state are methods with loop invariants over one `Datastore` object. It holds the five tables as sequence fields, and its `Valid()` collects the facts every script keeps:
  - ids are positions;
  - fingerprints and symbols are unique;
  - every event names a processed article and an existing company;
  - there is at most one event and at most one signal per article.

Each method is proved against a specification function: a fold over its input. Lemmas then prove what the scripts promise, for example:

- the deduplication gate;
- the tiered classification and its BUY/SELL thresholds;
- at most one signal per article after any number of runs;
- re-running ingestion, the engine or the universe sync adds nothing;
- batches partition the symbol list;
- the `.NS` round trip.

Modules and files:

- `wrappers.dfy`: `Option`.
- `text.dfy`: Python's `in`, `lower()`, `strip()` and `replace(p, "")` on strings.
- `store.dfy`: the rows and the `Datastore`.
- `intraday_engine.dfy`, `news_processor.dfy`, `news_ingestion.dfy`, `sync_prices_snapshot.dfy`, `sync_nse_universe.dfy`: one module per script.

Three behaviours of the code, which the model follows as written:

- **Scoring.** Scoring is not additive across the three tables, and the BUY/SELL thresholds are not ±40. The code is tiered: the first table with a match decides the severity, and only that table's weights count. Its thresholds are ±10, so MEDIUM and LOW matches can produce signals. `LowTierOnlyBuys` shows that a LOW text with both phrases yields a BUY.
- **Alerts.** No alert is delivered after a signal. In the code the alert text is built, and then the function ends. The second `send_telegram_alert` definition starts at module level right after the loop body; nothing calls either definition.
- **Fingerprints.** Deduplication by fingerprint does not separate every title/URL pair. Because the dash is not escaped, two different pairs can share a fingerprint (`DashIsAmbiguous`).

## Model

| member | source | states |
|---|---|---|
| Text.EmptyOccursEverywhere | news_processor.py:76 | the empty string is a substring of every text, as Python's `"" in s` |
| Text.ToLowerIdempotent | news_processor.py:55 | lowering an already lowered text (the combined text lowered again inside `analyze_sentiment`) changes nothing |
| Text.Strip | news_ingestion.py:84-86 | the result is the slice of the input after its leading whitespace, only whitespace follows it, and it neither starts nor ends with whitespace |
| Text.StripEmptyIffBlank | news_ingestion.py:88 | a stripped field is empty exactly when the raw field is all whitespace |
| Text.StripIdempotent | sync_nse_universe.py:49 | stripping an already stripped key or value changes nothing |
| Text.DeleteAll | sync_prices_snapshot.py:81 | `replace(pat, "")` never lengthens a string and leaves a string without `pat` unchanged |
| Store.CompaniesOn | news_processor.py:41-48 | the `.eq("exchange", ...)` selection holds exactly the companies on that exchange |
| IntradayEngine.TitleKeywordsAreScored | intraday_engine.py:100-110 | a phrase in the lowered title occurs in the scored text whatever the content |
| IntradayEngine.ArticleText | intraday_engine.py:100-110 | the scored text is the lowered title, one space and the lowered content (a null content reads "None"); `TitleKeywordsAreScored` proves every title phrase reaches the scorer |
| IntradayEngine.ScanTable | intraday_engine.py:120-135 | one table pass adds the weights of exactly the phrases present, each once, and sets the tier iff some phrase matched |
| IntradayEngine.ClassifyEvent | intraday_engine.py:116-137 | a HIGH match gives HIGH with the sum of the HIGH weights present; else a MEDIUM match gives MEDIUM with the MEDIUM sum; else LOW likewise; no match gives (None, 0) |
| IntradayEngine.Classify | intraday_engine.py:116-137 | the reference classification the loop is proved against: the first of HIGH, MEDIUM, LOW with a phrase present decides the tier, and only that table's weights make the score; no match is (None, 0) |
| IntradayEngine.NoMatchScoresZero | intraday_engine.py:117-137 | a table with no phrase present adds nothing |
| IntradayEngine.TableScoreBounded | intraday_engine.py:120-122 | a table's score is at most the sum of its absolute weights, since each phrase counts once |
| IntradayEngine.TableScoreByPresence | intraday_engine.py:120-135 | the score and the match depend only on which phrases occur, not how often |
| IntradayEngine.ClassifyByPresence | intraday_engine.py:116-137 | texts with the same phrases present are classified alike |
| IntradayEngine.ClassifyScoreBounded | intraday_engine.py:120-137 | the score is bounded by the magnitude of the one table consulted, and is 0 without a severity |
| IntradayEngine.SignalThresholds | intraday_engine.py:172-191 | a signal exists iff there is a severity and the score is outside -9..9; BUY iff score >= 10; it carries the event's company and article, the severity, the score and is_active true |
| IntradayEngine.SignalFor | intraday_engine.py:172-191 | the signal row an event yields for its text, or none; its thresholds and fields are proved in `SignalThresholds` |
| IntradayEngine.HasSignal | intraday_engine.py:143-150 | `signal_exists`: some stored signal names the article |
| IntradayEngine.LowTierOnlyBuys | intraday_engine.py:172-180 | a LOW text scores 5 or 10, never yields SELL, and yields BUY iff its score is 10 |
| IntradayEngine.RecentEvents | intraday_engine.py:84-94 | the window holds exactly the events processed at or after the cutoff |
| IntradayEngine.SignalsAfterOnlyAppends | intraday_engine.py:162-191 | the loop keeps the old signals as a prefix and each new signal is the one its event yields |
| IntradayEngine.StepAppends | intraday_engine.py:166-191 | one event either leaves the table alone or appends its own signal when its article had none |
| IntradayEngine.SignalsAfterKeepsOnePerArticle | intraday_engine.py:143-167 | the `signal_exists` check keeps at most one signal per article |
| IntradayEngine.SignalsAfterSettlesEvents | intraday_engine.py:162-191 | after the loop every handled event's article has a signal or the event yields none |
| IntradayEngine.SettledEventsAddNothing | intraday_engine.py:162-180 | when every event is settled the loop inserts nothing |
| IntradayEngine.RerunAddsNothing | intraday_engine.py:156-191 | a second run, at any later time, over events already handled inserts no signal |
| IntradayEngine.GenerateIntradaySignals | intraday_engine.py:156-191 | the signals table becomes the fold of the loop over the window; the store invariant (one signal per article) holds; the other tables are unchanged |
| IntradayEngine.HandleEvent | intraday_engine.py:163-191 | one iteration updates the signals table by the step the fold uses: unchanged when the article already has a signal or the event yields none, else that signal appended (`StepAppends`) |
| NewsProcessor.LexiconsAreDistinct | news_processor.py:21-22 | the twelve lexicon words are distinct, six per list |
| NewsProcessor.Hits | news_processor.py:57-58 | a hit count never exceeds the lexicon size |
| NewsProcessor.Present | news_processor.py:89-91 | the words found are as many as the hits |
| NewsProcessor.PresentMembers | news_processor.py:85-93 | a word is found iff it is in the lexicon and occurs in the text |
| NewsProcessor.PresentAppend | news_processor.py:89 | scanning the concatenated lexicons is scanning each in turn |
| NewsProcessor.PresentNoDuplicates | news_processor.py:89-91 | no word is found twice |
| NewsProcessor.HitsCountsDistinctWords | news_processor.py:57-58 | the hit count is the number of distinct lexicon words present |
| NewsProcessor.AnalyzeSentiment | news_processor.py:54-65 | bullish with the positive count when it wins, bearish with the negative count when it wins, neutral with 0 on a tie |
| NewsProcessor.DetectCompanyFirstMatch | news_processor.py:71-79 | None iff no company's lowered name or symbol occurs; otherwise the id of the first such company |
| NewsProcessor.DetectCompany | news_processor.py:71-79 | the id of the first roster company whose lowered name or symbol occurs in the text; characterised by `DetectCompanyFirstMatch` |
| NewsProcessor.EmptySymbolShadowsLaterCompanies | news_processor.py:71-77 | a company with an empty symbol matches every text, so no later company is ever detected |
| NewsProcessor.ExtractKeywords | news_processor.py:85-93 | the detected words are exactly the lexicon words present, positive before negative, without duplicates, as many as the hits |
| NewsProcessor.EventShape | news_processor.py:107-136 | an event exists iff the detected company id is present and non-zero and the sentiment has hits; it carries the article and company ids, the non-neutral sentiment, base = final = 10 x hits (10 to 60), boost 0, confidence min(20 x hits, 100), category GENERAL, processed_at now |
| NewsProcessor.Unprocessed | news_processor.py:28-35 | the fetch holds exactly the rows with is_processed false |
| NewsProcessor.UnprocessedIdsIncrease | news_processor.py:28-35 | the fetched articles keep the table's increasing id order |
| NewsProcessor.EventRefersTo | news_processor.py:125-128 | an event names its article and a company of the roster |
| NewsProcessor.EventsForRefer | news_processor.py:107-136 | every inserted event names a handled article and a roster company |
| NewsProcessor.EventsForOnePerArticle | news_processor.py:107-136 | one run inserts at most one event per article |
| NewsProcessor.MarkAllMarks | news_processor.py:138-144 | marking a list of articles marks exactly the rows with those ids and nothing else |
| NewsProcessor.MarkProcessed | news_processor.py:139-144 | the update sets is_processed on the rows whose id matches and leaves every other row as it was |
| NewsProcessor.AllMarked | news_processor.py:107-144 | after the loop every row is processed and otherwise unchanged |
| NewsProcessor.AnalyzeArticle | news_processor.py:108-136 | the per-article computation returns the event `EventFor` specifies |
| NewsProcessor.ProcessArticle | news_processor.py:107-144 | one iteration appends that article's event, if any, and marks it processed |
| NewsProcessor.ProcessArticles | news_processor.py:107-144 | the loop appends the events of the articles in order and marks them all |
| NewsProcessor.ProcessNews | news_processor.py:99-146 | events grow by exactly the events of the unprocessed articles against the NSE companies; every row ends processed and otherwise unchanged; the store invariant holds |
| NewsProcessor.ProcessNewsKeepsValid | news_processor.py:99-144 | a run keeps ids, fingerprints, event references and one event per article |
| NewsProcessor.AddedEventsReferToUnprocessed | news_processor.py:113-136 | each new event names an article that was unprocessed and an existing company |
| NewsProcessor.SecondRunFindsNothing | news_processor.py:99-144 | once every row is processed a second run fetches nothing and inserts nothing |
| NewsIngestion.HashInput | news_ingestion.py:38 | the digested string is the title, one dash, then the url |
| NewsIngestion.GenerateHash | news_ingestion.py:37-39 | the fingerprint is the digest of `HashInput`; `DashIsAmbiguous` shows two pairs that collide before hashing |
| NewsIngestion.DashIsAmbiguous | news_ingestion.py:37-39 | ("a-b", "c") and ("a", "b-c") share a fingerprint |
| NewsIngestion.InsertOutcome | news_ingestion.py:46-69 | a known fingerprint changes nothing; otherwise exactly one row is appended with the next id, the fields given and is_processed false; the fingerprint is present afterwards |
| NewsIngestion.InsertTwiceAddsOnce | news_ingestion.py:46-69 | inserting the same title and url again adds nothing, whatever the other fields |
| NewsIngestion.InsertKeepsRowsValid | news_ingestion.py:47-67 | an insert keeps ids positional and fingerprints unique |
| NewsIngestion.InsertArticle | news_ingestion.py:46-69 | returns true iff the fingerprint was new; the rows become `AfterInsert`; the other tables are unchanged |
| NewsIngestion.PublishedAt | news_ingestion.py:91-93 | a timestamp exists iff published_parsed is present and non-empty; it is a prefix of it of at most six fields, exactly six when there are six or more |
| NewsIngestion.IngestEntryGrows | news_ingestion.py:84-101 | one entry keeps the rows as a prefix, adds at most one, and leaves an admitted entry's fingerprint present |
| NewsIngestion.IngestAllGrows | news_ingestion.py:83-104 | a feed keeps the rows as a prefix, adds at most one row per entry, and every admitted entry's fingerprint is present |
| NewsIngestion.SettledFeedAddsNothing | news_ingestion.py:83-104 | a feed whose admitted entries are all stored adds nothing |
| NewsIngestion.ReingestAddsNothing | news_ingestion.py:76-106 | re-ingesting a feed, at any time and under any source, adds no row |
| NewsIngestion.IngestOne | news_ingestion.py:84-104 | an entry is inserted iff its title and link are non-blank and its fingerprint is new |
| NewsIngestion.IngestFeed | news_ingestion.py:76-106 | the rows become the fold over the entries; the count is the number of rows added, at most one per entry; the invariant holds |
| PricesSnapshot.SymbolMap | sync_prices_snapshot.py:114 | the map's keys are exactly the companies' symbols |
| PricesSnapshot.SymbolMapLaterWins | sync_prices_snapshot.py:114 | a symbol maps to the id of its last company |
| PricesSnapshot.SymbolMapValues | sync_prices_snapshot.py:114 | every value is the id of a company with that symbol |
| PricesSnapshot.Symbols | sync_prices_snapshot.py:115 | the symbol list holds each key once |
| PricesSnapshot.BatchesBounded | sync_prices_snapshot.py:117-120 | every batch holds 1 to 50 symbols |
| PricesSnapshot.Batches | sync_prices_snapshot.py:117-120 | the slices `symbols[i:i+50]` for i = 0, 50, 100, ...; `BatchesBounded`, `BatchesFlatten` and `BatchesDisjoint` prove they partition the list |
| PricesSnapshot.BatchesFlatten | sync_prices_snapshot.py:117-120 | the batches concatenated in order give back the symbol list |
| PricesSnapshot.BatchesDisjoint | sync_prices_snapshot.py:117-120 | distinct symbols fall into disjoint batches |
| PricesSnapshot.SuffixRoundTrip | sync_prices_snapshot.py:81 | deleting ".NS" from symbol + ".NS" gives the symbol back when it had no ".NS" |
| PricesSnapshot.RequestedSymbolsMapBack | sync_prices_snapshot.py:41 | every requested symbol maps back to its batch symbol (no ".NS" inside) |
| PricesSnapshot.YahooSymbols | sync_prices_snapshot.py:41 | each batch symbol with ".NS" appended, in order; `RequestedSymbolsMapBack` proves each maps back |
| PricesSnapshot.InnerSuffixIsLost | sync_prices_snapshot.py:81 | "M.NSX" requested as "M.NSX.NS" comes back as "MX" |
| PricesSnapshot.RowFor | sync_prices_snapshot.py:80-99 | a row exists iff the symbol with every ".NS" deleted is in the map with a non-zero id and the insert is not rejected; it carries that id and the quote's fields |
| PricesSnapshot.SkippedQuoteChangesNothingElse | sync_prices_snapshot.py:84-101 | a skipped or failed quote leaves the other quotes' handling exactly as without it |
| PricesSnapshot.PricesAfterGrows | sync_prices_snapshot.py:79-101 | old rows stay, at most one row is added per quote, and each added row names a non-zero id of the map |
| PricesSnapshot.InsertPrices | sync_prices_snapshot.py:79-101 | prices become the fold of `RowFor` over the quotes; the other tables are unchanged |
| PricesSnapshot.PricesForBatchesGrows | sync_prices_snapshot.py:119-131 | the request loop keeps old rows and adds only rows naming ids of the map |
| PricesSnapshot.SyncBatch | sync_prices_snapshot.py:124-129 | one batch inserts the rows of the quotes returned for its suffixed symbols; an empty result inserts none |
| PricesSnapshot.SyncPrices | sync_prices_snapshot.py:108-133 | prices become the fold over `symbols[i:i+50]` batches of the NSE symbols; the other tables are unchanged |
| PricesSnapshot.SyncAddsOnlyNseCompanies | sync_prices_snapshot.py:111-127 | every row the sync adds names the id of an NSE company |
| NseUniverse.RemoveBom | sync_nse_universe.py:38 | the result holds exactly the text's characters other than U+FEFF |
| NseUniverse.RemoveBomAppend | sync_nse_universe.py:38 | removal distributes over concatenation, so order is kept |
| NseUniverse.RemoveBomKeepsCleanText | sync_nse_universe.py:38 | a text without U+FEFF is unchanged |
| NseUniverse.NormalizeHeadersIdempotent | sync_nse_universe.py:43-49 | normalising twice is normalising once, so re-stripping keys in the row is a no-op |
| NseUniverse.NormalizeValue | sync_nse_universe.py:49 | None and "" become ""; otherwise the stripped value; the result has no surrounding whitespace |
| NseUniverse.ToMap | sync_nse_universe.py:49 | the dict's keys are exactly the pairs' keys |
| NseUniverse.ToMapLastWins | sync_nse_universe.py:49 | a duplicate key holds the value of its last pair |
| NseUniverse.ToMapEntries | sync_nse_universe.py:49 | every entry of the dict is one of the pairs |
| NseUniverse.NormalizeRowShape | sync_nse_universe.py:49 | each stripped key holds the normalised value of its last pair, free of surrounding whitespace |
| NseUniverse.NormalizeRow | sync_nse_universe.py:49 | the dict of stripped keys to normalised values, a later duplicate key winning; characterised by `ToMap`, `ToMapLastWins` and `NormalizeRowShape` |
| NseUniverse.ParseRow | sync_nse_universe.py:47-49 | a record yields a row iff it is non-empty and no longer than the header |
| NseUniverse.KeptExact | sync_nse_universe.py:47-54 | the loop raises iff some record is overlong; otherwise it keeps exactly the rows whose SERIES is "EQ", at most one per record |
| NseUniverse.Kept | sync_nse_universe.py:47-54 | the equities the loop collects, or None when a record makes it raise; characterised by `KeptExact`, `KeptSingle` and `KeptAppend` |
| NseUniverse.KeptSingle | sync_nse_universe.py:47-52 | one record alone contributes nothing if empty, raises if overlong, and contributes exactly its normalised row when its SERIES is "EQ" |
| NseUniverse.KeptAppend | sync_nse_universe.py:47-54 | the records of a prefix and a suffix give the prefix's equities followed by the suffix's, failing if either fails: with `KeptSingle`, the result is the EQ rows in record order, one entry per record |
| NseUniverse.KeptFailureSticks | sync_nse_universe.py:47-49 | once a record raises, later records do not matter |
| NseUniverse.CollectEquities | sync_nse_universe.py:45-54 | the loop returns the `Kept` result of the parsed records |
| NseUniverse.FetchNseEquities | sync_nse_universe.py:29-54 | removes U+FEFF, strips the headers, collects the EQ rows; raises (None) without a header line |
| NseUniverse.FindSymbol | sync_nse_universe.py:69-78 | finds a company carrying the symbol, or reports that none does |
| NseUniverse.UpsertOutcome | sync_nse_universe.py:61-80 | no symbol gives None and no change; otherwise the returned id's row carries the symbol, name, ISIN, "NSE", listed; a row is appended iff the symbol was new; other rows are unchanged |
| NseUniverse.Upserted | sync_nse_universe.py:61-80 | the companies table after one upsert on conflict of symbol; characterised by `UpsertOutcome` and `UpsertIdempotent` |
| NseUniverse.UpsertedId | sync_nse_universe.py:61-80 | the id `upsert_company` returns: the existing company's id on conflict, the next id on insert, None without a symbol; characterised by `UpsertOutcome` |
| NseUniverse.UpsertKeepsCompaniesValid | sync_nse_universe.py:69-78 | an upsert keeps ids positional and symbols unique |
| NseUniverse.UpsertIdempotent | sync_nse_universe.py:69-78 | upserting the same row twice is upserting it once |
| NseUniverse.WithSymbol | sync_nse_universe.py:94-99 | the number of rows with a symbol never exceeds the number of rows |
| NseUniverse.UpsertKeepsListed | sync_nse_universe.py:69-78 | an upsert keeps every symbol listed and lists the row's symbol |
| NseUniverse.UpsertAllLists | sync_nse_universe.py:96-99 | after the loop every row's symbol is listed |
| NseUniverse.UpsertListedKeepsCount | sync_nse_universe.py:96-99 | rows whose symbols are all listed add no company |
| NseUniverse.RerunKeepsCompanyCount | sync_nse_universe.py:87-99 | a second sync with the same rows leaves the company count unchanged |
| NseUniverse.UpsertCompany | sync_nse_universe.py:61-80 | companies become `Upserted`, the id `UpsertedId`; the store invariant holds; the other tables are unchanged |
| NseUniverse.SyncUniverse | sync_nse_universe.py:94-101 | companies become the fold of the upserts; count is the number of rows with a symbol, at most the EQ row count |

## Left out

- The Supabase client. Each `.table(...).execute()` is a read or update of a `Datastore` field. The storage engine's own uniqueness constraints and any concurrent check-then-act race are outside this sequential model.
- Telegram delivery. Both `send_telegram_alert` definitions and `test_telegram.py` are left out. Neither is ever called; the second, defined at module level, replaces the first when the module loads. The alert text and the `.single()` lookups of the company name and headline that only feed that text are also left out.
- Clock and windows. `datetime.utcnow()` becomes the integer parameter `now`. The 12-hour window of `fetch_recent_events` becomes the parameter `cutoff`. ISO timestamps are integers.
- SHA-256. `hashlib.sha256(...).hexdigest()` is the function parameter `sha`. Nothing is assumed about it, so collisions of the digest itself are not excluded.
- External fetches and parsing:
  - feedparser, the quote-service HTTP request and its status and JSON handling (`fetch_prices` returns `[]` on every failure);
  - the equity-list download, its status check and the UTF-8 decoding;
  - CSV splitting.
  These become the parameters `entries`, `fetch` and `parse`. `time.sleep` is left out.
- Database insert failures in `insert_prices` become the predicate parameter `rejects`.
- `fetch_rss_sources` and the `main` of `news_ingestion.py` (looping `IngestFeed` over sources) are not modelled separately.
- `sync_nifty_500.py`, `pipeline_runner.py` and `config.py` are not part of this model. The first is network access and upserts, and its indentation is inconsistent as written. The second is subprocess orchestration. The third is environment setup.
- Text.ToLower: ASCII letters only. Python's Unicode case mapping is not modelled.
- Text.Strip: ASCII whitespace only. Unicode spaces are not modelled.
- NewsIngestion.PublishedAt: keeps the first six fields of `published_parsed` rather than the ISO text `datetime(...)` builds. It does not model the `ValueError` or `TypeError` that `datetime` raises for an out-of-range or too-short tuple.
- Market data fields. Quote values are `Option<real>`; floating point is not modelled.
- `.single()` failures on a missing row are excluded by `Valid()`, since every event names an existing article. They are not modelled as errors.
- Row order of fetches. A `.select(...)` without `.order(...)` returns rows in an order the database does not fix, and that order can change after updates. The model reads every fetch in table order: `Store.CompaniesOn`, `NewsProcessor.Unprocessed`, `IntradayEngine.RecentEvents` and the companies of `PricesSnapshot.SyncPrices`. So `NewsProcessor.DetectCompany` picks the first mentioned company in table order. The real script picks the first in whatever order the database returns, so with two mentioned companies the chosen one is not determined by the code.
- Dict ordering. A Python dict becomes a Dafny `map` when only lookups matter: the symbol map and CSV rows. It becomes a sequence when the iteration order matters: keyword tables and the symbol list.
- NseUniverse.RerunKeepsCompanyCount: states that the second run keeps the number of companies. It does not state that it leaves every company row identical.
- NseUniverse.FetchNseEquities: `None` stands for every exception the function raises on the text, without distinguishing them.
