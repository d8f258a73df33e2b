/**
 * The intraday shock engine: re-reads the text behind each recent processed
 * event, scores it against three weighted keyword tables, and inserts at
 * most one BUY/SELL signal per article.
 */
module IntradayEngine {
  import opened Wrappers
  import opened Text
  import opened Store

  /** A keyword table: phrases with signed weights, in the order they are scanned. */
  type Table = seq<(string, int)>

  const HighImpact: Table := [
    ("fraud", -60), ("scam", -60), ("default", -50), ("bankruptcy", -70),
    ("investigation", -40), ("resignation", -35), ("penalty", -30), ("downgrade", -25),
    ("crash", -50), ("plunge", -40), ("acquisition", 50), ("buyback", 40),
    ("stake increase", 35), ("order win", 30), ("major contract", 40), ("record profit", 35)]

  const MediumImpact: Table := [
    ("growth", 15), ("upgrade", 15), ("expansion", 20), ("guidance raise", 25),
    ("decline", -15), ("loss", -20)]

  const LowImpact: Table := [("volatility", 5), ("market reaction", 5)]

  /** The text the engine scores: title, a space and content, lower-cased; a null content reads "None". */
  function ArticleText(article: RawNews): string {
    ToLower(article.title + " " + article.content.GetOr("None"))
  }

  /** A keyword of the title is seen by the scorer whatever the content is. */
  lemma TitleKeywordsAreScored(article: RawNews, phrase: string)
    requires Contains(ToLower(article.title), phrase)
    ensures Contains(ArticleText(article), phrase)
  {
    var rest := " " + article.content.GetOr("None");
    assert article.title + " " + article.content.GetOr("None") == article.title + rest;
    ToLowerAppend(article.title, rest);
    ContainsInLeft(ToLower(article.title), ToLower(rest), phrase);
  }

  /** What one table entry adds to the score of `text`: its weight if its phrase occurs. */
  function Contribution(entry: (string, int), text: string): int {
    if Contains(text, entry.0) then entry.1 else 0
  }

  /** The sum of the weights of the table's phrases that occur in `text`, each counted once. */
  function TableScore(table: Table, text: string): int
    decreases |table|
  {
    if table == [] then 0
    else TableScore(table[..|table| - 1], text) + Contribution(table[|table| - 1], text)
  }

  /** Some phrase of the table occurs in `text`. */
  predicate AnyMatch(table: Table, text: string) {
    exists i :: 0 <= i < |table| && Contains(text, table[i].0)
  }

  function Abs(x: int): nat {
    if x < 0 then -x else x
  }

  /** The sum of the absolute weights of a table. */
  function Magnitude(table: Table): nat
    decreases |table|
  {
    if table == [] then 0 else Magnitude(table[..|table| - 1]) + Abs(table[|table| - 1].1)
  }

  /**
   * The (severity, score) that `classify_event` returns: the tables are
   * consulted in the order HIGH, MEDIUM, LOW and only the first table with a
   * matching phrase contributes; its tier is the severity.
   */
  function Classify(text: string): (Option<Severity>, int) {
    if AnyMatch(HighImpact, text) then (Some(High), TableScore(HighImpact, text))
    else if AnyMatch(MediumImpact, text) then (Some(Medium), TableScore(MediumImpact, text))
    else if AnyMatch(LowImpact, text) then (Some(Low), TableScore(LowImpact, text))
    else (None, 0)
  }

  /** One pass of `for keyword, weight in TABLE.items()` of `classify_event`. */
  method ScanTable(table: Table, text: string, tier: Severity, severity0: Option<Severity>, score0: int)
    returns (severity: Option<Severity>, score: int)
    ensures score == score0 + TableScore(table, text)
    ensures severity == if AnyMatch(table, text) then Some(tier) else severity0
  {
    severity, score := severity0, score0;
    for i := 0 to |table|
      invariant score == score0 + TableScore(table[..i], text)
      invariant severity == if AnyMatch(table[..i], text) then Some(tier) else severity0
    {
      assert table[..i + 1][..i] == table[..i];
      assert table[..i + 1][i] == table[i];
      var (keyword, weight) := table[i];
      if Contains(text, keyword) {
        score := score + weight;
        severity := Some(tier);
      }
    }
    assert table[..|table|] == table;
  }

  /**
   * `classify_event`: a HIGH phrase decides the severity and only HIGH
   * weights count; MEDIUM is consulted only without a HIGH match, LOW only
   * without either; text with no phrase at all gives (None, 0).
   */
  method ClassifyEvent(text: string) returns (severity: Option<Severity>, score: int)
    ensures AnyMatch(HighImpact, text) ==>
              severity == Some(High) && score == TableScore(HighImpact, text)
    ensures !AnyMatch(HighImpact, text) && AnyMatch(MediumImpact, text) ==>
              severity == Some(Medium) && score == TableScore(MediumImpact, text)
    ensures !AnyMatch(HighImpact, text) && !AnyMatch(MediumImpact, text) && AnyMatch(LowImpact, text) ==>
              severity == Some(Low) && score == TableScore(LowImpact, text)
    ensures !AnyMatch(HighImpact, text) && !AnyMatch(MediumImpact, text) && !AnyMatch(LowImpact, text) ==>
              severity == None && score == 0
    ensures (severity, score) == Classify(text)
  {
    severity, score := ScanTable(HighImpact, text, High, None, 0);
    NoMatchScoresZero(HighImpact, text);
    if severity.None? {
      severity, score := ScanTable(MediumImpact, text, Medium, severity, score);
      NoMatchScoresZero(MediumImpact, text);
    }
    if severity.None? {
      severity, score := ScanTable(LowImpact, text, Low, severity, score);
    }
  }

  /** A table none of whose phrases occurs adds nothing to the score. */
  lemma {:induction false} NoMatchScoresZero(table: Table, text: string)
    ensures !AnyMatch(table, text) ==> TableScore(table, text) == 0
    decreases |table|
  {
    if table != [] && !AnyMatch(table, text) {
      var init := table[..|table| - 1];
      assert !AnyMatch(init, text) by {
        forall i | 0 <= i < |init| ensures !Contains(text, init[i].0) {
          assert init[i] == table[i];
        }
      }
      NoMatchScoresZero(init, text);
    }
  }

  /**
   * A phrase adds its weight at most once however often it occurs, so a
   * table's score never exceeds the sum of its absolute weights.
   */
  lemma {:induction false} TableScoreBounded(table: Table, text: string)
    ensures Abs(TableScore(table, text)) <= Magnitude(table)
    decreases |table|
  {
    if table != [] {
      TableScoreBounded(table[..|table| - 1], text);
    }
  }

  /** The score depends only on which phrases occur, not on how often or where. */
  lemma {:induction false} TableScoreByPresence(table: Table, t1: string, t2: string)
    requires forall i :: 0 <= i < |table| ==> (Contains(t1, table[i].0) <==> Contains(t2, table[i].0))
    ensures TableScore(table, t1) == TableScore(table, t2)
    ensures AnyMatch(table, t1) == AnyMatch(table, t2)
    decreases |table|
  {
    if table != [] {
      var init := table[..|table| - 1];
      forall i | 0 <= i < |init| ensures Contains(t1, init[i].0) <==> Contains(t2, init[i].0) {
        assert init[i] == table[i];
      }
      TableScoreByPresence(init, t1, t2);
    }
  }

  /** Two texts in which the same phrases occur are classified alike. */
  lemma ClassifyByPresence(t1: string, t2: string)
    requires forall i :: 0 <= i < |HighImpact| ==> (Contains(t1, HighImpact[i].0) <==> Contains(t2, HighImpact[i].0))
    requires forall i :: 0 <= i < |MediumImpact| ==> (Contains(t1, MediumImpact[i].0) <==> Contains(t2, MediumImpact[i].0))
    requires forall i :: 0 <= i < |LowImpact| ==> (Contains(t1, LowImpact[i].0) <==> Contains(t2, LowImpact[i].0))
    ensures Classify(t1) == Classify(t2)
  {
    TableScoreByPresence(HighImpact, t1, t2);
    TableScoreByPresence(MediumImpact, t1, t2);
    TableScoreByPresence(LowImpact, t1, t2);
  }

  /** The score is bounded by the magnitude of the one table that was consulted. */
  lemma ClassifyScoreBounded(text: string)
    ensures Classify(text).0 == Some(High) ==> Abs(Classify(text).1) <= Magnitude(HighImpact)
    ensures Classify(text).0 == Some(Medium) ==> Abs(Classify(text).1) <= Magnitude(MediumImpact)
    ensures Classify(text).0 == Some(Low) ==> Abs(Classify(text).1) <= Magnitude(LowImpact)
    ensures Classify(text).0 == None ==> Classify(text).1 == 0
  {
    TableScoreBounded(HighImpact, text);
    TableScoreBounded(MediumImpact, text);
    TableScoreBounded(LowImpact, text);
  }

  /**
   * The signal `generate_intraday_signals` inserts for an event whose article
   * text is `text`: BUY at a score of 10 or more, SELL at -10 or less, none
   * without a severity or with a score in -9..9.
   */
  function SignalFor(e: ProcessedEvent, text: string, now: int): Option<Signal> {
    var (severity, score) := Classify(text);
    if severity.None? then None
    else if score >= 10 then Some(Signal(e.companyId, e.rawNewsId, Buy, severity.value, score, now, true))
    else if score <= -10 then Some(Signal(e.companyId, e.rawNewsId, Sell, severity.value, score, now, true))
    else None
  }

  /**
   * A signal is produced exactly when the text has a severity and a score
   * outside -9..9; it is BUY exactly for a score of 10 or more, and it
   * carries the event's company and article, the severity and score of
   * `classify_event`, the run's timestamp and is_active true.
   */
  lemma SignalThresholds(e: ProcessedEvent, text: string, now: int)
    ensures SignalFor(e, text, now).Some? <==>
              Classify(text).0.Some? && (Classify(text).1 >= 10 || Classify(text).1 <= -10)
    ensures SignalFor(e, text, now).Some? ==>
              var s := SignalFor(e, text, now).value;
              && (s.signalType == Buy <==> Classify(text).1 >= 10)
              && (s.signalType == Sell <==> Classify(text).1 <= -10)
              && s.companyId == e.companyId && s.rawNewsId == e.rawNewsId
              && Some(s.severity) == Classify(text).0 && s.signalScore == Classify(text).1
              && s.generatedAt == now && s.isActive
  {
  }

  /**
   * A LOW-tier text never yields a SELL: its score is 5 or 10, and it yields
   * a BUY exactly when both LOW phrases occur.
   */
  lemma LowTierOnlyBuys(e: ProcessedEvent, text: string, now: int)
    requires Classify(text).0 == Some(Low)
    ensures Classify(text).1 == 5 || Classify(text).1 == 10
    ensures SignalFor(e, text, now).Some? <==>
              Contains(text, LowImpact[0].0) && Contains(text, LowImpact[1].0)
    ensures SignalFor(e, text, now).Some? ==> SignalFor(e, text, now).value.signalType == Buy
  {
    var a, b := Contains(text, LowImpact[0].0), Contains(text, LowImpact[1].0);
    assert LowImpact[..|LowImpact| - 1] == [LowImpact[0]];
    assert [LowImpact[0]][..0] == [];
    assert TableScore(LowImpact, text) == (if a then 5 else 0) + (if b then 5 else 0);
    assert a || b;
  }

  /** `signal_exists`: some signal already refers to the article. */
  predicate HasSignal(signals: seq<Signal>, rawNewsId: Id) {
    exists k :: 0 <= k < |signals| && signals[k].rawNewsId == rawNewsId
  }

  /** Every event refers to a `raw_news` row. */
  ghost predicate EventsHaveArticles(events: seq<ProcessedEvent>, raw: seq<RawNews>) {
    forall e :: e in events ==> 1 <= e.rawNewsId <= |raw|
  }

  /** `fetch_recent_events`: the events processed at or after `cutoff`, in table order. */
  function RecentEvents(events: seq<ProcessedEvent>, cutoff: int): (r: seq<ProcessedEvent>)
    ensures forall e :: e in r <==> e in events && e.processedAt >= cutoff
    decreases |events|
  {
    if events == [] then []
    else
      var init := RecentEvents(events[..|events| - 1], cutoff);
      var last := events[|events| - 1];
      assert events == events[..|events| - 1] + [last];
      if last.processedAt >= cutoff then init + [last] else init
  }

  /** The signals table after the loop body has handled event `e`. */
  function Step(signals: seq<Signal>, e: ProcessedEvent, raw: seq<RawNews>, now: int): seq<Signal>
    requires 1 <= e.rawNewsId <= |raw|
  {
    if HasSignal(signals, e.rawNewsId) then signals
    else match SignalFor(e, ArticleText(raw[e.rawNewsId - 1]), now)
      case None => signals
      case Some(s) => signals + [s]
  }

  /** The signals table after the loop has handled `events` in order. */
  function SignalsAfter(events: seq<ProcessedEvent>, signals: seq<Signal>, raw: seq<RawNews>, now: int): seq<Signal>
    requires EventsHaveArticles(events, raw)
    decreases |events|
  {
    if events == [] then signals
    else
      var init := events[..|events| - 1];
      assert forall e :: e in init ==> e in events;
      Step(SignalsAfter(init, signals, raw, now), events[|events| - 1], raw, now)
  }

  /**
   * The old signals stay in place, and each new one is the signal
   * `SignalFor` gives for some handled event.
   */
  lemma {:induction false} SignalsAfterOnlyAppends(events: seq<ProcessedEvent>, signals: seq<Signal>, raw: seq<RawNews>, now: int)
    requires EventsHaveArticles(events, raw)
    ensures var r := SignalsAfter(events, signals, raw, now);
            && |signals| <= |r| && r[..|signals|] == signals
            && forall k :: |signals| <= k < |r| ==>
                 exists e :: e in events && SignalFor(e, ArticleText(raw[e.rawNewsId - 1]), now) == Some(r[k])
    decreases |events|
  {
    if events != [] {
      var init := events[..|events| - 1];
      var last := events[|events| - 1];
      assert forall e :: e in init ==> e in events;
      SignalsAfterOnlyAppends(init, signals, raw, now);
      var prev := SignalsAfter(init, signals, raw, now);
      var r := SignalsAfter(events, signals, raw, now);
      StepAppends(prev, last, raw, now);
      assert r[..|prev|] == prev;
      assert r[..|signals|] == prev[..|signals|];
      forall k | |signals| <= k < |r|
        ensures exists e :: e in events && SignalFor(e, ArticleText(raw[e.rawNewsId - 1]), now) == Some(r[k])
      {
        if k < |prev| {
          var e :| e in init && SignalFor(e, ArticleText(raw[e.rawNewsId - 1]), now) == Some(prev[k]);
          assert r[k] == prev[k];
        } else {
          assert last in events;
        }
      }
    }
  }

  /** Handling one event leaves the table alone or appends that event's signal. */
  lemma StepAppends(signals: seq<Signal>, e: ProcessedEvent, raw: seq<RawNews>, now: int)
    requires 1 <= e.rawNewsId <= |raw|
    ensures var o := SignalFor(e, ArticleText(raw[e.rawNewsId - 1]), now);
            || Step(signals, e, raw, now) == signals
            || (o.Some? && !HasSignal(signals, e.rawNewsId) && Step(signals, e, raw, now) == signals + [o.value])
  {
  }

  /** The loop never inserts a second signal for an article. */
  lemma {:induction false} SignalsAfterKeepsOnePerArticle(events: seq<ProcessedEvent>, signals: seq<Signal>, raw: seq<RawNews>, now: int)
    requires EventsHaveArticles(events, raw)
    requires OneSignalPerArticle(signals)
    ensures OneSignalPerArticle(SignalsAfter(events, signals, raw, now))
    decreases |events|
  {
    if events != [] {
      var init := events[..|events| - 1];
      var e := events[|events| - 1];
      assert forall x :: x in init ==> x in events;
      SignalsAfterKeepsOnePerArticle(init, signals, raw, now);
      var prev := SignalsAfter(init, signals, raw, now);
      if !HasSignal(prev, e.rawNewsId) {
        var o := SignalFor(e, ArticleText(raw[e.rawNewsId - 1]), now);
        if o.Some? {
          var r := prev + [o.value];
          forall i, j | 0 <= i < j < |r| ensures r[i].rawNewsId != r[j].rawNewsId {
            if j == |prev| {
              assert r[i] == prev[i];
            }
          }
        }
      }
    }
  }

  /** After the loop, every handled event has a signal or is one that yields none. */
  lemma {:induction false} SignalsAfterSettlesEvents(events: seq<ProcessedEvent>, signals: seq<Signal>, raw: seq<RawNews>, now: int)
    requires EventsHaveArticles(events, raw)
    ensures forall e :: e in events ==>
              HasSignal(SignalsAfter(events, signals, raw, now), e.rawNewsId)
              || SignalFor(e, ArticleText(raw[e.rawNewsId - 1]), now).None?
    decreases |events|
  {
    if events != [] {
      var init := events[..|events| - 1];
      var last := events[|events| - 1];
      assert forall x :: x in init ==> x in events;
      SignalsAfterSettlesEvents(init, signals, raw, now);
      var prev := SignalsAfter(init, signals, raw, now);
      var r := SignalsAfter(events, signals, raw, now);
      StepAppends(prev, last, raw, now);
      assert |prev| <= |r| && r[..|prev|] == prev;
      forall e | e in events
        ensures HasSignal(r, e.rawNewsId) || SignalFor(e, ArticleText(raw[e.rawNewsId - 1]), now).None?
      {
        if e != last {
          assert e in init by {
            assert events == init + [last];
          }
          if HasSignal(prev, e.rawNewsId) {
            var k :| 0 <= k < |prev| && prev[k].rawNewsId == e.rawNewsId;
            assert r[k] == prev[k];
          }
        } else if !HasSignal(prev, e.rawNewsId) {
          var o := SignalFor(e, ArticleText(raw[e.rawNewsId - 1]), now);
          if o.Some? {
            assert r[|prev|] == o.value;
          }
        }
      }
    }
  }

  /** When every event already has a signal or yields none, the loop inserts nothing. */
  lemma {:induction false} SettledEventsAddNothing(events: seq<ProcessedEvent>, signals: seq<Signal>, raw: seq<RawNews>, now: int)
    requires EventsHaveArticles(events, raw)
    requires forall e :: e in events ==>
               HasSignal(signals, e.rawNewsId) || SignalFor(e, ArticleText(raw[e.rawNewsId - 1]), now).None?
    ensures SignalsAfter(events, signals, raw, now) == signals
    decreases |events|
  {
    if events != [] {
      var init := events[..|events| - 1];
      assert forall x :: x in init ==> x in events;
      SettledEventsAddNothing(init, signals, raw, now);
    }
  }

  /**
   * Running the engine again, at any later time, over events that were all
   * handled before (the same window, or a window inside it) inserts nothing.
   */
  lemma RerunAddsNothing(events: seq<ProcessedEvent>, again: seq<ProcessedEvent>, signals: seq<Signal>,
                         raw: seq<RawNews>, now: int, later: int)
    requires EventsHaveArticles(events, raw)
    requires forall e :: e in again ==> e in events
    ensures EventsHaveArticles(again, raw)
    ensures var first := SignalsAfter(events, signals, raw, now);
            SignalsAfter(again, first, raw, later) == first
  {
    var first := SignalsAfter(events, signals, raw, now);
    SignalsAfterSettlesEvents(events, signals, raw, now);
    forall e | e in again
      ensures HasSignal(first, e.rawNewsId) || SignalFor(e, ArticleText(raw[e.rawNewsId - 1]), later).None?
    {
      assert SignalFor(e, ArticleText(raw[e.rawNewsId - 1]), later).None?
         == SignalFor(e, ArticleText(raw[e.rawNewsId - 1]), now).None?;
    }
    SettledEventsAddNothing(again, first, raw, later);
  }

  /**
   * `generate_intraday_signals`: for each event of the last window (processed
   * at or after `cutoff`), skip it if its article already has a signal,
   * otherwise classify the article text and insert a BUY or SELL signal when
   * the thresholds are met. No alert is sent: the body ends after building
   * the alert text.
   */
  method GenerateIntradaySignals(db: Datastore, cutoff: int, now: int)
    requires db.Valid()
    modifies db
    ensures db.Valid()
    ensures EventsHaveArticles(RecentEvents(old(db.events), cutoff), db.rawNews)
    ensures db.signals == SignalsAfter(RecentEvents(old(db.events), cutoff), old(db.signals), db.rawNews, now)
    ensures db.rawNews == old(db.rawNews) && db.events == old(db.events)
    ensures db.companies == old(db.companies) && db.prices == old(db.prices)
  {
    var events := RecentEvents(db.events, cutoff);
    assert EventsHaveArticles(events, db.rawNews);
    for i := 0 to |events|
      invariant EventsHaveArticles(events[..i], db.rawNews)
      invariant db.signals == SignalsAfter(events[..i], old(db.signals), db.rawNews, now)
      invariant db.rawNews == old(db.rawNews) && db.events == old(db.events)
      invariant db.companies == old(db.companies) && db.prices == old(db.prices)
    {
      assert events[..i + 1][..i] == events[..i];
      assert events[..i + 1][i] == events[i];
      assert EventsHaveArticles(events[..i + 1], db.rawNews);
      HandleEvent(db, events[i], now);
    }
    assert events[..|events|] == events;
    SignalsAfterKeepsOnePerArticle(events, old(db.signals), db.rawNews, now);
  }

  /** The body of the `generate_intraday_signals` loop for one event. */
  method HandleEvent(db: Datastore, e: ProcessedEvent, now: int)
    requires 1 <= e.rawNewsId <= |db.rawNews|
    modifies db
    ensures db.rawNews == old(db.rawNews) && db.events == old(db.events)
    ensures db.signals == Step(old(db.signals), e, db.rawNews, now)
    ensures db.companies == old(db.companies) && db.prices == old(db.prices)
  {
    if HasSignal(db.signals, e.rawNewsId) {
      return;
    }
    var text := ArticleText(db.rawNews[e.rawNewsId - 1]);
    var severity, score := ClassifyEvent(text);
    if severity.None? {
      return;
    }
    var signalType;
    if score >= 10 {
      signalType := Buy;
    } else if score <= -10 {
      signalType := Sell;
    } else {
      return;
    }
    db.signals := db.signals + [Signal(e.companyId, e.rawNewsId, signalType, severity.value, score, now, true)];
  }
}
