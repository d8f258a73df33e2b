/**
 * The ingestion gate: each feed entry with a non-blank title and link becomes
 * a `raw_news` row unless a row with the same fingerprint already exists.
 * The fingerprint is a digest of title, a dash and url; the digest itself is
 * a parameter `sha`, so nothing is assumed about it beyond being a function.
 */
module NewsIngestion {
  import opened Wrappers
  import opened Text
  import opened Store

  /** The string `generate_hash` digests: the title, a dash, the url. */
  function HashInput(title: string, url: string): (r: string)
    ensures |r| == |title| + 1 + |url|
    ensures r[..|title|] == title && r[|title|] == '-' && r[|title| + 1..] == url
  {
    title + "-" + url
  }

  /** `generate_hash`: the digest of `HashInput(title, url)`. */
  function GenerateHash(sha: string -> string, title: string, url: string): string {
    sha(HashInput(title, url))
  }

  /**
   * The dash is not escaped, so two different (title, url) pairs that spell
   * the same string share a fingerprint, and the second is taken for a duplicate.
   */
  lemma DashIsAmbiguous(sha: string -> string, a: string, b: string, c: string)
    ensures GenerateHash(sha, a + "-" + b, c) == GenerateHash(sha, a, b + "-" + c)
  {
    assert HashInput(a + "-" + b, c) == HashInput(a, b + "-" + c);
  }

  /** Some stored row carries fingerprint `h` (`existing.data` is non-empty). */
  predicate HasHash(rows: seq<RawNews>, h: string) {
    exists k :: 0 <= k < |rows| && rows[k].hashSignature == h
  }

  /** The row `insert_article` adds when it inserts: the next id, unprocessed, fetched at `now`. */
  function NewRow(rows: seq<RawNews>, sha: string -> string, sourceId: Id, title: string, content: string,
                  url: string, publishedAt: Option<seq<int>>, now: int): RawNews {
    RawNews(|rows| + 1, sourceId, title, Some(content), url, publishedAt, now, false, GenerateHash(sha, title, url))
  }

  /** The `raw_news` rows after one `insert_article` call. */
  function AfterInsert(rows: seq<RawNews>, sha: string -> string, sourceId: Id, title: string, content: string,
                       url: string, publishedAt: Option<seq<int>>, now: int): seq<RawNews> {
    if HasHash(rows, GenerateHash(sha, title, url)) then rows
    else rows + [NewRow(rows, sha, sourceId, title, content, url, publishedAt, now)]
  }

  /**
   * A duplicate fingerprint leaves the rows unchanged; otherwise exactly one
   * row is appended, carrying the fingerprint, the given fields, the next id
   * and is_processed false. Either way the fingerprint is present afterwards.
   */
  lemma InsertOutcome(rows: seq<RawNews>, sha: string -> string, sourceId: Id, title: string, content: string,
                      url: string, publishedAt: Option<seq<int>>, now: int)
    ensures var h := GenerateHash(sha, title, url);
            var r := AfterInsert(rows, sha, sourceId, title, content, url, publishedAt, now);
            && (HasHash(rows, h) ==> r == rows)
            && (!HasHash(rows, h) ==>
                  && |r| == |rows| + 1 && r[..|rows|] == rows
                  && r[|rows|].id == |rows| + 1 && r[|rows|].hashSignature == h
                  && r[|rows|].sourceId == sourceId && r[|rows|].title == title
                  && r[|rows|].content == Some(content) && r[|rows|].url == url
                  && r[|rows|].publishedAt == publishedAt && r[|rows|].fetchedAt == now
                  && !r[|rows|].isProcessed)
            && HasHash(r, h)
  {
    var h := GenerateHash(sha, title, url);
    var r := AfterInsert(rows, sha, sourceId, title, content, url, publishedAt, now);
    if !HasHash(rows, h) {
      assert r[|rows|].hashSignature == h;
    }
  }

  /**
   * Inserting the same title and url twice adds at most one row: the second
   * call finds the fingerprint, whatever its other arguments and time.
   */
  lemma InsertTwiceAddsOnce(rows: seq<RawNews>, sha: string -> string, sourceId: Id, title: string, content: string,
                            url: string, publishedAt: Option<seq<int>>, now: int,
                            sourceId2: Id, content2: string, publishedAt2: Option<seq<int>>, later: int)
    ensures var once := AfterInsert(rows, sha, sourceId, title, content, url, publishedAt, now);
            AfterInsert(once, sha, sourceId2, title, content2, url, publishedAt2, later) == once
  {
    InsertOutcome(rows, sha, sourceId, title, content, url, publishedAt, now);
  }

  /** Growing the rows at the end keeps every fingerprint present. */
  lemma HasHashInPrefix(rows: seq<RawNews>, longer: seq<RawNews>, h: string)
    requires |rows| <= |longer| && longer[..|rows|] == rows
    requires HasHash(rows, h)
    ensures HasHash(longer, h)
  {
    var k :| 0 <= k < |rows| && rows[k].hashSignature == h;
    assert longer[k] == rows[k];
  }

  /** An insert keeps ids positional and fingerprints unique. */
  lemma InsertKeepsRowsValid(rows: seq<RawNews>, sha: string -> string, sourceId: Id, title: string, content: string,
                             url: string, publishedAt: Option<seq<int>>, now: int)
    requires ArticleIdsArePositions(rows) && UniqueFingerprints(rows)
    ensures var r := AfterInsert(rows, sha, sourceId, title, content, url, publishedAt, now);
            ArticleIdsArePositions(r) && UniqueFingerprints(r)
  {
    var h := GenerateHash(sha, title, url);
    var r := AfterInsert(rows, sha, sourceId, title, content, url, publishedAt, now);
    if !HasHash(rows, h) {
      forall i, j | 0 <= i < j < |r| ensures r[i].hashSignature != r[j].hashSignature {
        if j == |rows| {
          assert r[i] == rows[i];
        }
      }
    }
  }

  /** Events that referred to rows still refer to them after rows are appended. */
  lemma AppendKeepsEventRefs(events: seq<ProcessedEvent>, rows: seq<RawNews>, longer: seq<RawNews>, companies: seq<Company>)
    requires EventsReferToRows(events, rows, companies)
    requires |rows| <= |longer| && longer[..|rows|] == rows
    ensures EventsReferToRows(events, longer, companies)
  {
    forall e | e in events ensures 1 <= e.rawNewsId <= |longer| && longer[e.rawNewsId - 1].isProcessed {
      assert longer[e.rawNewsId - 1] == rows[e.rawNewsId - 1];
    }
  }

  /**
   * `insert_article`: look the fingerprint up; if a row has it, return false
   * and change nothing; otherwise insert the new row and return true.
   */
  method InsertArticle(db: Datastore, sha: string -> string, sourceId: Id, title: string, content: string,
                       url: string, publishedAt: Option<seq<int>>, now: int) returns (inserted: bool)
    requires db.Valid()
    modifies db
    ensures db.Valid()
    ensures inserted <==> !HasHash(old(db.rawNews), GenerateHash(sha, title, url))
    ensures db.rawNews == AfterInsert(old(db.rawNews), sha, sourceId, title, content, url, publishedAt, now)
    ensures db.events == old(db.events) && db.signals == old(db.signals)
    ensures db.companies == old(db.companies) && db.prices == old(db.prices)
  {
    var hashSignature := GenerateHash(sha, title, url);
    if HasHash(db.rawNews, hashSignature) {
      return false;
    }
    InsertKeepsRowsValid(db.rawNews, sha, sourceId, title, content, url, publishedAt, now);
    var row := RawNews(|db.rawNews| + 1, sourceId, title, Some(content), url, publishedAt, now, false, hashSignature);
    ghost var rows0 := db.rawNews;
    db.rawNews := db.rawNews + [row];
    assert db.rawNews[..|rows0|] == rows0;
    AppendKeepsEventRefs(db.events, rows0, db.rawNews, db.companies);
    inserted := true;
  }

  /** A feed entry as the parser yields it; a missing key reads as `None`. */
  datatype Entry = Entry(title: Option<string>, link: Option<string>, summary: Option<string>,
                         publishedParsed: Option<seq<int>>)

  /** `entry.get(key, "").strip()`. */
  function Field(value: Option<string>): string {
    Strip(value.GetOr(""))
  }

  /**
   * The published_at `ingest_feed` passes: nothing unless the entry has a
   * non-empty published_parsed, else its first six fields (year to second).
   */
  function PublishedAt(e: Entry): (r: Option<seq<int>>)
    ensures r.Some? <==> e.publishedParsed.Some? && e.publishedParsed.value != []
    ensures r.Some? ==> |r.value| <= 6 && |r.value| <= |e.publishedParsed.value|
                        && r.value == e.publishedParsed.value[..|r.value|]
    ensures r.Some? && |e.publishedParsed.value| >= 6 ==> |r.value| == 6
  {
    if e.publishedParsed.Some? && e.publishedParsed.value != [] then
      var parsed := e.publishedParsed.value;
      Some(if |parsed| <= 6 then parsed else parsed[..6])
    else None
  }

  /** The entry has a non-blank title and link, so it reaches `insert_article`. */
  predicate Admitted(e: Entry) {
    Field(e.title) != [] && Field(e.link) != []
  }

  /** The rows after the loop body of `ingest_feed` has handled one entry. */
  function IngestEntry(rows: seq<RawNews>, sha: string -> string, sourceId: Id, e: Entry, now: int): seq<RawNews> {
    if !Admitted(e) then rows
    else AfterInsert(rows, sha, sourceId, Field(e.title), Field(e.summary), Field(e.link), PublishedAt(e), now)
  }

  /** The rows after `ingest_feed` has handled `entries` in order. */
  function IngestAll(rows: seq<RawNews>, sha: string -> string, sourceId: Id, entries: seq<Entry>, now: int): seq<RawNews>
    decreases |entries|
  {
    if entries == [] then rows
    else IngestEntry(IngestAll(rows, sha, sourceId, entries[..|entries| - 1], now), sha, sourceId, entries[|entries| - 1], now)
  }

  /** The fingerprint an admitted entry is stored under. */
  function EntryHash(sha: string -> string, e: Entry): string {
    GenerateHash(sha, Field(e.title), Field(e.link))
  }

  /**
   * Handling one entry keeps the rows as a prefix and adds at most one row;
   * afterwards an admitted entry's fingerprint is present.
   */
  lemma IngestEntryGrows(rows: seq<RawNews>, sha: string -> string, sourceId: Id, e: Entry, now: int)
    ensures var r := IngestEntry(rows, sha, sourceId, e, now);
            && |rows| <= |r| <= |rows| + 1 && r[..|rows|] == rows
            && (Admitted(e) ==> HasHash(r, EntryHash(sha, e)))
  {
    if Admitted(e) {
      InsertOutcome(rows, sha, sourceId, Field(e.title), Field(e.summary), Field(e.link), PublishedAt(e), now);
    }
  }

  /**
   * Ingesting keeps the old rows as a prefix and adds at most one row per
   * entry; afterwards every admitted entry's fingerprint is present.
   */
  lemma {:induction false} IngestAllGrows(rows: seq<RawNews>, sha: string -> string, sourceId: Id, entries: seq<Entry>, now: int)
    ensures var r := IngestAll(rows, sha, sourceId, entries, now);
            && |rows| <= |r| <= |rows| + |entries| && r[..|rows|] == rows
            && forall e :: e in entries && Admitted(e) ==> HasHash(r, EntryHash(sha, e))
    decreases |entries|
  {
    if entries != [] {
      var init := entries[..|entries| - 1];
      var last := entries[|entries| - 1];
      IngestAllGrows(rows, sha, sourceId, init, now);
      var prev := IngestAll(rows, sha, sourceId, init, now);
      var r := IngestAll(rows, sha, sourceId, entries, now);
      assert r == IngestEntry(prev, sha, sourceId, last, now);
      IngestEntryGrows(prev, sha, sourceId, last, now);
      assert r[..|rows|] == prev[..|rows|];
      forall e | e in entries && Admitted(e) ensures HasHash(r, EntryHash(sha, e)) {
        if e != last {
          assert e in init by {
            assert entries == init + [last];
          }
          HasHashInPrefix(prev, r, EntryHash(sha, e));
        }
      }
    }
  }

  /** When every admitted entry is already stored, ingesting adds nothing. */
  lemma {:induction false} SettledFeedAddsNothing(rows: seq<RawNews>, sha: string -> string, sourceId: Id, entries: seq<Entry>, now: int)
    requires forall e :: e in entries && Admitted(e) ==> HasHash(rows, EntryHash(sha, e))
    ensures IngestAll(rows, sha, sourceId, entries, now) == rows
    decreases |entries|
  {
    if entries != [] {
      var init := entries[..|entries| - 1];
      assert forall e :: e in init ==> e in entries;
      SettledFeedAddsNothing(rows, sha, sourceId, init, now);
    }
  }

  /**
   * Re-ingesting a feed that was already ingested, at any later time and
   * under any source id, adds no row (so `inserted_count` is 0).
   */
  lemma ReingestAddsNothing(rows: seq<RawNews>, sha: string -> string, sourceId: Id, entries: seq<Entry>, now: int,
                            sourceId2: Id, later: int)
    ensures var once := IngestAll(rows, sha, sourceId, entries, now);
            IngestAll(once, sha, sourceId2, entries, later) == once
  {
    var once := IngestAll(rows, sha, sourceId, entries, now);
    IngestAllGrows(rows, sha, sourceId, entries, now);
    SettledFeedAddsNothing(once, sha, sourceId2, entries, later);
  }

  /**
   * The loop body of `ingest_feed` for one entry: strip title, link and
   * summary, skip the entry when title or link is blank, otherwise call
   * `insert_article`; `inserted` is what that call returned.
   */
  method IngestOne(db: Datastore, sha: string -> string, sourceId: Id, entry: Entry, now: int)
    returns (inserted: bool)
    requires db.Valid()
    modifies db
    ensures db.Valid()
    ensures db.rawNews == IngestEntry(old(db.rawNews), sha, sourceId, entry, now)
    ensures inserted <==> Admitted(entry) && !HasHash(old(db.rawNews), EntryHash(sha, entry))
    ensures inserted <==> |db.rawNews| == |old(db.rawNews)| + 1
    ensures db.events == old(db.events) && db.signals == old(db.signals)
    ensures db.companies == old(db.companies) && db.prices == old(db.prices)
  {
    var title := Strip(entry.title.GetOr(""));
    var link := Strip(entry.link.GetOr(""));
    var summary := Strip(entry.summary.GetOr(""));
    if title == [] || link == [] {
      return false;
    }
    var published: Option<seq<int>> := None;
    if entry.publishedParsed.Some? && entry.publishedParsed.value != [] {
      var parsed := entry.publishedParsed.value;
      published := Some(if |parsed| <= 6 then parsed else parsed[..6]);
    }
    ghost var before := db.rawNews;
    inserted := InsertArticle(db, sha, sourceId, title, summary, link, published, now);
    InsertOutcome(before, sha, sourceId, title, summary, link, published, now);
  }

  /**
   * `ingest_feed` for the entries of one source: handle each entry in feed
   * order and count the inserts.
   */
  method IngestFeed(db: Datastore, sha: string -> string, sourceId: Id, entries: seq<Entry>, now: int)
    returns (insertedCount: nat)
    requires db.Valid()
    modifies db
    ensures db.Valid()
    ensures db.rawNews == IngestAll(old(db.rawNews), sha, sourceId, entries, now)
    ensures insertedCount == |db.rawNews| - |old(db.rawNews)| <= |entries|
    ensures db.events == old(db.events) && db.signals == old(db.signals)
    ensures db.companies == old(db.companies) && db.prices == old(db.prices)
  {
    insertedCount := 0;
    for i := 0 to |entries|
      invariant db.Valid()
      invariant db.rawNews == IngestAll(old(db.rawNews), sha, sourceId, entries[..i], now)
      invariant |old(db.rawNews)| + insertedCount == |db.rawNews|
      invariant db.events == old(db.events) && db.signals == old(db.signals)
      invariant db.companies == old(db.companies) && db.prices == old(db.prices)
    {
      assert entries[..i + 1][..i] == entries[..i];
      var inserted := IngestOne(db, sha, sourceId, entries[i], now);
      if inserted {
        insertedCount := insertedCount + 1;
      }
    }
    assert entries[..|entries|] == entries;
    IngestAllGrows(old(db.rawNews), sha, sourceId, entries, now);
  }
}
