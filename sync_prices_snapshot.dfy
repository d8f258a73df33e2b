/**
 * The price snapshot sync: read the NSE companies, build a symbol-to-id map,
 * ask the quote service for the symbols fifty at a time (each with the
 * exchange suffix ".NS"), map each returned quote back to a company by
 * deleting ".NS" from its symbol, and add one `prices` row per matched quote.
 * The quote service is a parameter `fetch` from the requested symbols to the
 * returned quotes (an empty list when the request fails), and the insert
 * failures the script reports and skips are a parameter `rejects`.
 */
module PricesSnapshot {
  import opened Wrappers
  import opened Text
  import opened Store

  /** Symbols go to the quote service in batches of this many. */
  const BatchSize: nat := 50

  /** The exchange suffix of the quote service. */
  const Suffix: string := ".NS"

  /** One element of the quote service's result list. */
  datatype Quote = Quote(symbol: Option<string>, fields: MarketData)

  /** `{c["symbol"]: c["id"] for c in companies}`: a later company overwrites an earlier one. */
  function SymbolMap(companies: seq<Company>): (r: map<string, Id>)
    ensures forall s :: s in r <==> exists k :: 0 <= k < |companies| && companies[k].symbol == s
    decreases |companies|
  {
    if companies == [] then map[]
    else
      var init := companies[..|companies| - 1];
      var last := companies[|companies| - 1];
      var r := SymbolMap(init)[last.symbol := last.id];
      assert forall k :: 0 <= k < |init| ==> init[k] == companies[k];
      r
  }

  /**
   * Each symbol maps to the id of its LAST company in table order, so every
   * value of the map is the id of some company listed under that symbol.
   */
  lemma {:induction false} SymbolMapLaterWins(companies: seq<Company>, k: nat)
    requires k < |companies|
    requires forall j :: k < j < |companies| ==> companies[j].symbol != companies[k].symbol
    ensures companies[k].symbol in SymbolMap(companies)
    ensures SymbolMap(companies)[companies[k].symbol] == companies[k].id
    decreases |companies|
  {
    if k < |companies| - 1 {
      var init := companies[..|companies| - 1];
      SymbolMapLaterWins(init, k);
    }
  }

  /** Every value of the map is the id of a company carrying that symbol. */
  lemma {:induction false} SymbolMapValues(companies: seq<Company>, s: string)
    requires s in SymbolMap(companies)
    ensures exists k :: 0 <= k < |companies| && companies[k].symbol == s && companies[k].id == SymbolMap(companies)[s]
    decreases |companies|
  {
    var init := companies[..|companies| - 1];
    var last := companies[|companies| - 1];
    if s != last.symbol {
      SymbolMapValues(init, s);
      var k :| 0 <= k < |init| && init[k].symbol == s && init[k].id == SymbolMap(init)[s];
      assert companies[k] == init[k];
    } else {
      assert companies[|companies| - 1] == last;
    }
  }

  /** `list(symbol_map.keys())`: each symbol once, in the order of its first company. */
  function Symbols(companies: seq<Company>): (r: seq<string>)
    ensures NoDuplicates(r)
    ensures forall s :: s in r <==> s in SymbolMap(companies)
    decreases |companies|
  {
    if companies == [] then []
    else
      var init := Symbols(companies[..|companies| - 1]);
      var last := companies[|companies| - 1];
      if last.symbol in init then init else init + [last.symbol]
  }

  /** `symbols[i:i + size]` for i = 0, size, 2 * size, ...: the batches of the request loop. */
  function Batches(s: seq<string>, size: nat): seq<seq<string>>
    requires size > 0
    decreases |s|
  {
    if s == [] then []
    else if |s| <= size then [s]
    else [s[..size]] + Batches(s[size..], size)
  }

  /** The concatenation of a list of batches. */
  function Flatten(batches: seq<seq<string>>): seq<string> {
    if batches == [] then [] else batches[0] + Flatten(batches[1..])
  }

  /** Every batch holds between one and `size` symbols. */
  lemma {:induction false} BatchesBounded(s: seq<string>, size: nat)
    requires size > 0
    ensures forall b :: b in Batches(s, size) ==> 0 < |b| <= size
    decreases |s|
  {
    if |s| > size {
      BatchesBounded(s[size..], size);
    }
  }

  /** The batches, concatenated in order, give back the symbol list. */
  lemma {:induction false} BatchesFlatten(s: seq<string>, size: nat)
    requires size > 0
    ensures Flatten(Batches(s, size)) == s
    decreases |s|
  {
    if s != [] {
      if |s| <= size {
        assert Flatten([s]) == s + Flatten([]);
      } else {
        var bs := Batches(s, size);
        BatchesFlatten(s[size..], size);
        assert bs[1..] == Batches(s[size..], size);
        assert s == s[..size] + s[size..];
      }
    }
  }

  /** A symbol in some batch is one of the requested symbols. */
  lemma {:induction false} InBatchInList(s: seq<string>, size: nat, k: nat, x: string)
    requires size > 0 && k < |Batches(s, size)| && x in Batches(s, size)[k]
    ensures x in s
    ensures k > 0 ==> x in s[size..]
    decreases |s|
  {
    if |s| > size && k > 0 {
      InBatchInList(s[size..], size, k - 1, x);
    }
  }

  /** When the symbols are distinct (as map keys are), no symbol is in two batches. */
  lemma {:induction false} BatchesDisjoint(s: seq<string>, size: nat, i: nat, j: nat, x: string)
    requires size > 0 && NoDuplicates(s)
    requires i < j < |Batches(s, size)|
    ensures !(x in Batches(s, size)[i] && x in Batches(s, size)[j])
    decreases |s|
  {
    var bs := Batches(s, size);
    assert |s| > size;
    if i == 0 {
      if x in bs[j] {
        InBatchInList(s, size, j, x);
      }
    } else {
      assert forall a, b :: 0 <= a < b < |s[size..]| ==> s[size..][a] == s[size + a] && s[size..][b] == s[size + b];
      BatchesDisjoint(s[size..], size, i - 1, j - 1, x);
    }
  }

  /** `[f"{s}.NS" for s in symbols]`: the symbols as the quote service knows them. */
  function YahooSymbols(symbols: seq<string>): (r: seq<string>)
  {
    seq(|symbols|, k requires 0 <= k < |symbols| => symbols[k] + Suffix)
  }

  /** `symbol.replace(".NS", "")`: every occurrence of the suffix is deleted. */
  function StripSuffix(symbol: string): string {
    DeleteAll(symbol, Suffix)
  }

  /** Appending the suffix and deleting it again gives back a symbol that did not contain it. */
  lemma {:induction false} SuffixRoundTrip(symbol: string)
    requires !Contains(symbol, Suffix)
    ensures StripSuffix(symbol + Suffix) == symbol
    decreases |symbol|
  {
    var t := symbol + Suffix;
    if symbol == [] {
      assert t == Suffix;
      assert DeleteAll(Suffix[3..], Suffix) == [];
    } else {
      assert !IsPrefix(Suffix, symbol);
      assert !IsPrefix(Suffix, t) by {
        if |symbol| >= 3 {
          assert t[..3] == symbol[..3];
        } else {
          assert t[|symbol|] == '.';
          assert t[0] == symbol[0];
        }
      }
      assert t[1..] == symbol[1..] + Suffix;
      SuffixRoundTrip(symbol[1..]);
    }
  }

  /** Every quote requested for a batch maps back to its symbol, as long as the symbol has no ".NS" inside. */
  lemma RequestedSymbolsMapBack(symbols: seq<string>, k: nat)
    requires k < |symbols| && !Contains(symbols[k], Suffix)
    ensures StripSuffix(YahooSymbols(symbols)[k]) == symbols[k]
  {
    SuffixRoundTrip(symbols[k]);
  }

  /**
   * A symbol with ".NS" inside loses that piece on the way back, so its
   * quotes are not matched to it.
   */
  lemma InnerSuffixIsLost()
    ensures StripSuffix("M.NSX" + Suffix) == "MX"
  {
    assert |Suffix| == 3 && Suffix[0] == '.' && Suffix[1] == 'N' && Suffix[2] == 'S';
    assert !IsPrefix(Suffix, "M.NSX.NS") by { assert "M.NSX.NS"[..3][0] == 'M'; }
    assert IsPrefix(Suffix, ".NSX.NS") by { assert ".NSX.NS"[..3] == ".NS"; }
    assert !IsPrefix(Suffix, "X.NS") by { assert "X.NS"[..3][0] == 'X'; }
    assert IsPrefix(Suffix, ".NS");
    calc {
      StripSuffix("M.NSX" + Suffix);
      { assert "M.NSX" + Suffix == "M.NSX.NS"; }
      DeleteAll("M.NSX.NS", Suffix);
      { assert "M.NSX.NS"[1..] == ".NSX.NS"; }
      "M" + DeleteAll(".NSX.NS", Suffix);
      { assert ".NSX.NS"[3..] == "X.NS"; }
      "M" + DeleteAll("X.NS", Suffix);
      { assert "X.NS"[1..] == ".NS"; }
      "M" + ("X" + DeleteAll(".NS", Suffix));
      { assert ".NS"[3..] == ""; }
      "M" + ("X" + DeleteAll("", Suffix));
      "MX";
    }
  }

  /**
   * The row `insert_prices` writes for one quote, or `None` when it writes
   * none: the stripped symbol has no id (or id 0, which Python reads as
   * false), or the insert fails.
   */
  function RowFor(q: Quote, symbolMap: map<string, Id>, rejects: Quote -> bool): (r: Option<PriceRow>)
    ensures r.Some? <==> StripSuffix(q.symbol.GetOr("")) in symbolMap
                         && symbolMap[StripSuffix(q.symbol.GetOr(""))] != 0 && !rejects(q)
    ensures r.Some? ==> r.value.companyId == symbolMap[StripSuffix(q.symbol.GetOr(""))] && r.value.data == q.fields
  {
    var rawSymbol := StripSuffix(q.symbol.GetOr(""));
    if rawSymbol !in symbolMap || symbolMap[rawSymbol] == 0 then None
    else if rejects(q) then None
    else Some(PriceRow(symbolMap[rawSymbol], q.fields))
  }

  /** The `prices` rows after `insert_prices` has handled `quotes` in order. */
  function PricesAfter(prices: seq<PriceRow>, quotes: seq<Quote>, symbolMap: map<string, Id>,
                       rejects: Quote -> bool): seq<PriceRow>
    decreases |quotes|
  {
    if quotes == [] then prices
    else
      var before := PricesAfter(prices, quotes[..|quotes| - 1], symbolMap, rejects);
      var o := RowFor(quotes[|quotes| - 1], symbolMap, rejects);
      if o.Some? then before + [o.value] else before
  }

  /** Handling quotes one list after another is handling their concatenation. */
  lemma {:induction false} PricesAfterAppend(prices: seq<PriceRow>, a: seq<Quote>, b: seq<Quote>,
                                             symbolMap: map<string, Id>, rejects: Quote -> bool)
    ensures PricesAfter(prices, a + b, symbolMap, rejects)
         == PricesAfter(PricesAfter(prices, a, symbolMap, rejects), b, symbolMap, rejects)
    decreases |b|
  {
    if b == [] {
      assert a + b == a;
    } else {
      var ab := a + b;
      assert ab[..|ab| - 1] == a + b[..|b| - 1];
      assert ab[|ab| - 1] == b[|b| - 1];
      PricesAfterAppend(prices, a, b[..|b| - 1], symbolMap, rejects);
    }
  }

  /**
   * A quote that writes no row (unmatched, or its insert failed) leaves the
   * handling of the other quotes exactly as if it were not there: a failed
   * insert does not stop the loop.
   */
  lemma SkippedQuoteChangesNothingElse(prices: seq<PriceRow>, before: seq<Quote>, q: Quote, after: seq<Quote>,
                                       symbolMap: map<string, Id>, rejects: Quote -> bool)
    requires RowFor(q, symbolMap, rejects).None?
    ensures PricesAfter(prices, before + [q] + after, symbolMap, rejects)
         == PricesAfter(prices, before + after, symbolMap, rejects)
  {
    PricesAfterAppend(prices, before + [q], after, symbolMap, rejects);
    PricesAfterAppend(prices, before, after, symbolMap, rejects);
    assert (before + [q])[..|before|] == before;
  }

  /**
   * Handling quotes keeps the old rows as a prefix, adds at most one row per
   * quote, and every added row names a company id of the map (never 0).
   */
  lemma {:induction false} PricesAfterGrows(prices: seq<PriceRow>, quotes: seq<Quote>,
                                            symbolMap: map<string, Id>, rejects: Quote -> bool)
    ensures var r := PricesAfter(prices, quotes, symbolMap, rejects);
            && |prices| <= |r| <= |prices| + |quotes| && r[..|prices|] == prices
            && forall k :: |prices| <= k < |r| ==> r[k].companyId in symbolMap.Values && r[k].companyId != 0
    decreases |quotes|
  {
    if quotes != [] {
      PricesAfterGrows(prices, quotes[..|quotes| - 1], symbolMap, rejects);
      var before := PricesAfter(prices, quotes[..|quotes| - 1], symbolMap, rejects);
      var q := quotes[|quotes| - 1];
      var o := RowFor(q, symbolMap, rejects);
      if o.Some? {
        var r := before + [o.value];
        assert r[..|prices|] == before[..|prices|];
        assert symbolMap[StripSuffix(q.symbol.GetOr(""))] in symbolMap.Values;
      }
    }
  }

  /**
   * `insert_prices`: for each quote, look its stripped symbol up; skip it
   * when there is no (truthy) id; otherwise try the insert, and on failure
   * report and go on with the next quote.
   */
  method InsertPrices(db: Datastore, quotes: seq<Quote>, symbolMap: map<string, Id>, rejects: Quote -> bool)
    modifies db
    ensures db.prices == PricesAfter(old(db.prices), quotes, symbolMap, rejects)
    ensures db.rawNews == old(db.rawNews) && db.events == old(db.events)
    ensures db.signals == old(db.signals) && db.companies == old(db.companies)
  {
    for i := 0 to |quotes|
      invariant db.prices == PricesAfter(old(db.prices), quotes[..i], symbolMap, rejects)
      invariant db.rawNews == old(db.rawNews) && db.events == old(db.events)
      invariant db.signals == old(db.signals) && db.companies == old(db.companies)
    {
      assert quotes[..i + 1][..i] == quotes[..i];
      var stock := quotes[i];
      var rawSymbol := StripSuffix(stock.symbol.GetOr(""));
      if rawSymbol !in symbolMap || symbolMap[rawSymbol] == 0 {
        continue;
      }
      var companyId := symbolMap[rawSymbol];
      if !rejects(stock) {
        db.prices := db.prices + [PriceRow(companyId, stock.fields)];
      }
    }
    assert quotes[..|quotes|] == quotes;
  }

  /** The quotes `fetch` returns for one batch, handled by `insert_prices`. */
  function PricesForBatch(prices: seq<PriceRow>, batch: seq<string>, fetch: seq<string> -> seq<Quote>,
                          symbolMap: map<string, Id>, rejects: Quote -> bool): seq<PriceRow> {
    PricesAfter(prices, fetch(YahooSymbols(batch)), symbolMap, rejects)
  }

  /** The `prices` rows after the request loop has handled `batches` in order. */
  function PricesForBatches(prices: seq<PriceRow>, batches: seq<seq<string>>, fetch: seq<string> -> seq<Quote>,
                            symbolMap: map<string, Id>, rejects: Quote -> bool): seq<PriceRow>
    decreases |batches|
  {
    if batches == [] then prices
    else PricesForBatches(PricesForBatch(prices, batches[0], fetch, symbolMap, rejects), batches[1..],
                          fetch, symbolMap, rejects)
  }

  /**
   * The request loop keeps the old rows and only appends rows whose company
   * id is one of the map's ids.
   */
  lemma {:induction false} PricesForBatchesGrows(prices: seq<PriceRow>, batches: seq<seq<string>>,
                                                 fetch: seq<string> -> seq<Quote>,
                                                 symbolMap: map<string, Id>, rejects: Quote -> bool)
    ensures var r := PricesForBatches(prices, batches, fetch, symbolMap, rejects);
            && |prices| <= |r| && r[..|prices|] == prices
            && forall k :: |prices| <= k < |r| ==> r[k].companyId in symbolMap.Values && r[k].companyId != 0
    decreases |batches|
  {
    if batches != [] {
      var mid := PricesForBatch(prices, batches[0], fetch, symbolMap, rejects);
      PricesAfterGrows(prices, fetch(YahooSymbols(batches[0])), symbolMap, rejects);
      PricesForBatchesGrows(mid, batches[1..], fetch, symbolMap, rejects);
      var r := PricesForBatches(mid, batches[1..], fetch, symbolMap, rejects);
      assert r[..|prices|] == r[..|mid|][..|prices|];
    }
  }

  /** The rows that stay to be requested once the loop index has reached `i`. */
  function From(s: seq<string>, i: nat): seq<string> {
    if i < |s| then s[i..] else []
  }

  /** One step of the request loop: the batch starting at `i`, then the batches after it. */
  lemma BatchesFrom(symbols: seq<string>, i: nat)
    requires i < |symbols|
    ensures var end := if i + BatchSize <= |symbols| then i + BatchSize else |symbols|;
            Batches(From(symbols, i), BatchSize) == [symbols[i..end]] + Batches(From(symbols, i + BatchSize), BatchSize)
  {
    var rest := symbols[i..];
    if |rest| > BatchSize {
      assert rest[..BatchSize] == symbols[i..i + BatchSize];
      assert rest[BatchSize..] == symbols[i + BatchSize..];
    } else {
      assert rest == symbols[i..|symbols|];
      assert From(symbols, i + BatchSize) == [];
    }
  }

  /**
   * The body of the request loop for one batch: fetch the quotes of the
   * suffixed symbols; when the result is not empty, hand it to
   * `insert_prices`.
   */
  method SyncBatch(db: Datastore, batch: seq<string>, fetch: seq<string> -> seq<Quote>,
                   symbolMap: map<string, Id>, rejects: Quote -> bool)
    modifies db
    ensures db.prices == PricesForBatch(old(db.prices), batch, fetch, symbolMap, rejects)
    ensures db.rawNews == old(db.rawNews) && db.events == old(db.events)
    ensures db.signals == old(db.signals) && db.companies == old(db.companies)
  {
    var priceData := fetch(YahooSymbols(batch));
    if priceData != [] {
      InsertPrices(db, priceData, symbolMap, rejects);
    }
  }

  /**
   * `main`: the symbols of the NSE companies, requested fifty at a time in
   * symbol order; each batch's quotes go through `insert_prices`.
   */
  method SyncPrices(db: Datastore, fetch: seq<string> -> seq<Quote>, rejects: Quote -> bool)
    modifies db
    ensures var companies := CompaniesOn(old(db.companies), "NSE");
            db.prices == PricesForBatches(old(db.prices), Batches(Symbols(companies), BatchSize), fetch,
                                          SymbolMap(companies), rejects)
    ensures db.rawNews == old(db.rawNews) && db.events == old(db.events)
    ensures db.signals == old(db.signals) && db.companies == old(db.companies)
  {
    var companies := CompaniesOn(db.companies, "NSE");
    var symbolMap := SymbolMap(companies);
    var symbols := Symbols(companies);
    ghost var goal := PricesForBatches(db.prices, Batches(symbols, BatchSize), fetch, symbolMap, rejects);
    var i := 0;
    while i < |symbols|
      invariant PricesForBatches(db.prices, Batches(From(symbols, i), BatchSize), fetch, symbolMap, rejects) == goal
      invariant db.rawNews == old(db.rawNews) && db.events == old(db.events)
      invariant db.signals == old(db.signals) && db.companies == old(db.companies)
      decreases |symbols| - i
    {
      var end := if i + BatchSize <= |symbols| then i + BatchSize else |symbols|;
      var batch := symbols[i..end];
      BatchesFrom(symbols, i);
      SyncBatch(db, batch, fetch, symbolMap, rejects);
      i := i + BatchSize;
    }
  }

  /** Every row the sync adds names an NSE company's id. */
  lemma SyncAddsOnlyNseCompanies(companies: seq<Company>, prices: seq<PriceRow>, fetch: seq<string> -> seq<Quote>,
                                 rejects: Quote -> bool, k: nat)
    requires var nse := CompaniesOn(companies, "NSE");
             var r := PricesForBatches(prices, Batches(Symbols(nse), BatchSize), fetch, SymbolMap(nse), rejects);
             |prices| <= k < |r|
    ensures var nse := CompaniesOn(companies, "NSE");
            var r := PricesForBatches(prices, Batches(Symbols(nse), BatchSize), fetch, SymbolMap(nse), rejects);
            && |r| >= |prices|
            && exists c :: c in companies && c.exchange == "NSE" && c.id == r[k].companyId
  {
    var nse := CompaniesOn(companies, "NSE");
    var m := SymbolMap(nse);
    var r := PricesForBatches(prices, Batches(Symbols(nse), BatchSize), fetch, m, rejects);
    PricesForBatchesGrows(prices, Batches(Symbols(nse), BatchSize), fetch, m, rejects);
    var s :| s in m && m[s] == r[k].companyId;
    SymbolMapValues(nse, s);
    var j :| 0 <= j < |nse| && nse[j].symbol == s && nse[j].id == m[s];
    assert nse[j] in nse;
  }
}
