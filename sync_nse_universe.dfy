/**
 * The NSE universe sync: decode the exchange's equity list, drop byte-order
 * marks, read it as CSV with whitespace-stripped headers and values, keep
 * the rows of series "EQ", and upsert one `companies` row per symbol. The
 * CSV splitting itself is a parameter `parse` from the text to its records
 * (the first record is the header line).
 */
module NseUniverse {
  import opened Wrappers
  import opened Text
  import opened Store

  /** The byte-order mark U+FEFF. */
  const Bom: char := '\U{FEFF}'

  /** `decoded.replace('﻿', '')`: the text without any byte-order mark. */
  function RemoveBom(s: string): (r: string)
    ensures |r| <= |s|
    ensures forall c :: c in r <==> c in s && c != Bom
    decreases |s|
  {
    if s == [] then []
    else
      var init := RemoveBom(s[..|s| - 1]);
      var last := s[|s| - 1];
      assert s == s[..|s| - 1] + [last];
      if last == Bom then init else init + [last]
  }

  /** Removing marks piece by piece is removing them from the whole text. */
  lemma {:induction false} RemoveBomAppend(a: string, b: string)
    ensures RemoveBom(a + b) == RemoveBom(a) + RemoveBom(b)
    decreases |b|
  {
    if b == [] {
      assert a + b == a;
    } else {
      var ab := a + b;
      assert ab[..|ab| - 1] == a + b[..|b| - 1];
      RemoveBomAppend(a, b[..|b| - 1]);
    }
  }

  /** A text without marks is left as it is. */
  lemma {:induction false} RemoveBomKeepsCleanText(s: string)
    requires Bom !in s
    ensures RemoveBom(s) == s
    decreases |s|
  {
    if s != [] {
      assert s == s[..|s| - 1] + [s[|s| - 1]];
      RemoveBomKeepsCleanText(s[..|s| - 1]);
    }
  }

  /** `[field.strip() for field in reader.fieldnames]`. */
  function NormalizeHeaders(fields: seq<string>): (r: seq<string>)
  {
    seq(|fields|, k requires 0 <= k < |fields| => Strip(fields[k]))
  }

  /** Normalising headers twice is normalising them once. */
  lemma NormalizeHeadersIdempotent(fields: seq<string>)
    ensures NormalizeHeaders(NormalizeHeaders(fields)) == NormalizeHeaders(fields)
  {
    forall k | 0 <= k < |fields| ensures Strip(Strip(fields[k])) == Strip(fields[k]) {
      StripIdempotent(fields[k]);
    }
  }

  /**
   * The key/value pairs `csv.DictReader` makes of a record no longer than
   * the header line, in header order; a missing trailing value is `None`.
   */
  function Zip(headers: seq<string>, values: seq<string>): (r: seq<(string, Option<string>)>)
    requires |values| <= |headers|
  {
    seq(|headers|, k requires 0 <= k < |headers| => (headers[k], if k < |values| then Some(values[k]) else None))
  }

  /** `v.strip() if v else ""`: a missing or empty value becomes "". */
  function NormalizeValue(v: Option<string>): (r: string)
    ensures Strip(r) == r
    ensures r == Strip(v.GetOr(""))
  {
    if v.Some? && v.value != [] then
      StripIdempotent(v.value);
      Strip(v.value)
    else ""
  }

  /** The pairs of a record with each key stripped and each value normalised. */
  function NormalizePairs(pairs: seq<(string, Option<string>)>): (r: seq<(string, string)>)
  {
    seq(|pairs|, i requires 0 <= i < |pairs| => (Strip(pairs[i].0), NormalizeValue(pairs[i].1)))
  }

  /** A dict built from `pairs` in order: a later duplicate key overwrites an earlier one. */
  function ToMap(pairs: seq<(string, string)>): (r: map<string, string>)
    ensures forall key :: key in r <==> exists i :: 0 <= i < |pairs| && pairs[i].0 == key
    decreases |pairs|
  {
    if pairs == [] then map[]
    else
      var init := pairs[..|pairs| - 1];
      var last := pairs[|pairs| - 1];
      assert forall i :: 0 <= i < |init| ==> init[i] == pairs[i];
      ToMap(init)[last.0 := last.1]
  }

  /** Each key holds the value of its last pair. */
  lemma {:induction false} ToMapLastWins(pairs: seq<(string, string)>, i: nat)
    requires i < |pairs|
    requires forall j :: i < j < |pairs| ==> pairs[j].0 != pairs[i].0
    ensures pairs[i].0 in ToMap(pairs) && ToMap(pairs)[pairs[i].0] == pairs[i].1
    decreases |pairs|
  {
    if i < |pairs| - 1 {
      ToMapLastWins(pairs[..|pairs| - 1], i);
    }
  }

  /** Every entry of the dict is one of the pairs. */
  lemma {:induction false} ToMapEntries(pairs: seq<(string, string)>, key: string)
    requires key in ToMap(pairs)
    ensures exists i :: 0 <= i < |pairs| && pairs[i] == (key, ToMap(pairs)[key])
    decreases |pairs|
  {
    var init := pairs[..|pairs| - 1];
    if key != pairs[|pairs| - 1].0 {
      ToMapEntries(init, key);
      var i :| 0 <= i < |init| && init[i] == (key, ToMap(init)[key]);
      assert pairs[i] == init[i];
    }
  }

  /** `{k.strip(): (v.strip() if v else "") for k, v in row.items()}`. */
  function NormalizeRow(pairs: seq<(string, Option<string>)>): map<string, string> {
    ToMap(NormalizePairs(pairs))
  }

  /**
   * The normalised row has a key for each stripped key of the record; each
   * key holds the normalised value of its last pair, and that value has no
   * surrounding whitespace.
   */
  lemma NormalizeRowShape(pairs: seq<(string, Option<string>)>, i: nat)
    requires i < |pairs|
    requires forall j :: i < j < |pairs| ==> Strip(pairs[j].0) != Strip(pairs[i].0)
    ensures Strip(pairs[i].0) in NormalizeRow(pairs)
    ensures NormalizeRow(pairs)[Strip(pairs[i].0)] == NormalizeValue(pairs[i].1)
    ensures Strip(NormalizeRow(pairs)[Strip(pairs[i].0)]) == NormalizeRow(pairs)[Strip(pairs[i].0)]
  {
    ToMapLastWins(NormalizePairs(pairs), i);
  }

  /** What the reader makes of one record after the header line. */
  datatype Parsed =
    | Blank                               // an empty record, which the reader skips
    | Overlong                            // more values than headers: the row gets a key None, and `k.strip()` raises
    | Row(fields: map<string, string>)    // the normalised row

  function ParseRow(headers: seq<string>, values: seq<string>): (r: Parsed)
    ensures r.Row? <==> values != [] && |values| <= |headers|
  {
    if values == [] then Blank
    else if |values| > |headers| then Overlong
    else Row(NormalizeRow(Zip(headers, values)))
  }

  /** Every record after the header line, parsed. */
  function ParseAll(headers: seq<string>, records: seq<seq<string>>): (r: seq<Parsed>)
  {
    seq(|records|, k requires 0 <= k < |records| => ParseRow(headers, records[k]))
  }

  /** `row.get("SERIES") == "EQ"`. */
  predicate IsEquity(row: map<string, string>) {
    "SERIES" in row && row["SERIES"] == "EQ"
  }

  /**
   * The equities the loop of `fetch_nse_equities` collects from the parsed
   * records; `None` when a record makes it raise.
   */
  function Kept(parsed: seq<Parsed>): Option<seq<map<string, string>>>
    decreases |parsed|
  {
    if parsed == [] then Some([])
    else
      var init := Kept(parsed[..|parsed| - 1]);
      var last := parsed[|parsed| - 1];
      if init.None? || last.Overlong? then None
      else if last.Row? && IsEquity(last.fields) then Some(init.value + [last.fields])
      else init
  }

  /**
   * The loop fails exactly when some record has more values than headers;
   * otherwise it keeps exactly the parsed rows of series "EQ", at most one
   * per record.
   */
  lemma {:induction false} KeptExact(parsed: seq<Parsed>)
    ensures var r := Kept(parsed);
            && (r.None? <==> exists k :: 0 <= k < |parsed| && parsed[k].Overlong?)
            && (r.Some? ==> |r.value| <= |parsed|)
            && (r.Some? ==> forall m :: m in r.value <==>
                  exists k :: 0 <= k < |parsed| && parsed[k] == Row(m) && IsEquity(m))
    decreases |parsed|
  {
    if parsed != [] {
      var init := parsed[..|parsed| - 1];
      var last := parsed[|parsed| - 1];
      KeptExact(init);
      assert forall k :: 0 <= k < |init| ==> init[k] == parsed[k];
      var r := Kept(parsed);
      if Kept(init).None? {
        var k :| 0 <= k < |init| && init[k].Overlong?;
        assert parsed[k].Overlong?;
      } else if last.Overlong? {
        assert parsed[|parsed| - 1].Overlong?;
      } else {
        forall m ensures m in r.value <==> exists k :: 0 <= k < |parsed| && parsed[k] == Row(m) && IsEquity(m) {
          if m in r.value && m !in Kept(init).value {
            assert parsed[|parsed| - 1] == Row(m);
          }
          if exists k :: 0 <= k < |parsed| && parsed[k] == Row(m) && IsEquity(m) {
            var k :| 0 <= k < |parsed| && parsed[k] == Row(m) && IsEquity(m);
            if k < |init| {
              assert init[k] == Row(m);
            }
          }
        }
      }
    }
  }

  /**
   * What one record contributes on its own: nothing for an empty record,
   * a failure for an overlong one, and the row itself when its series is "EQ".
   */
  function KeptOne(p: Parsed): Option<seq<map<string, string>>> {
    match p
    case Blank => Some([])
    case Overlong => None
    case Row(m) => if IsEquity(m) then Some([m]) else Some([])
  }

  /** The outcome of two runs of records one after the other: a failure in either fails. */
  function Join(x: Option<seq<map<string, string>>>, y: Option<seq<map<string, string>>>): Option<seq<map<string, string>>> {
    if x.None? || y.None? then None else Some(x.value + y.value)
  }

  /** A single record on its own yields exactly its own contribution. */
  lemma KeptSingle(p: Parsed)
    ensures Kept([p]) == KeptOne(p)
  {
    assert [p][..0] == [];
    match p
    case Row(m) =>
      assert [] + [m] == [m];
    case _ =>
  }

  /**
   * The records split anywhere give the rows of the first part followed by
   * the rows of the second: with `KeptSingle`, the kept rows are the "EQ"
   * rows in record order, one per record.
   */
  lemma {:induction false} KeptAppend(a: seq<Parsed>, b: seq<Parsed>)
    ensures Kept(a + b) == Join(Kept(a), Kept(b))
    decreases |b|
  {
    if b == [] {
      assert a + b == a;
      if Kept(a).Some? {
        assert Kept(a).value + [] == Kept(a).value;
      }
    } else {
      var init := b[..|b| - 1];
      var last := b[|b| - 1];
      KeptAppend(a, init);
      assert (a + b)[..|a + b| - 1] == a + init;
      assert (a + b)[|a + b| - 1] == last;
      if Kept(a).Some? && Kept(init).Some? && last.Row? && IsEquity(last.fields) {
        assert (Kept(a).value + Kept(init).value) + [last.fields] == Kept(a).value + (Kept(init).value + [last.fields]);
      }
    }
  }

  /** `Kept` grows by the next parsed record. */
  lemma KeptStep(parsed: seq<Parsed>, i: nat, kept: seq<map<string, string>>)
    requires i < |parsed| && Kept(parsed[..i]) == Some(kept)
    ensures parsed[i].Blank? ==> Kept(parsed[..i + 1]) == Some(kept)
    ensures parsed[i].Row? && IsEquity(parsed[i].fields) ==> Kept(parsed[..i + 1]) == Some(kept + [parsed[i].fields])
    ensures parsed[i].Row? && !IsEquity(parsed[i].fields) ==> Kept(parsed[..i + 1]) == Some(kept)
  {
    assert parsed[..i + 1][..i] == parsed[..i];
  }

  /** Once a record has made the loop fail, the records after it do not matter. */
  lemma {:induction false} KeptFailureSticks(parsed: seq<Parsed>, i: nat)
    requires i <= |parsed| && Kept(parsed[..i]).None?
    ensures Kept(parsed).None?
    decreases |parsed| - i
  {
    if i < |parsed| {
      assert parsed[..i + 1][..i] == parsed[..i];
      KeptFailureSticks(parsed, i + 1);
    } else {
      assert parsed[..i] == parsed;
    }
  }

  /** What `fetch_nse_equities` returns for the decoded text; `None` when it raises. */
  function Equities(decoded: string, parse: string -> seq<seq<string>>): Option<seq<map<string, string>>> {
    var records := parse(RemoveBom(decoded));
    if records == [] then None
    else Kept(ParseAll(NormalizeHeaders(records[0]), records[1..]))
  }

  /**
   * The loop of `fetch_nse_equities` over the records after the header line:
   * skip an empty record, raise on an overlong one (`None`), otherwise
   * normalise the row and keep it when its series is "EQ".
   */
  method CollectEquities(headers: seq<string>, rows: seq<seq<string>>)
    returns (equities: Option<seq<map<string, string>>>)
    ensures equities == Kept(ParseAll(headers, rows))
  {
    ghost var parsed := ParseAll(headers, rows);
    var kept: seq<map<string, string>> := [];
    for i := 0 to |rows|
      invariant Kept(parsed[..i]) == Some(kept)
    {
      KeptStep(parsed, i, kept);
      var values := rows[i];
      if values == [] {
        continue;
      }
      if |values| > |headers| {
        KeptFailureSticks(parsed, i + 1);
        return None;
      }
      var row := NormalizeRow(Zip(headers, values));
      assert parsed[i] == Row(row);
      if "SERIES" in row && row["SERIES"] == "EQ" {
        kept := kept + [row];
      }
    }
    assert parsed[..|rows|] == parsed;
    equities := Some(kept);
  }

  /**
   * `fetch_nse_equities` after the download: drop the marks, read the header
   * line and strip its names, then collect the rows of series "EQ" in record
   * order. `None` stands for the exceptions it raises: a text with no header
   * line (`fieldnames` is None) or an overlong record.
   */
  method FetchNseEquities(decoded: string, parse: string -> seq<seq<string>>)
    returns (equities: Option<seq<map<string, string>>>)
    ensures equities == Equities(decoded, parse)
  {
    var text := RemoveBom(decoded);
    var records := parse(text);
    if records == [] {
      return None;
    }
    var headers := NormalizeHeaders(records[0]);
    equities := CollectEquities(headers, records[1..]);
  }

  /** `row.get(key, "")`. */
  function Get(row: map<string, string>, key: string): string {
    if key in row then row[key] else ""
  }

  /** The index of the company listed under `symbol`, if any. */
  function FindSymbol(companies: seq<Company>, symbol: string): (r: Option<nat>)
    ensures r.Some? ==> r.value < |companies| && companies[r.value].symbol == symbol
    ensures r.None? ==> forall k :: 0 <= k < |companies| ==> companies[k].symbol != symbol
    decreases |companies|
  {
    if companies == [] then None
    else if companies[0].symbol == symbol then Some(0)
    else
      var r := FindSymbol(companies[1..], symbol);
      if r.Some? then Some(r.value + 1) else None
  }

  /** The record `upsert_company` writes for a row, under company id `id`. */
  function CompanyRecord(id: Id, row: map<string, string>): Company {
    Company(id, Get(row, "SYMBOL"), Get(row, "NAME OF COMPANY"), Get(row, "ISIN NUMBER"), "NSE", true)
  }

  /**
   * The `companies` rows after `upsert_company(row)`: nothing when the row
   * has no symbol; otherwise the company listed under the symbol is
   * overwritten in place (keeping its id), or a new one is appended.
   */
  function Upserted(companies: seq<Company>, row: map<string, string>): seq<Company> {
    var symbol := Get(row, "SYMBOL");
    if symbol == "" then companies
    else
      var found := FindSymbol(companies, symbol);
      if found.Some? then companies[found.value := CompanyRecord(found.value + 1, row)]
      else companies + [CompanyRecord(|companies| + 1, row)]
  }

  /** The id `upsert_company(row)` returns (the upserted row's id), or `None` for a row without a symbol. */
  function UpsertedId(companies: seq<Company>, row: map<string, string>): Option<Id> {
    var symbol := Get(row, "SYMBOL");
    if symbol == "" then None
    else
      var found := FindSymbol(companies, symbol);
      if found.Some? then Some(found.value + 1) else Some(|companies| + 1)
  }

  /**
   * A row without a symbol changes nothing and yields `None`. Otherwise the
   * returned id names a company carrying the row's symbol, name and ISIN,
   * on exchange "NSE" and listed; a new row is appended exactly when no
   * company had the symbol; every other company is unchanged.
   */
  lemma UpsertOutcome(companies: seq<Company>, row: map<string, string>)
    requires CompanyIdsArePositions(companies)
    ensures var r := Upserted(companies, row);
            var id := UpsertedId(companies, row);
            && (id.None? <==> Get(row, "SYMBOL") == "")
            && (id.None? ==> r == companies)
            && (id.Some? ==>
                  && 1 <= id.value <= |r|
                  && r[id.value - 1] == Company(id.value, Get(row, "SYMBOL"), Get(row, "NAME OF COMPANY"),
                                                Get(row, "ISIN NUMBER"), "NSE", true)
                  && (|r| == |companies| + 1 <==> forall k :: 0 <= k < |companies| ==> companies[k].symbol != Get(row, "SYMBOL"))
                  && (|r| == |companies| || |r| == |companies| + 1)
                  && forall k :: 0 <= k < |companies| && k != id.value - 1 ==> r[k] == companies[k])
  {
    var symbol := Get(row, "SYMBOL");
    if symbol != "" {
      var found := FindSymbol(companies, symbol);
      if found.Some? {
        assert companies[found.value].symbol == symbol;
      }
    }
  }

  /** An upsert keeps ids positional and symbols unique. */
  lemma UpsertKeepsCompaniesValid(companies: seq<Company>, row: map<string, string>)
    requires CompanyIdsArePositions(companies) && UniqueSymbols(companies)
    ensures var r := Upserted(companies, row);
            CompanyIdsArePositions(r) && UniqueSymbols(r) && |companies| <= |r|
  {
    var symbol := Get(row, "SYMBOL");
    var r := Upserted(companies, row);
    if symbol != "" {
      var found := FindSymbol(companies, symbol);
      forall i, j | 0 <= i < j < |r| ensures r[i].symbol != r[j].symbol {
        if found.Some? {
          if i == found.value {
            assert r[j] == companies[j];
          } else if j == found.value {
            assert r[i] == companies[i];
          } else {
            assert r[i] == companies[i] && r[j] == companies[j];
          }
        } else if j == |companies| {
          assert r[i] == companies[i];
        } else {
          assert r[i] == companies[i] && r[j] == companies[j];
        }
      }
    }
  }

  /** Upserting the same row twice is upserting it once. */
  lemma UpsertIdempotent(companies: seq<Company>, row: map<string, string>)
    ensures Upserted(Upserted(companies, row), row) == Upserted(companies, row)
  {
    var symbol := Get(row, "SYMBOL");
    if symbol != "" {
      var once := Upserted(companies, row);
      var found := FindSymbol(companies, symbol);
      var again := FindSymbol(once, symbol);
      FindSymbolFirst(once, symbol);
      if found.Some? {
        FindSymbolFirst(companies, symbol);
        assert once[found.value].symbol == symbol;
        assert again.Some? && again.value <= found.value;
        assert again == found;
      } else {
        assert once[|companies|].symbol == symbol;
        assert again.Some? && again.value <= |companies|;
        assert again == Some(|companies|);
      }
    }
  }

  /** `FindSymbol` yields the FIRST company listed under the symbol. */
  lemma {:induction false} FindSymbolFirst(companies: seq<Company>, symbol: string)
    ensures var r := FindSymbol(companies, symbol);
            r.Some? ==> forall k :: 0 <= k < r.value ==> companies[k].symbol != symbol
    decreases |companies|
  {
    if companies != [] && companies[0].symbol != symbol {
      FindSymbolFirst(companies[1..], symbol);
      var r := FindSymbol(companies, symbol);
      if r.Some? {
        forall k | 0 <= k < r.value ensures companies[k].symbol != symbol {
          if k > 0 {
            assert companies[k] == companies[1..][k - 1];
          }
        }
      }
    }
  }

  /** The `companies` rows after the loop of `main` has upserted `rows` in order. */
  function UpsertAll(companies: seq<Company>, rows: seq<map<string, string>>): seq<Company>
    decreases |rows|
  {
    if rows == [] then companies
    else Upserted(UpsertAll(companies, rows[..|rows| - 1]), rows[|rows| - 1])
  }

  /** The number of rows with a non-empty symbol: the `count` that `main` prints. */
  function WithSymbol(rows: seq<map<string, string>>): (n: nat)
    ensures n <= |rows|
    decreases |rows|
  {
    if rows == [] then 0
    else WithSymbol(rows[..|rows| - 1]) + (if Get(rows[|rows| - 1], "SYMBOL") != "" then 1 else 0)
  }

  /** `symbol` is listed by some company. */
  predicate Listed(companies: seq<Company>, symbol: string) {
    exists k :: 0 <= k < |companies| && companies[k].symbol == symbol
  }

  /** An upsert keeps every listed symbol listed, and lists the row's own symbol. */
  lemma UpsertKeepsListed(companies: seq<Company>, row: map<string, string>, symbol: string)
    ensures var r := Upserted(companies, row);
            && (Listed(companies, symbol) ==> Listed(r, symbol))
            && (Get(row, "SYMBOL") != "" ==> Listed(r, Get(row, "SYMBOL")))
            && |companies| <= |r|
  {
    var r := Upserted(companies, row);
    var s := Get(row, "SYMBOL");
    if s != "" {
      var found := FindSymbol(companies, s);
      if found.Some? {
        assert r[found.value].symbol == s;
      } else {
        assert r[|companies|].symbol == s;
      }
    }
    if Listed(companies, symbol) {
      var k :| 0 <= k < |companies| && companies[k].symbol == symbol;
      assert r[k].symbol == symbol;
    }
  }

  /** After upserting `rows`, every symbol they carry is listed. */
  lemma {:induction false} UpsertAllLists(companies: seq<Company>, rows: seq<map<string, string>>, i: nat)
    requires i < |rows| && Get(rows[i], "SYMBOL") != ""
    ensures Listed(UpsertAll(companies, rows), Get(rows[i], "SYMBOL"))
    decreases |rows|
  {
    var init := rows[..|rows| - 1];
    var before := UpsertAll(companies, init);
    UpsertKeepsListed(before, rows[|rows| - 1], Get(rows[i], "SYMBOL"));
    if i < |rows| - 1 {
      UpsertAllLists(companies, init, i);
    }
  }

  /** When every row's symbol is already listed, upserting them adds no company. */
  lemma {:induction false} UpsertListedKeepsCount(companies: seq<Company>, rows: seq<map<string, string>>)
    requires forall i :: 0 <= i < |rows| && Get(rows[i], "SYMBOL") != "" ==> Listed(companies, Get(rows[i], "SYMBOL"))
    ensures |UpsertAll(companies, rows)| == |companies|
    ensures forall s :: Listed(companies, s) ==> Listed(UpsertAll(companies, rows), s)
    decreases |rows|
  {
    if rows != [] {
      var init := rows[..|rows| - 1];
      var last := rows[|rows| - 1];
      UpsertListedKeepsCount(companies, init);
      var before := UpsertAll(companies, init);
      forall s | Listed(companies, s) ensures Listed(UpsertAll(companies, rows), s) {
        UpsertKeepsListed(before, last, s);
      }
      var symbol := Get(last, "SYMBOL");
      if symbol != "" {
        UpsertKeepsListed(before, last, symbol);
        assert Listed(before, symbol);
        var found := FindSymbol(before, symbol);
        assert found.Some?;
      }
    }
  }

  /** Running the sync a second time with the same rows adds no company. */
  lemma RerunKeepsCompanyCount(companies: seq<Company>, rows: seq<map<string, string>>)
    ensures var once := UpsertAll(companies, rows);
            |UpsertAll(once, rows)| == |once|
  {
    var once := UpsertAll(companies, rows);
    forall i | 0 <= i < |rows| && Get(rows[i], "SYMBOL") != "" ensures Listed(once, Get(rows[i], "SYMBOL")) {
      UpsertAllLists(companies, rows, i);
    }
    UpsertListedKeepsCount(once, rows);
  }

  /**
   * `upsert_company`: read symbol, name and ISIN (missing keys read as "");
   * without a symbol write nothing and return `None`; otherwise upsert on
   * the symbol with exchange "NSE", listed, and return the row's id.
   */
  method UpsertCompany(db: Datastore, row: map<string, string>) returns (id: Option<Id>)
    requires db.Valid()
    modifies db
    ensures db.Valid()
    ensures db.companies == Upserted(old(db.companies), row)
    ensures id == UpsertedId(old(db.companies), row)
    ensures db.rawNews == old(db.rawNews) && db.events == old(db.events)
    ensures db.signals == old(db.signals) && db.prices == old(db.prices)
  {
    var symbol := Get(row, "SYMBOL");
    var name := Get(row, "NAME OF COMPANY");
    var isin := Get(row, "ISIN NUMBER");
    if symbol == "" {
      return None;
    }
    UpsertKeepsCompaniesValid(db.companies, row);
    var found := FindSymbol(db.companies, symbol);
    if found.Some? {
      db.companies := db.companies[found.value := Company(found.value + 1, symbol, name, isin, "NSE", true)];
      id := Some(found.value + 1);
    } else {
      db.companies := db.companies + [Company(|db.companies| + 1, symbol, name, isin, "NSE", true)];
      id := Some(|db.companies|);
    }
  }

  /**
   * The loop of `main`: upsert every equity row in order and count the
   * upserts that returned an id.
   */
  method SyncUniverse(db: Datastore, equities: seq<map<string, string>>) returns (count: nat)
    requires db.Valid()
    modifies db
    ensures db.Valid()
    ensures db.companies == UpsertAll(old(db.companies), equities)
    ensures count == WithSymbol(equities) <= |equities|
    ensures db.rawNews == old(db.rawNews) && db.events == old(db.events)
    ensures db.signals == old(db.signals) && db.prices == old(db.prices)
  {
    count := 0;
    for i := 0 to |equities|
      invariant db.Valid()
      invariant db.companies == UpsertAll(old(db.companies), equities[..i])
      invariant count == WithSymbol(equities[..i])
      invariant db.rawNews == old(db.rawNews) && db.events == old(db.events)
      invariant db.signals == old(db.signals) && db.prices == old(db.prices)
    {
      assert equities[..i + 1][..i] == equities[..i];
      var cid := UpsertCompany(db, equities[i]);
      if cid.Some? && cid.value != 0 {
        count := count + 1;
      }
    }
    assert equities[..|equities|] == equities;
  }
}
