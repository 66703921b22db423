/**
  `parse`: a DDOT file's content becomes the list of site records it
  describes, or the first failure met. The lines are split off and
  validated, grouped into transactions, and capped in number; each
  transaction in turn is tokenised, checked, translated into attributes and
  normalised; the records for the site table are kept, and two of them may
  not name the same site.
*/
module Pipeline {
  import opened Wrappers
  import opened Errors
  import opened CodeTable
  import opened Lines
  import opened Transactions
  import opened Tokens
  import opened Semantics

  /** One parsed transaction: attribute names to values, corresponding to the source's per-transaction dictionary. */
  type Record = map<string, string>

  /** `dict.get(key, '')` */
  function Lookup(record: Record, key: string): string {
    if key in record then record[key] else ""
  }

  /** Replaces the value of `attribute`, when the record has one, by `clean` of it. */
  function Apply(record: Record, attribute: string, clean: string -> string): (r: Record)
    ensures r.Keys == record.Keys
    ensures forall a :: a in record && a != attribute ==> r[a] == record[a]
    ensures attribute in record ==> r[attribute] == clean(record[attribute])
  {
    if attribute in record then record[attribute := clean(record[attribute])] else record
  }

  /** The longitude's second step; `None` is the IndexError on a one-character value. */
  function ZeroLongitude(record: Record): (r: Option<Record>)
    ensures r.Some? ==> r.value.Keys == record.Keys && forall a :: a in record && a != "longitude" ==> r.value[a] == record[a]
  {
    if "longitude" !in record then Some(record)
    else match AddLeadingZero(record["longitude"])
      case None => None
      case Some(v) => Some(record["longitude" := v])
  }

  /** The value clean-ups, in the source's order. */
  function Normalised(record: Record): Option<Record> {
    var placed := Apply(Apply(record, "stationName", RemoveLeadingAndTrailingSingleQuotes), "latitude", AddLeadingSpace);
    match ZeroLongitude(Apply(placed, "longitude", AddLeadingSpace))
    case None => None
    case Some(lengthened) => Some(Apply(lengthened, "siteWebReadyCode", UpdateCCodeToYCode))
  }

  /** The body of the source's loop over transactions, for one transaction. */
  function TransactionRecord(t: Transaction, table: map<string, string>): Result<Record, ParseError> {
    match KeyValuePairs(t.keyValuePairs)
    case Err(fault) => Err(TokenError(t.lineNumbers, fault))
    case Ok(kvPairs) =>
      if StationNameTwice(kvPairs, table) then Err(DuplicateStationName(t.lineNumbers))
      else if !HasTransactionType(kvPairs) then Err(MissingTransactionType(t.lineNumbers))
      else if InvalidKeyCodes(kvPairs, table) != [] then Err(InvalidComponentCodes(t.lineNumbers, InvalidKeyCodes(kvPairs, table)))
      else
        var record := TranslateKeysToAttributes(kvPairs, table)["agencyCode" := t.agencyCode]["siteNumber" := t.siteNumber];
        if Lookup(record, "transactionType") !in {"A", "M"} then Err(InvalidTransactionType(t.lineNumbers))
        else match Normalised(record)
          case None => Err(LongitudeIndexError)
          case Some(normalised) => Ok(normalised)
  }

  /** What each transaction turns into, in order. */
  function TransactionResults(ts: seq<Transaction>, table: map<string, string>): (rs: seq<Result<Record, ParseError>>)
    ensures |rs| == |ts| && forall i :: 0 <= i < |ts| ==> rs[i] == TransactionRecord(ts[i], table)
  {
    seq(|ts|, i requires 0 <= i < |ts| => TransactionRecord(ts[i], table))
  }

  /** A record for the site table. */
  predicate IsSiteRecord(record: Record) {
    "databaseTableIdentifier" in record && record["databaseTableIdentifier"] == "0"
  }

  /** The records for the site table, in order. */
  function SiteRecords(records: seq<Record>): seq<Record>
    decreases |records|
  {
    if records == [] then []
    else
      var last := records[|records| - 1];
      SiteRecords(records[..|records| - 1]) + (if IsSiteRecord(last) then [last] else [])
  }

  type Site = (string, string)

  function SiteOf(record: Record): Site {
    (Lookup(record, "agencyCode"), Lookup(record, "siteNumber"))
  }

  function Sites(records: seq<Record>): (sites: seq<Site>)
    ensures |sites| == |records|
    ensures forall i :: 0 <= i < |records| ==> sites[i] == SiteOf(records[i])
  {
    seq(|records|, i requires 0 <= i < |records| => SiteOf(records[i]))
  }

  /** The sites occurring more than once. */
  function RepeatedSites(sites: seq<Site>): set<Site> {
    set i | 0 <= i < |sites| && Count(sites, sites[i]) > 1 :: sites[i]
  }

  /** What `parse` returns or raises, given the code table. */
  function Parsed(content: string, table: map<string, string>): Result<seq<Record>, ParseError> {
    match GetLines(content)
    case Err(e) => Err(e)
    case Ok(lines) => FromTransactions(Transactions.Transactions(lines), table)
  }

  /** What `parse` makes of the transactions of a file. */
  function FromTransactions(ts: seq<Transaction>, table: map<string, string>): Result<seq<Record>, ParseError> {
    if Semantics.TooManyTransactions(|ts|) then Err(ParseError.TooManyTransactions)
    else SiteResults(ts, table)
  }

  /** The loop over the transactions, then the site filter and the duplicate check. */
  function SiteResults(ts: seq<Transaction>, table: map<string, string>): Result<seq<Record>, ParseError> {
    match Collect(TransactionResults(ts, table))
    case Err(e) => Err(e)
    case Ok(results) => SiteCheck(results)
  }

  /** The site records of the results, unless two of them share a site. */
  function SiteCheck(results: seq<Record>): Result<seq<Record>, ParseError> {
    var siteResults := SiteRecords(results);
    var duplicates := RepeatedSites(Sites(siteResults));
    if duplicates != {} then Err(ParseError.DuplicateSites(duplicates)) else Ok(siteResults)
  }

  /** The special processing of values, on the record in place. */
  method Normalise(record: Record) returns (r: Option<Record>)
    ensures r == Normalised(record)
  {
    var thisResult := record;
    if "stationName" in thisResult {
      thisResult := thisResult["stationName" := RemoveLeadingAndTrailingSingleQuotes(thisResult["stationName"])];
    }
    if "latitude" in thisResult {
      thisResult := thisResult["latitude" := AddLeadingSpace(thisResult["latitude"])];
    }
    if "longitude" in thisResult {
      thisResult := thisResult["longitude" := AddLeadingSpace(thisResult["longitude"])];
      var zeroed := AddLeadingZero(thisResult["longitude"]);
      if zeroed.None? {
        return None;
      }
      thisResult := thisResult["longitude" := zeroed.value];
    }
    if "siteWebReadyCode" in thisResult {
      thisResult := thisResult["siteWebReadyCode" := UpdateCCodeToYCode(thisResult["siteWebReadyCode"])];
    }
    return Some(thisResult);
  }

  /** One round of the source's loop over transactions. */
  method ParseTransaction(transaction: Transaction, table: map<string, string>) returns (r: Result<Record, ParseError>)
    ensures r == TransactionRecord(transaction, table)
  {
    var kvPairs := ParseKeyValuePairs(transaction.keyValuePairs);
    if kvPairs.Err? {
      return Err(TokenError(transaction.lineNumbers, kvPairs.error));
    }
    var hasDuplicate := HasDuplicateStationNameKeys(kvPairs.value, table);
    if hasDuplicate {
      return Err(DuplicateStationName(transaction.lineNumbers));
    }
    if !HasTransactionType(kvPairs.value) {
      return Err(MissingTransactionType(transaction.lineNumbers));
    }
    var invalidCodes := InvalidKeyCodes(kvPairs.value, table);
    if invalidCodes != [] {
      return Err(InvalidComponentCodes(transaction.lineNumbers, invalidCodes));
    }
    var thisResult := TranslateKeysToAttributes(kvPairs.value, table);
    thisResult := thisResult["agencyCode" := transaction.agencyCode];
    thisResult := thisResult["siteNumber" := transaction.siteNumber];
    if Lookup(thisResult, "transactionType") !in {"A", "M"} {
      return Err(InvalidTransactionType(transaction.lineNumbers));
    }
    var normalised := Normalise(thisResult);
    if normalised.None? {
      return Err(LongitudeIndexError);
    }
    return Ok(normalised.value);
  }

  /** The loop over transactions, the site filter and the duplicate check of `parse`. */
  method ParseTransactions(transactions: seq<Transaction>, table: map<string, string>) returns (r: Result<seq<Record>, ParseError>)
    ensures r == SiteResults(transactions, table)
  {
    var results: seq<Record> := [];
    ghost var all := TransactionResults(transactions, table);
    assert all[0..] == all;
    assert Collect(all).Ok? ==> [] + Collect(all).value == Collect(all).value;
    for i := 0 to |transactions|
      invariant Collect(all) == Prefixed(results, Collect(all[i..]))
    {
      assert all[i..][1..] == all[i + 1..];
      var thisResult := ParseTransaction(transactions[i], table);
      if thisResult.Err? {
        return Err(thisResult.error);
      }
      PrefixedSnoc(results, thisResult.value, Collect(all[i + 1..]));
      results := results + [thisResult.value];
    }
    assert results + [] == results;
    var siteResults := SiteRecords(results);
    var sites := Sites(siteResults);
    var duplicateSites := RepeatedSites(sites);
    if duplicateSites != {} {
      return Err(ParseError.DuplicateSites(duplicateSites));
    }
    return Ok(siteResults);
  }

  /** `parse`, with the code table of the format. */
  method Parse(fileContents: string) returns (r: Result<seq<Record>, ParseError>)
    ensures r == Parsed(fileContents, KeyToAttrMapping)
  {
    var lines := ReadDataLines(fileContents);
    if lines.Err? {
      return Err(lines.error);
    }
    var transactions := GetTransactions(lines.value);
    if Semantics.TooManyTransactions(|transactions|) {
      return Err(ParseError.TooManyTransactions);
    }
    r := ParseTransactions(transactions, KeyToAttrMapping);
  }

  // ----- the value clean-ups -----

  /** The attributes the clean-ups touch. */
  predicate Normalisable(attribute: string) {
    attribute in {"stationName", "latitude", "longitude", "siteWebReadyCode"}
  }

  /**
    The clean-ups fail exactly on a longitude that is a lone space or dash.
    Otherwise the record keeps its attributes, every attribute they do not
    touch keeps its value, the station name loses its enclosing quotes, a
    non-empty latitude is signed, a non-empty longitude is signed with a `0`
    or `1` after the sign, and the web-ready code is never `C`.
  */
  lemma NormalisedProperties(record: Record)
    ensures Normalised(record).None? <==> "longitude" in record && record["longitude"] in {" ", "-"}
    ensures Normalised(record).Some? ==>
      var r := Normalised(record).value;
      r.Keys == record.Keys &&
      (forall a :: a in record && !Normalisable(a) ==> r[a] == record[a]) &&
      ("stationName" in r ==> r["stationName"] == RemoveLeadingAndTrailingSingleQuotes(record["stationName"])) &&
      ("latitude" in r ==> r["latitude"] == AddLeadingSpace(record["latitude"])) &&
      ("latitude" in r && r["latitude"] != "" ==> Signed(r["latitude"])) &&
      ("longitude" in r ==> NormaliseLongitude(record["longitude"]) == Some(r["longitude"])) &&
      ("longitude" in r && r["longitude"] != "" ==> |r["longitude"]| >= 2 && Signed(r["longitude"]) && HasLeadingDigit(r["longitude"])) &&
      ("siteWebReadyCode" in r ==> r["siteWebReadyCode"] == UpdateCCodeToYCode(record["siteWebReadyCode"]) != "C")
  {
    var named := Apply(record, "stationName", RemoveLeadingAndTrailingSingleQuotes);
    var placed := Apply(named, "latitude", AddLeadingSpace);
    var spaced := Apply(placed, "longitude", AddLeadingSpace);
    if "latitude" in record {
      AddLeadingSpaceProperties(record["latitude"]);
    }
    if "longitude" in record {
      NormaliseLongitudeProperties(record["longitude"]);
      assert spaced["longitude"] == AddLeadingSpace(record["longitude"]);
    }
    var zeroed := ZeroLongitude(spaced);
    if zeroed.Some? {
      var lengthened := zeroed.value;
      if "siteWebReadyCode" in lengthened {
        UpdateCCodeToYCodeProperties(lengthened["siteWebReadyCode"]);
      }
    }
  }

  // ----- one transaction -----

  /**
    The checks run in the source's order, each reached only when the ones
    before it pass: tokenising, the station name, the transaction type, the
    component codes.
  */
  lemma TransactionRecordErrors(t: Transaction, table: map<string, string>)
    ensures var kv := KeyValuePairs(t.keyValuePairs);
      var r := TransactionRecord(t, table);
      (kv.Err? <==> r.Err? && r.error.TokenError?) &&
      (kv.Err? ==> r.error == TokenError(t.lineNumbers, kv.error)) &&
      (r == Err(DuplicateStationName(t.lineNumbers)) <==> kv.Ok? && StationNameTwice(kv.value, table)) &&
      (r == Err(MissingTransactionType(t.lineNumbers)) <==>
        kv.Ok? && !StationNameTwice(kv.value, table) && !HasTransactionType(kv.value)) &&
      (r.Err? && r.error.InvalidComponentCodes? <==>
        kv.Ok? && !StationNameTwice(kv.value, table) && HasTransactionType(kv.value) && InvalidKeyCodes(kv.value, table) != []) &&
      (r.Err? && r.error.InvalidComponentCodes? ==>
        r.error == InvalidComponentCodes(t.lineNumbers, InvalidKeyCodes(kv.value, table)))
  {
  }

  /** The checks after translation: the value of the transaction type, then the longitude. */
  lemma TransactionRecordLateErrors(t: Transaction, table: map<string, string>)
    requires KeyValuePairs(t.keyValuePairs).Ok?
    requires var kvPairs := KeyValuePairs(t.keyValuePairs).value;
      !StationNameTwice(kvPairs, table) && HasTransactionType(kvPairs) && InvalidKeyCodes(kvPairs, table) == []
    ensures var translated := TranslateKeysToAttributes(KeyValuePairs(t.keyValuePairs).value, table);
      var r := TransactionRecord(t, table);
      (r == Err(InvalidTransactionType(t.lineNumbers)) <==> Lookup(translated, "transactionType") !in {"A", "M"}) &&
      (r == Err(LongitudeIndexError) <==>
        Lookup(translated, "transactionType") in {"A", "M"} && "longitude" in translated && translated["longitude"] in {" ", "-"})
  {
    var translated := TranslateKeysToAttributes(KeyValuePairs(t.keyValuePairs).value, table);
    var record := translated["agencyCode" := t.agencyCode]["siteNumber" := t.siteNumber];
    assert Lookup(record, "transactionType") == Lookup(translated, "transactionType");
    NormalisedProperties(record);
  }

  /** What the translated pairs become once the agency code and site number are entered and the values cleaned up. */
  lemma RecordOfTranslation(translated: Record, agencyCode: string, siteNumber: string, r: Record)
    requires var record := translated["agencyCode" := agencyCode]["siteNumber" := siteNumber];
      Lookup(record, "transactionType") in {"A", "M"} && Normalised(record) == Some(r)
    ensures "agencyCode" in r && r["agencyCode"] == agencyCode
    ensures "siteNumber" in r && r["siteNumber"] == siteNumber
    ensures "transactionType" in r && r["transactionType"] in {"A", "M"}
    ensures r.Keys == translated.Keys + {"agencyCode", "siteNumber"}
    ensures forall a :: a in translated && !Normalisable(a) && a !in {"agencyCode", "siteNumber"} ==> r[a] == translated[a]
  {
    NormalisedProperties(translated["agencyCode" := agencyCode]["siteNumber" := siteNumber]);
  }

  /**
    A record carries the transaction's agency code and site number, a
    transaction type `A` or `M`, and otherwise exactly the attributes its
    known codes name; those the clean-ups leave alone keep the value the
    translation gave them.
  */
  lemma TransactionRecordOk(t: Transaction, table: map<string, string>)
    requires TransactionRecord(t, table).Ok?
    ensures KeyValuePairs(t.keyValuePairs).Ok?
    ensures var r := TransactionRecord(t, table).value;
      var translated := TranslateKeysToAttributes(KeyValuePairs(t.keyValuePairs).value, table);
      "agencyCode" in r && r["agencyCode"] == t.agencyCode &&
      "siteNumber" in r && r["siteNumber"] == t.siteNumber &&
      "transactionType" in r && r["transactionType"] in {"A", "M"} &&
      r.Keys == translated.Keys + {"agencyCode", "siteNumber"} &&
      forall a :: a in translated && !Normalisable(a) && a !in {"agencyCode", "siteNumber"} ==> r[a] == translated[a]
  {
    var translated := TranslateKeysToAttributes(KeyValuePairs(t.keyValuePairs).value, table);
    RecordOfTranslation(translated, t.agencyCode, t.siteNumber, TransactionRecord(t, table).value);
  }

  lemma TransactionRecordNotTooMany(t: Transaction, table: map<string, string>)
    ensures TransactionRecord(t, table) != Err(ParseError.TooManyTransactions)
  {
  }

  lemma TransactionRecordNoDuplicateSites(t: Transaction, table: map<string, string>)
    ensures TransactionRecord(t, table).Err? ==> !TransactionRecord(t, table).error.DuplicateSites?
  {
  }

  // ----- the site filter and the duplicate check -----

  /** Filtering commutes with concatenation: the site records keep their order. */
  lemma {:induction false} SiteRecordsAppend(a: seq<Record>, b: seq<Record>)
    ensures SiteRecords(a + b) == SiteRecords(a) + SiteRecords(b)
    decreases |b|
  {
    if b == [] {
      assert a + b == a;
    } else {
      var shorter := b[..|b| - 1];
      SiteRecordsAppend(a, shorter);
      assert (a + b)[..|a + b| - 1] == a + shorter;
    }
  }

  /** The site records are exactly the records for the site table. */
  lemma {:induction false} SiteRecordsMembers(records: seq<Record>, record: Record)
    ensures record in SiteRecords(records) <==> record in records && IsSiteRecord(record)
    decreases |records|
  {
    if records != [] {
      var shorter := records[..|records| - 1];
      SiteRecordsMembers(shorter, record);
      assert records == shorter + [records[|records| - 1]];
    }
  }

  /** A site is repeated exactly when two records, an earlier and a later one, have it. */
  lemma RepeatedSitesMembers(sites: seq<Site>, site: Site)
    ensures site in RepeatedSites(sites) <==> exists i, j :: 0 <= i < j < |sites| && sites[i] == site && sites[j] == site
  {
    CountTwice(sites, site);
    if exists i, j :: 0 <= i < j < |sites| && sites[i] == site && sites[j] == site {
      var i, j :| 0 <= i < j < |sites| && sites[i] == site && sites[j] == site;
      assert Count(sites, sites[i]) > 1;
    }
  }

  /** The duplicate check passes exactly when the site records name pairwise distinct sites. */
  lemma SiteCheckOk(results: seq<Record>)
    ensures SiteCheck(results).Ok? <==>
      var siteResults := SiteRecords(results);
      forall i, j :: 0 <= i < j < |siteResults| ==> SiteOf(siteResults[i]) != SiteOf(siteResults[j])
    ensures SiteCheck(results).Ok? ==> SiteCheck(results).value == SiteRecords(results)
  {
    var sites := Sites(SiteRecords(results));
    if RepeatedSites(sites) != {} {
      var site :| site in RepeatedSites(sites);
      RepeatedSitesMembers(sites, site);
    } else {
      forall i, j | 0 <= i < j < |sites| ensures sites[i] != sites[j] {
        RepeatedSitesMembers(sites, sites[i]);
      }
    }
  }

  // ----- the whole file -----

  /**
    The cap on transactions is checked before any transaction is tokenised:
    the file fails with TooManyTransactions exactly when its lines are valid
    and they make more than 30000 transactions.
  */
  lemma ParsedTooManyTransactions(content: string, table: map<string, string>)
    ensures Parsed(content, table) == Err(ParseError.TooManyTransactions) <==>
      GetLines(content).Ok? && |Transactions.Transactions(GetLines(content).value)| > MaxTransactions
  {
    if GetLines(content).Ok? {
      var rs := TransactionResults(Transactions.Transactions(GetLines(content).value), table);
      if Collect(rs).Err? {
        CollectFirstFailure(rs);
        var k :| 0 <= k < |rs| && rs[k] == Err(Collect(rs).error) && forall i :: 0 <= i < k ==> rs[i].Ok?;
        TransactionRecordNotTooMany(Transactions.Transactions(GetLines(content).value)[k], table);
      }
    }
  }

  /**
    Within the cap on transactions, the file fails with the failure of its
    first failing transaction; when none fails, what remains is the site check.
  */
  lemma ParsedFirstFailure(content: string, table: map<string, string>)
    requires GetLines(content).Ok?
    requires |Transactions.Transactions(GetLines(content).value)| <= MaxTransactions
    ensures var rs := TransactionResults(Transactions.Transactions(GetLines(content).value), table);
      (forall k :: 0 <= k < |rs| && rs[k].Err? && (forall i :: 0 <= i < k ==> rs[i].Ok?) ==>
        Parsed(content, table) == Err(rs[k].error)) &&
      ((forall k :: 0 <= k < |rs| ==> rs[k].Ok?) ==>
        Collect(rs).Ok? && Parsed(content, table) == SiteCheck(Collect(rs).value))
  {
    var rs := TransactionResults(Transactions.Transactions(GetLines(content).value), table);
    CollectOk(rs);
    if Collect(rs).Err? {
      CollectFirstFailure(rs);
    }
  }

  /** A record the loop collects is the record of one of the transactions, with its agency code and site number. */
  lemma CollectedOrigin(ts: seq<Transaction>, table: map<string, string>, results: seq<Record>, record: Record)
    requires Collect(TransactionResults(ts, table)) == Ok(results)
    requires record in results
    ensures exists k :: (0 <= k < |ts| && TransactionRecord(ts[k], table) == Ok(record) &&
      SiteOf(record) == (ts[k].agencyCode, ts[k].siteNumber))
  {
    var rs := TransactionResults(ts, table);
    CollectOk(rs);
    var k :| 0 <= k < |results| && results[k] == record;
    assert rs[k] == Ok(record);
    TransactionRecordOk(ts[k], table);
  }

  /**
    What `parse` returns: records for the site table only, naming pairwise
    distinct sites, each the record of one of the file's transactions and
    carrying that transaction's agency code and site number, in the order of
    the transactions.
  */
  lemma ParsedOk(content: string, table: map<string, string>)
    requires Parsed(content, table).Ok?
    ensures GetLines(content).Ok?
    ensures var records := Parsed(content, table).value;
      var ts := Transactions.Transactions(GetLines(content).value);
      (forall i :: 0 <= i < |records| ==> IsSiteRecord(records[i])) &&
      (forall i, j :: 0 <= i < j < |records| ==> SiteOf(records[i]) != SiteOf(records[j])) &&
      records == SiteRecords(Collect(TransactionResults(ts, table)).value) &&
      forall i :: 0 <= i < |records| ==> exists k :: (0 <= k < |ts| && TransactionRecord(ts[k], table) == Ok(records[i]) &&
        SiteOf(records[i]) == (ts[k].agencyCode, ts[k].siteNumber))
  {
    var ts := Transactions.Transactions(GetLines(content).value);
    var results := Collect(TransactionResults(ts, table)).value;
    var records := Parsed(content, table).value;
    SiteCheckOk(results);
    forall i | 0 <= i < |records|
      ensures IsSiteRecord(records[i])
      ensures exists k :: (0 <= k < |ts| && TransactionRecord(ts[k], table) == Ok(records[i]) &&
        SiteOf(records[i]) == (ts[k].agencyCode, ts[k].siteNumber))
    {
      SiteRecordsMembers(results, records[i]);
      CollectedOrigin(ts, table, results, records[i]);
    }
  }

  /** The duplicate check fails only with the sites that two site records, an earlier and a later one, share. */
  lemma SiteCheckDuplicates(results: seq<Record>)
    ensures SiteCheck(results).Err? ==>
      var siteResults := SiteRecords(results);
      SiteCheck(results).error.DuplicateSites? && SiteCheck(results).error.sites != {} &&
      forall site :: site in SiteCheck(results).error.sites <==>
        exists i, j :: 0 <= i < j < |siteResults| && SiteOf(siteResults[i]) == site && SiteOf(siteResults[j]) == site
  {
    var siteResults := SiteRecords(results);
    var sites := Sites(siteResults);
    forall site ensures site in RepeatedSites(sites) <==>
      exists i, j :: 0 <= i < j < |siteResults| && SiteOf(siteResults[i]) == site && SiteOf(siteResults[j]) == site
    {
      RepeatedSitesMembers(sites, site);
    }
  }

  /** A file fails on duplicate sites only in its site check, once every transaction has its record. */
  lemma ParsedDuplicateSites(content: string, table: map<string, string>)
    requires Parsed(content, table).Err? && Parsed(content, table).error.DuplicateSites?
    ensures GetLines(content).Ok?
    ensures var rs := TransactionResults(Transactions.Transactions(GetLines(content).value), table);
      Collect(rs).Ok? && Parsed(content, table) == SiteCheck(Collect(rs).value)
  {
    var ts := Transactions.Transactions(GetLines(content).value);
    var rs := TransactionResults(ts, table);
    if Collect(rs).Err? {
      CollectFirstFailure(rs);
      var k :| 0 <= k < |rs| && rs[k] == Err(Collect(rs).error) && forall i :: 0 <= i < k ==> rs[i].Ok?;
      TransactionRecordNoDuplicateSites(ts[k], table);
    }
  }
}
