/**
  The reconciliation done by `process_data`: the sheet's email cells are
  looked up, by normalised key, in an index built from the uploaded CSV of
  (email, registration route) records, and the joined routes are planned as one
  column of values to write back next to the sheet's rows.

  The sheet is the grid `get_all_values()` returns (row 0 is the header; rows
  need not be as long as the header). The CSV arrives as its column names and
  its records, each holding the `str()` of the row's email and route cells.
  The writes are returned as a plan instead of being performed.

  The index, the lookups and the write-back map are stated for any key function
  `norm`; `ProcessData` uses `NormalizeEmail`, as `process_data` does. None of
  their properties depends on what the key function does.
 */
module Reconcile {
  import opened Common
  import opened Seqs
  import opened Text
  import opened Keys
  import opened Header
  import opened Columns
  import opened SheetId

  type Row = seq<string>
  type KeyFn = string -> string

  /** `UTAGE_EMAIL_COLUMN` and `UTAGE_ROUTE_COLUMN`: the CSV columns that must exist. */
  const CsvEmailColumn: string := "メールアドレス"
  const CsvRouteColumn: string := "登録経路"
  /** The header of the sheet column the routes are written to. */
  const RouteHeader: string := "UTAGE登録経路"
  /** At most this many unmatched emails are reported back. */
  const ReportLimit: nat := 50
  const RouteSeparator: string := ", "

  datatype CsvRecord = CsvRecord(email: string, route: string)

  /** One entry of `results`. */
  datatype Resolution = Resolution(email: string, routes: seq<string>, found: bool)

  /** The exceptions `process_data` raises, one per check. */
  datatype Failure =
    | NoSheetData
    | NoEmailColumn
    | NoEmails
    | CsvMissingEmailColumn
    | CsvMissingRouteColumn

  /** The counts `process_data` returns. */
  datatype Summary = Summary(totalCount: nat, successCount: int, notFoundCount: nat, notFoundEmails: seq<string>)

  /**
    The two `worksheet.update` calls: `headerValue` to the cell `headerCell`,
    then `values` (one per data row) to `dataRange`, which is absent when there
    are no data rows.
   */
  datatype WritePlan = WritePlan(
    spreadsheetId: string,
    column: nat,
    headerCell: string,
    headerValue: string,
    dataRange: Option<string>,
    values: seq<string>)

  datatype Report = Report(plan: WritePlan, summary: Summary)

  function Min(a: nat, b: nat): nat
  {
    if a <= b then a else b
  }

  // ---------------------------------------------------------------------------
  // Email extraction from the sheet

  /** The cell of each data row in column `col`, when the row reaches it and it is not empty. */
  function SheetEmails(rows: seq<Row>, col: nat): seq<string>
  {
    if rows == [] then []
    else
      var last := rows[|rows| - 1];
      SheetEmails(rows[..|rows| - 1], col) + (if col < |last| && last[col] != "" then [last[col]] else [])
  }

  /** Every extracted email is a non-empty cell of its column. */
  lemma {:induction false} SheetEmailsAreCells(rows: seq<Row>, col: nat, e: string)
    requires e in SheetEmails(rows, col)
    ensures e != ""
    ensures exists i :: 0 <= i < |rows| && col < |rows[i]| && rows[i][col] == e
  {
    var init := rows[..|rows| - 1];
    if e in SheetEmails(init, col) {
      SheetEmailsAreCells(init, col, e);
      var i :| 0 <= i < |init| && col < |init[i]| && init[i][col] == e;
      assert rows[i] == init[i];
    }
  }

  /** Every non-empty cell of the column is extracted. */
  lemma {:induction false} CellsAreSheetEmails(rows: seq<Row>, col: nat, i: nat)
    requires i < |rows| && col < |rows[i]| && rows[i][col] != ""
    ensures rows[i][col] in SheetEmails(rows, col)
  {
    var init := rows[..|rows| - 1];
    if i < |rows| - 1 {
      assert init[i] == rows[i];
      CellsAreSheetEmails(init, col, i);
    }
  }

  /** The loop at the start of `process_data` that appends the email cells to `emails`. */
  method ExtractEmails(rows: seq<Row>, col: nat) returns (emails: seq<string>)
    ensures emails == SheetEmails(rows, col)
  {
    emails := [];
    var i := 0;
    while i < |rows|
      invariant 0 <= i <= |rows|
      invariant emails == SheetEmails(rows[..i], col)
    {
      var row := rows[i];
      if col < |row| && row[col] != "" {
        emails := emails + [row[col]];
      }
      assert rows[..i + 1][..i] == rows[..i];
      i := i + 1;
    }
    assert rows[..|rows|] == rows;
  }

  // ---------------------------------------------------------------------------
  // The index from key to routes

  /** Record `i` is filed under `key`: its email is not empty and has that key. */
  predicate FiledUnder(records: seq<CsvRecord>, norm: KeyFn, i: int, key: string)
  {
    0 <= i < |records| && records[i].email != "" && norm(records[i].email) == key
  }

  /** The routes of the records filed under `key`, in record order, repeats included. */
  function RoutesFor(records: seq<CsvRecord>, norm: KeyFn, key: string): seq<string>
  {
    if records == [] then []
    else
      var last := records[|records| - 1];
      RoutesFor(records[..|records| - 1], norm, key)
        + (if last.email != "" && norm(last.email) == key then [last.route] else [])
  }

  /** The keys of the index: those of the non-empty emails. */
  function CsvKeys(records: seq<CsvRecord>, norm: KeyFn): set<string>
  {
    set i | 0 <= i < |records| && records[i].email != "" :: norm(records[i].email)
  }

  /**
    `email_to_routes` as the loop leaves it: each key lists the distinct routes
    filed under it, in the order they were first seen.
   */
  function RouteIndex(records: seq<CsvRecord>, norm: KeyFn): map<string, seq<string>>
  {
    map k | k in CsvKeys(records, norm) :: Dedup(RoutesFor(records, norm, k))
  }

  /** `email_to_routes.get(key, [])`. */
  function Lookup(index: map<string, seq<string>>, key: string): seq<string>
  {
    if key in index then index[key] else []
  }

  lemma {:induction false} RoutesForFiled(records: seq<CsvRecord>, norm: KeyFn, key: string, route: string)
    requires route in RoutesFor(records, norm, key)
    ensures exists i :: FiledUnder(records, norm, i, key) && records[i].route == route
  {
    var init := records[..|records| - 1];
    if route in RoutesFor(init, norm, key) {
      RoutesForFiled(init, norm, key, route);
      var i :| FiledUnder(init, norm, i, key) && init[i].route == route;
      assert records[i] == init[i];
    } else {
      assert FiledUnder(records, norm, |records| - 1, key);
    }
  }

  lemma {:induction false} FiledInRoutesFor(records: seq<CsvRecord>, norm: KeyFn, key: string, i: int)
    requires FiledUnder(records, norm, i, key)
    ensures records[i].route in RoutesFor(records, norm, key)
  {
    var init := records[..|records| - 1];
    if i < |records| - 1 {
      assert init[i] == records[i];
      FiledInRoutesFor(init, norm, key, i);
    }
  }

  /** A key has routes exactly when some record is filed under it. */
  lemma RoutesForEmpty(records: seq<CsvRecord>, norm: KeyFn, key: string)
    ensures RoutesFor(records, norm, key) != [] <==> key in CsvKeys(records, norm)
  {
    if RoutesFor(records, norm, key) != [] {
      RoutesForFiled(records, norm, key, RoutesFor(records, norm, key)[0]);
    }
    if key in CsvKeys(records, norm) {
      var i :| 0 <= i < |records| && records[i].email != "" && norm(records[i].email) == key;
      FiledInRoutesFor(records, norm, key, i);
    }
  }

  /** `Lookup` in the index is the de-duplicated route list of the key, empty for an unknown key. */
  lemma LookupRouteIndex(records: seq<CsvRecord>, norm: KeyFn, key: string)
    ensures Lookup(RouteIndex(records, norm), key) == Dedup(RoutesFor(records, norm, key))
  {
    RoutesForEmpty(records, norm, key);
  }

  /**
    Every entry of the index is a non-empty list without repeats that holds the
    route of every record filed under its key, and nothing else.
   */
  lemma IndexEntries(records: seq<CsvRecord>, norm: KeyFn, key: string)
    requires key in RouteIndex(records, norm)
    ensures RouteIndex(records, norm)[key] != []
    ensures NoDuplicates(RouteIndex(records, norm)[key])
    ensures forall i :: FiledUnder(records, norm, i, key) ==> records[i].route in RouteIndex(records, norm)[key]
    ensures forall route :: route in RouteIndex(records, norm)[key] ==>
      exists i :: FiledUnder(records, norm, i, key) && records[i].route == route
  {
    var routes := RoutesFor(records, norm, key);
    DedupElements(routes);
    RoutesForEmpty(records, norm, key);
    forall i | FiledUnder(records, norm, i, key) ensures records[i].route in RouteIndex(records, norm)[key] {
      FiledInRoutesFor(records, norm, key, i);
    }
    forall route | route in RouteIndex(records, norm)[key]
      ensures exists i :: FiledUnder(records, norm, i, key) && records[i].route == route
    {
      RoutesForFiled(records, norm, key, route);
    }
  }

  /** The routes of a key are listed in the order their first record appears. */
  lemma IndexFirstSeenOrder(records: seq<CsvRecord>, norm: KeyFn, key: string, a: nat, b: nat)
    requires key in RouteIndex(records, norm) && a < b < |RouteIndex(records, norm)[key]|
    ensures var routes := RoutesFor(records, norm, key);
      var entry := RouteIndex(records, norm)[key];
      entry[a] in routes && entry[b] in routes && FirstIndex(routes, entry[a]) < FirstIndex(routes, entry[b])
  {
    DedupFirstSeenOrder(RoutesFor(records, norm, key), a, b);
  }

  /**
    Only an empty email is skipped: under `NormalizeEmail` a whitespace-only
    one is filed under the empty key.
   */
  lemma BlankEmailFiledUnderEmptyKey(records: seq<CsvRecord>, i: nat)
    requires i < |records| && records[i].email != "" && AllSpace(records[i].email)
    ensures "" in RouteIndex(records, NormalizeEmail)
    ensures records[i].route in RouteIndex(records, NormalizeEmail)[""]
  {
    assert FiledUnder(records, NormalizeEmail, i, "");
    assert "" in CsvKeys(records, NormalizeEmail);
    IndexEntries(records, NormalizeEmail, "");
  }

  /** One more record adds its route to its key's list, unless it is there already. */
  function AddRecord(index: map<string, seq<string>>, norm: KeyFn, rec: CsvRecord): map<string, seq<string>>
  {
    if rec.email == "" then index
    else
      var key := norm(rec.email);
      var before := Lookup(index, key);
      index[key := if rec.route in before then before else before + [rec.route]]
  }

  lemma RoutesForSnoc(records: seq<CsvRecord>, norm: KeyFn, rec: CsvRecord, key: string)
    ensures RoutesFor(records + [rec], norm, key)
      == RoutesFor(records, norm, key) + (if rec.email != "" && norm(rec.email) == key then [rec.route] else [])
  {
    assert (records + [rec])[..|records|] == records;
  }

  lemma DedupSnoc<T>(xs: seq<T>, x: T)
    ensures Dedup(xs + [x]) == if x in Dedup(xs) then Dedup(xs) else Dedup(xs) + [x]
  {
    assert (xs + [x])[..|xs|] == xs;
  }

  lemma CsvKeysSnoc(records: seq<CsvRecord>, norm: KeyFn, rec: CsvRecord)
    ensures CsvKeys(records + [rec], norm)
      == CsvKeys(records, norm) + (if rec.email != "" then {norm(rec.email)} else {})
  {
    var all := records + [rec];
    forall k | k in CsvKeys(all, norm)
      ensures k in CsvKeys(records, norm) + (if rec.email != "" then {norm(rec.email)} else {})
    {
      var i :| 0 <= i < |all| && all[i].email != "" && norm(all[i].email) == k;
      if i < |records| {
        assert all[i] == records[i];
      }
    }
    forall k | k in CsvKeys(records, norm) ensures k in CsvKeys(all, norm) {
      var i :| 0 <= i < |records| && records[i].email != "" && norm(records[i].email) == k;
      assert all[i] == records[i];
    }
    if rec.email != "" {
      assert all[|records|] == rec;
    }
  }

  /** One more record changes only its own key's de-duplicated route list. */
  lemma DedupRoutesStep(records: seq<CsvRecord>, norm: KeyFn, rec: CsvRecord, k: string)
    ensures Dedup(RoutesFor(records + [rec], norm, k)) ==
      var before := Dedup(RoutesFor(records, norm, k));
      if rec.email != "" && norm(rec.email) == k && rec.route !in before then before + [rec.route] else before
  {
    RoutesForSnoc(records, norm, rec, k);
    if rec.email != "" && norm(rec.email) == k {
      DedupSnoc(RoutesFor(records, norm, k), rec.route);
    } else {
      assert RoutesFor(records, norm, k) + [] == RoutesFor(records, norm, k);
    }
  }

  /** The index of one more record is `AddRecord` applied to the index so far. */
  lemma IndexStep(records: seq<CsvRecord>, norm: KeyFn, rec: CsvRecord)
    ensures RouteIndex(records + [rec], norm) == AddRecord(RouteIndex(records, norm), norm, rec)
  {
    var after := RouteIndex(records + [rec], norm);
    var stepped := AddRecord(RouteIndex(records, norm), norm, rec);
    CsvKeysSnoc(records, norm, rec);
    assert after.Keys == stepped.Keys;
    forall k | k in after ensures after[k] == stepped[k] {
      DedupRoutesStep(records, norm, rec, k);
      LookupRouteIndex(records, norm, k);
    }
  }

  /** The index as the loop builds it: `AddRecord` for each record in turn. */
  function IndexFold(records: seq<CsvRecord>, norm: KeyFn): map<string, seq<string>>
  {
    if records == [] then map[]
    else AddRecord(IndexFold(records[..|records| - 1], norm), norm, records[|records| - 1])
  }

  /** Filling the index record by record yields the declarative `RouteIndex`. */
  lemma {:induction false} IndexFoldIsRouteIndex(records: seq<CsvRecord>, norm: KeyFn)
    ensures IndexFold(records, norm) == RouteIndex(records, norm)
  {
    if records == [] {
      assert RouteIndex(records, norm) == map[];
    } else {
      var init := records[..|records| - 1];
      IndexFoldIsRouteIndex(init, norm);
      IndexStep(init, norm, records[|records| - 1]);
      assert init + [records[|records| - 1]] == records;
    }
  }

  /** The loop that fills `email_to_routes`. */
  method BuildIndex(records: seq<CsvRecord>, norm: KeyFn) returns (index: map<string, seq<string>>)
    ensures index == RouteIndex(records, norm)
  {
    index := map[];
    var i := 0;
    while i < |records|
      invariant 0 <= i <= |records|
      invariant index == IndexFold(records[..i], norm)
    {
      var rec := records[i];
      assert records[..i + 1][..i] == records[..i];
      if rec.email != "" {
        var key := norm(rec.email);
        var routes := if key in index then index[key] else [];
        if rec.route !in routes {
          routes := routes + [rec.route];
        }
        index := index[key := routes];
      }
      i := i + 1;
    }
    assert records[..|records|] == records;
    IndexFoldIsRouteIndex(records, norm);
  }

  // ---------------------------------------------------------------------------
  // Resolution

  /** `email` is found: its key has a non-empty route list. */
  predicate IsFound(index: map<string, seq<string>>, norm: KeyFn, email: string)
  {
    Lookup(index, norm(email)) != []
  }

  /** The emails that are not found, in order, repeats included. */
  function NotFoundEmails(emails: seq<string>, index: map<string, seq<string>>, norm: KeyFn): seq<string>
  {
    if emails == [] then []
    else
      var last := emails[|emails| - 1];
      NotFoundEmails(emails[..|emails| - 1], index, norm) + (if IsFound(index, norm, last) then [] else [last])
  }

  /** The emails that are found, in order, repeats included. */
  function FoundEmails(emails: seq<string>, index: map<string, seq<string>>, norm: KeyFn): seq<string>
  {
    if emails == [] then []
    else
      var last := emails[|emails| - 1];
      FoundEmails(emails[..|emails| - 1], index, norm) + (if IsFound(index, norm, last) then [last] else [])
  }

  /** Found and not-found emails add up to all of them. */
  lemma {:induction false} FoundNotFoundCount(emails: seq<string>, index: map<string, seq<string>>, norm: KeyFn)
    ensures |FoundEmails(emails, index, norm)| + |NotFoundEmails(emails, index, norm)| == |emails|
  {
    if emails != [] {
      FoundNotFoundCount(emails[..|emails| - 1], index, norm);
    }
  }

  /** The last email goes to exactly one of the two lists. */
  lemma PartitionStep(emails: seq<string>, index: map<string, seq<string>>, norm: KeyFn)
    requires emails != []
    ensures var init := emails[..|emails| - 1];
      multiset(FoundEmails(emails, index, norm)) + multiset(NotFoundEmails(emails, index, norm))
      == multiset(FoundEmails(init, index, norm)) + multiset(NotFoundEmails(init, index, norm)) + multiset{emails[|emails| - 1]}
  {
    var init := emails[..|emails| - 1];
    var last := emails[|emails| - 1];
    var found, notFound := FoundEmails(init, index, norm), NotFoundEmails(init, index, norm);
    if IsFound(index, norm, last) {
      assert FoundEmails(emails, index, norm) == found + [last];
      assert NotFoundEmails(emails, index, norm) == notFound + [];
    } else {
      assert FoundEmails(emails, index, norm) == found + [];
      assert NotFoundEmails(emails, index, norm) == notFound + [last];
    }
  }

  lemma MultisetOfSnoc(xs: seq<string>)
    requires xs != []
    ensures multiset(xs) == multiset(xs[..|xs| - 1]) + multiset{xs[|xs| - 1]}
  {
    assert xs == xs[..|xs| - 1] + [xs[|xs| - 1]];
  }

  /** Found and not-found emails split the list: together they are all of it, repeats included. */
  lemma {:induction false} FoundNotFoundPartition(emails: seq<string>, index: map<string, seq<string>>, norm: KeyFn)
    ensures multiset(FoundEmails(emails, index, norm)) + multiset(NotFoundEmails(emails, index, norm))
      == multiset(emails)
  {
    if emails != [] {
      var init := emails[..|emails| - 1];
      FoundNotFoundPartition(init, index, norm);
      PartitionStep(emails, index, norm);
      MultisetOfSnoc(emails);
    }
  }

  /** The not-found list holds exactly the emails that are not found. */
  lemma {:induction false} NotFoundExactly(emails: seq<string>, index: map<string, seq<string>>, norm: KeyFn, e: string)
    ensures e in NotFoundEmails(emails, index, norm) ==> e in emails && !IsFound(index, norm, e)
    ensures e in emails && !IsFound(index, norm, e) ==> e in NotFoundEmails(emails, index, norm)
  {
    if emails != [] {
      var init := emails[..|emails| - 1];
      NotFoundExactly(init, index, norm, e);
      assert emails == init + [emails[|emails| - 1]];
    }
  }

  /** Against the index built from the CSV, an email is found exactly when its key is indexed. */
  lemma FoundIffIndexed(records: seq<CsvRecord>, norm: KeyFn, email: string)
    ensures IsFound(RouteIndex(records, norm), norm, email) <==> norm(email) in RouteIndex(records, norm)
  {
    var key := norm(email);
    if key in RouteIndex(records, norm) {
      IndexEntries(records, norm, key);
    }
  }

  /** The loop that fills `results` and `not_found_emails`. */
  method Resolve(emails: seq<string>, index: map<string, seq<string>>, norm: KeyFn)
    returns (results: seq<Resolution>, notFound: seq<string>)
    ensures |results| == |emails|
    ensures forall i :: 0 <= i < |emails| ==>
      && results[i].email == emails[i]
      && results[i].routes == Lookup(index, norm(emails[i]))
      && results[i].found == IsFound(index, norm, emails[i])
    ensures notFound == NotFoundEmails(emails, index, norm)
  {
    results, notFound := [], [];
    var i := 0;
    while i < |emails|
      invariant 0 <= i <= |emails|
      invariant |results| == i
      invariant forall j :: 0 <= j < i ==>
        && results[j].email == emails[j]
        && results[j].routes == Lookup(index, norm(emails[j]))
        && results[j].found == IsFound(index, norm, emails[j])
      invariant notFound == NotFoundEmails(emails[..i], index, norm)
    {
      var email := emails[i];
      var key := norm(email);
      var routes := if key in index then index[key] else [];
      if routes != [] {
        results := results + [Resolution(email, routes, true)];
      } else {
        results := results + [Resolution(email, [], false)];
        notFound := notFound + [email];
      }
      assert emails[..i + 1][..i] == emails[..i];
      i := i + 1;
    }
    assert emails[..|emails|] == emails;
  }

  /** The counts of the returned dictionary, with the reported list cut to `ReportLimit`. */
  function Summarize(emails: seq<string>, notFound: seq<string>): (s: Summary)
    ensures s.totalCount == |emails| && s.notFoundCount == |notFound|
    ensures s.successCount + s.notFoundCount == s.totalCount
    ensures |s.notFoundEmails| == Min(ReportLimit, |notFound|)
    ensures s.notFoundEmails == notFound[..|s.notFoundEmails|]
  {
    var reported := if |notFound| <= ReportLimit then notFound else notFound[..ReportLimit];
    Summary(|emails|, |emails| - |notFound|, |notFound|, reported)
  }

  // ---------------------------------------------------------------------------
  // The column written to

  /**
    `c` is the position of the route column: the first header cell equal to
    `RouteHeader`, or one past the header when there is none.
   */
  predicate IsRouteColumn(header: seq<string>, c: nat)
  {
    && c <= |header|
    && (c < |header| ==> header[c] == RouteHeader)
    && (forall j :: 0 <= j < c && j < |header| ==> header[j] != RouteHeader)
  }

  /** The loop with `break` that looks for an existing route column. */
  method FindRouteColumn(header: seq<string>) returns (c: nat)
    ensures c <= |header|
    ensures c < |header| ==> header[c] == RouteHeader
    ensures forall j :: 0 <= j < c && j < |header| ==> header[j] != RouteHeader
  {
    var existing: Option<nat> := None;
    var i := 0;
    while i < |header|
      invariant 0 <= i <= |header|
      invariant existing == None
      invariant forall j :: 0 <= j < i ==> header[j] != RouteHeader
    {
      if header[i] == RouteHeader {
        existing := Some(i);
        break;
      }
      i := i + 1;
    }
    c := if existing.Some? then existing.value else |header|;
  }

  /** The route column is determined by the header. */
  lemma RouteColumnUnique(header: seq<string>, c: nat, d: nat)
    requires IsRouteColumn(header, c) && IsRouteColumn(header, d)
    ensures c == d
  {
  }

  // ---------------------------------------------------------------------------
  // The values written

  /** Resolution `i` is the last of the first `n` stored under `key`, so the one whose entry survives. */
  predicate LastFor(results: seq<Resolution>, norm: KeyFn, n: int, key: string, i: int)
    requires n <= |results|
  {
    0 <= i < n && norm(results[i].email) == key && forall j :: i < j < n ==> norm(results[j].email) != key
  }

  /** The loop that fills `result_map`: later entries for the same key overwrite earlier ones. */
  method BuildResultMap(results: seq<Resolution>, norm: KeyFn) returns (m: map<string, string>)
    ensures forall i :: 0 <= i < |results| ==> norm(results[i].email) in m
    ensures forall key :: key in m ==>
      exists i :: LastFor(results, norm, |results|, key, i) && m[key] == Join(results[i].routes, RouteSeparator)
  {
    m := map[];
    var n := 0;
    while n < |results|
      invariant 0 <= n <= |results|
      invariant forall i :: 0 <= i < n ==> norm(results[i].email) in m
      invariant forall key :: key in m ==>
        exists i :: LastFor(results, norm, n, key, i) && m[key] == Join(results[i].routes, RouteSeparator)
    {
      var key := norm(results[n].email);
      m := m[key := Join(results[n].routes, RouteSeparator)];
      forall k | k in m
        ensures exists i :: LastFor(results, norm, n + 1, k, i) && m[k] == Join(results[i].routes, RouteSeparator)
      {
        if k == key {
          assert LastFor(results, norm, n + 1, k, n);
        } else {
          var i :| LastFor(results, norm, n, k, i) && m[k] == Join(results[i].routes, RouteSeparator);
          assert LastFor(results, norm, n + 1, k, i);
        }
      }
      n := n + 1;
    }
  }

  /** `result_map.get(key, "")`. */
  function MappedValue(m: map<string, string>, key: string): string
  {
    if key in m then m[key] else ""
  }

  /** The loop that fills `values_to_write`, one value per data row. */
  method PlanValues(rows: seq<Row>, col: nat, m: map<string, string>, norm: KeyFn) returns (values: seq<string>)
    ensures |values| == |rows|
    ensures forall i :: 0 <= i < |rows| ==>
      values[i] == if col < |rows[i]| then MappedValue(m, norm(rows[i][col])) else ""
  {
    values := [];
    var i := 0;
    while i < |rows|
      invariant 0 <= i <= |rows|
      invariant |values| == i
      invariant forall j :: 0 <= j < i ==>
        values[j] == if col < |rows[j]| then MappedValue(m, norm(rows[j][col])) else ""
    {
      var row := rows[i];
      if col < |row| {
        var key := norm(row[col]);
        var route := if key in m then m[key] else "";
        values := values + [route];
      } else {
        values := values + [""];
      }
      i := i + 1;
    }
  }

  /** The keys that `result_map` holds: those of the extracted emails. */
  function EmailKeys(emails: seq<string>, norm: KeyFn): set<string>
  {
    set e | e in emails :: norm(e)
  }

  /**
    The value planned for a data row: the routes of its email cell's key,
    joined with ", ", when the row reaches the email column and that key is
    one of the extracted emails' keys; "" otherwise.
   */
  function RouteCell(row: Row, col: nat, emails: seq<string>, index: map<string, seq<string>>, norm: KeyFn): string
  {
    if col < |row| && norm(row[col]) in EmailKeys(emails, norm) then
      Join(Lookup(index, norm(row[col])), RouteSeparator)
    else ""
  }

  /**
    A row whose email cell is not empty gets the joined routes of that cell's
    key, or "" when the CSV has no record for it.
   */
  lemma RouteCellOfEmailRow(rows: seq<Row>, col: nat, i: nat, records: seq<CsvRecord>, norm: KeyFn)
    requires i < |rows| && col < |rows[i]| && rows[i][col] != ""
    ensures RouteCell(rows[i], col, SheetEmails(rows, col), RouteIndex(records, norm), norm)
      == Join(Dedup(RoutesFor(records, norm, norm(rows[i][col]))), RouteSeparator)
  {
    CellsAreSheetEmails(rows, col, i);
    LookupRouteIndex(records, norm, norm(rows[i][col]));
  }

  /** The map built from the resolutions sends each email key, and only those, to its joined routes. */
  lemma ResultMapAgrees(emails: seq<string>, index: map<string, seq<string>>, norm: KeyFn,
                        results: seq<Resolution>, m: map<string, string>)
    requires |results| == |emails|
    requires forall i :: 0 <= i < |emails| ==>
      results[i].email == emails[i] && results[i].routes == Lookup(index, norm(emails[i]))
    requires forall i :: 0 <= i < |results| ==> norm(results[i].email) in m
    requires forall key :: key in m ==>
      exists i :: LastFor(results, norm, |results|, key, i) && m[key] == Join(results[i].routes, RouteSeparator)
    ensures forall key :: key in m ==> key in EmailKeys(emails, norm)
    ensures forall key :: key in EmailKeys(emails, norm) ==> key in m
    ensures forall key :: key in m ==> m[key] == Join(Lookup(index, key), RouteSeparator)
  {
    forall key | key in EmailKeys(emails, norm) ensures key in m {
      var e :| e in emails && norm(e) == key;
      var i :| 0 <= i < |emails| && emails[i] == e;
      assert norm(results[i].email) == key;
    }
    forall key | key in m
      ensures key in EmailKeys(emails, norm) && m[key] == Join(Lookup(index, key), RouteSeparator)
    {
      var i :| LastFor(results, norm, |results|, key, i) && m[key] == Join(results[i].routes, RouteSeparator);
      assert emails[i] in emails;
    }
  }

  /** Each planned value is the `RouteCell` of its row. */
  lemma PlannedValuesAgree(rows: seq<Row>, col: nat, emails: seq<string>, index: map<string, seq<string>>,
                           norm: KeyFn, m: map<string, string>, values: seq<string>)
    requires forall key :: key in m ==> key in EmailKeys(emails, norm)
    requires forall key :: key in EmailKeys(emails, norm) ==> key in m
    requires forall key :: key in m ==> m[key] == Join(Lookup(index, key), RouteSeparator)
    requires |values| == |rows|
    requires forall i :: 0 <= i < |rows| ==>
      values[i] == if col < |rows[i]| then MappedValue(m, norm(rows[i][col])) else ""
    ensures forall i :: 0 <= i < |rows| ==> values[i] == RouteCell(rows[i], col, emails, index, norm)
  {
  }

  /** The values planned from the resolutions are the `RouteCell`s of the rows. */
  lemma ValuesAreRouteCells(rows: seq<Row>, col: nat, emails: seq<string>, index: map<string, seq<string>>,
                            norm: KeyFn, results: seq<Resolution>, m: map<string, string>, values: seq<string>)
    requires |results| == |emails|
    requires forall i :: 0 <= i < |emails| ==>
      results[i].email == emails[i] && results[i].routes == Lookup(index, norm(emails[i]))
    requires forall i :: 0 <= i < |results| ==> norm(results[i].email) in m
    requires forall key :: key in m ==>
      exists i :: LastFor(results, norm, |results|, key, i) && m[key] == Join(results[i].routes, RouteSeparator)
    requires |values| == |rows|
    requires forall i :: 0 <= i < |rows| ==>
      values[i] == if col < |rows[i]| then MappedValue(m, norm(rows[i][col])) else ""
    ensures forall i :: 0 <= i < |rows| ==> values[i] == RouteCell(rows[i], col, emails, index, norm)
  {
    ResultMapAgrees(emails, index, norm, results, m);
    PlannedValuesAgree(rows, col, emails, index, norm, m, values);
  }

  // ---------------------------------------------------------------------------
  // The whole of process_data

  /** The position of the email column, for a sheet whose header has one. */
  function EmailColumn(sheet: seq<Row>): nat
    requires sheet != [] && FindEmailColumn(sheet[0]) >= 0
  {
    FindEmailColumn(sheet[0])
  }

  /** The range the values are written to: rows 2 to `count + 1` of the column, none for no rows. */
  function DataRange(letters: string, count: nat): Option<string>
  {
    if count == 0 then None else Some(letters + "2:" + letters + DecimalString(count + 1))
  }

  /**
    There is a range exactly when there are rows; it starts at row 2 of the
    column and ends at row `count + 1`, written in decimal without leading zeros.
   */
  lemma DataRangeRows(letters: string, count: nat)
    ensures DataRange(letters, count).None? <==> count == 0
    ensures DataRange(letters, count).Some? ==>
      var r, n := DataRange(letters, count).value, 2 * |letters| + 2;
      && |r| > n
      && r[..n] == letters + "2:" + letters
      && (forall i :: n <= i < |r| ==> IsDigit(r[i]))
      && DecimalValue(r[n..]) == count + 1
      && (r[n] == '0' ==> |r| == n + 1)
  {
    if count > 0 {
      var r := letters + "2:" + letters + DecimalString(count + 1);
      assert r[2 * |letters| + 2..] == DecimalString(count + 1);
    }
  }

  /** `plan` writes, for each data row, the `RouteCell` of its email cell. */
  ghost predicate IsPlanFor(plan: WritePlan, spreadsheetId: string, header: Row, rows: seq<Row>, col: nat,
                            records: seq<CsvRecord>, norm: KeyFn)
  {
    var emails := SheetEmails(rows, col);
    var index := RouteIndex(records, norm);
    var letters := Letters(plan.column + 1);
    && plan.spreadsheetId == spreadsheetId
    && IsRouteColumn(header, plan.column)
    && plan.headerCell == letters + "1"
    && plan.headerValue == RouteHeader
    && |plan.values| == |rows|
    && (forall i :: 0 <= i < |rows| ==> plan.values[i] == RouteCell(rows[i], col, emails, index, norm))
    && plan.dataRange == DataRange(letters, |rows|)
  }

  /** `summary` counts the extracted emails, the found ones and the first unmatched ones. */
  ghost predicate IsSummaryFor(summary: Summary, rows: seq<Row>, col: nat, records: seq<CsvRecord>, norm: KeyFn)
  {
    var emails := SheetEmails(rows, col);
    var index := RouteIndex(records, norm);
    var notFound := NotFoundEmails(emails, index, norm);
    && summary.totalCount == |emails|
    && summary.successCount == |FoundEmails(emails, index, norm)|
    && summary.notFoundCount == |notFound|
    && summary.notFoundEmails == notFound[..Min(ReportLimit, |notFound|)]
  }

  /** The report `process_data` produces for a sheet and CSV that pass its checks. */
  ghost predicate IsReportFor(report: Report, url: string, sheet: seq<Row>, records: seq<CsvRecord>)
    requires sheet != [] && FindEmailColumn(sheet[0]) >= 0
  {
    && IsPlanFor(report.plan, ExtractSpreadsheetId(url), sheet[0], sheet[1..], EmailColumn(sheet), records, NormalizeEmail)
    && IsSummaryFor(report.summary, sheet[1..], EmailColumn(sheet), records, NormalizeEmail)
  }

  /**
    The write-back half of `process_data`: find or append the route column and
    plan the header cell and one value per data row from `result_map`.
   */
  method PlanWrite(spreadsheetId: string, header: Row, rows: seq<Row>, emailCol: nat, m: map<string, string>,
                   norm: KeyFn)
    returns (plan: WritePlan)
    ensures plan.spreadsheetId == spreadsheetId
    ensures IsRouteColumn(header, plan.column)
    ensures plan.headerCell == Letters(plan.column + 1) + "1"
    ensures plan.headerValue == RouteHeader
    ensures |plan.values| == |rows|
    ensures forall i :: 0 <= i < |rows| ==>
      plan.values[i] == if emailCol < |rows[i]| then MappedValue(m, norm(rows[i][emailCol])) else ""
    ensures plan.dataRange == DataRange(Letters(plan.column + 1), |rows|)
  {
    var routeCol := FindRouteColumn(header);
    var letters := ColIndexToLetter(routeCol);
    var values := PlanValues(rows, emailCol, m, norm);
    var dataRange := DataRange(letters, |values|);
    plan := WritePlan(spreadsheetId, routeCol, letters + "1", RouteHeader, dataRange, values);
  }

  /**
    The matching half of `process_data`: index the CSV, resolve the sheet's
    emails against it and count the outcome.
   */
  method Tally(rows: seq<Row>, emailCol: nat, emails: seq<string>, records: seq<CsvRecord>, norm: KeyFn)
    returns (index: map<string, seq<string>>, results: seq<Resolution>, summary: Summary)
    requires emails == SheetEmails(rows, emailCol)
    ensures index == RouteIndex(records, norm)
    ensures |results| == |emails|
    ensures forall i :: 0 <= i < |emails| ==> results[i].email == emails[i] && results[i].routes == Lookup(index, norm(emails[i]))
    ensures IsSummaryFor(summary, rows, emailCol, records, norm)
  {
    index := BuildIndex(records, norm);
    var notFound;
    results, notFound := Resolve(emails, index, norm);
    summary := Summarize(emails, notFound);
    FoundNotFoundCount(emails, index, norm);
  }

  /**
    The write-back half of `process_data`: build `result_map` from the
    resolutions and plan the header cell and the column of values.
   */
  method WriteBack(spreadsheetId: string, header: Row, rows: seq<Row>, emailCol: nat, emails: seq<string>,
                   records: seq<CsvRecord>, index: map<string, seq<string>>, results: seq<Resolution>, norm: KeyFn)
    returns (plan: WritePlan)
    requires emails == SheetEmails(rows, emailCol) && index == RouteIndex(records, norm)
    requires |results| == |emails|
    requires forall i :: 0 <= i < |emails| ==> results[i].email == emails[i] && results[i].routes == Lookup(index, norm(emails[i]))
    ensures IsPlanFor(plan, spreadsheetId, header, rows, emailCol, records, norm)
  {
    var resultMap := BuildResultMap(results, norm);
    plan := PlanWrite(spreadsheetId, header, rows, emailCol, resultMap, norm);
    ValuesAreRouteCells(rows, emailCol, emails, index, norm, results, resultMap, plan.values);
  }

  /** Everything `process_data` does once its checks have passed, for any key function. */
  method Reconciliation(spreadsheetId: string, header: Row, rows: seq<Row>, emailCol: nat, emails: seq<string>,
                        records: seq<CsvRecord>, norm: KeyFn)
    returns (report: Report)
    requires emails == SheetEmails(rows, emailCol)
    ensures IsPlanFor(report.plan, spreadsheetId, header, rows, emailCol, records, norm)
    ensures IsSummaryFor(report.summary, rows, emailCol, records, norm)
  {
    var index, results, summary := Tally(rows, emailCol, emails, records, norm);
    var plan := WriteBack(spreadsheetId, header, rows, emailCol, emails, records, index, results, norm);
    report := Report(plan, summary);
  }

  /** `process_data(spreadsheet_url, csv_content)`, with the sheet and the CSV given as values. */
  method ProcessData(url: string, sheet: seq<Row>, csvColumns: seq<string>, records: seq<CsvRecord>)
    returns (result: Result<Report, Failure>)
    ensures sheet == [] ==> result == Err(NoSheetData)
    ensures sheet != [] && FindEmailColumn(sheet[0]) < 0 ==> result == Err(NoEmailColumn)
    ensures sheet != [] && FindEmailColumn(sheet[0]) >= 0 ==>
      var emails := SheetEmails(sheet[1..], EmailColumn(sheet));
      && (emails == [] ==> result == Err(NoEmails))
      && (emails != [] && CsvEmailColumn !in csvColumns ==> result == Err(CsvMissingEmailColumn))
      && (emails != [] && CsvEmailColumn in csvColumns && CsvRouteColumn !in csvColumns ==>
            result == Err(CsvMissingRouteColumn))
      && (emails != [] && CsvEmailColumn in csvColumns && CsvRouteColumn in csvColumns ==>
            result.Ok? && IsReportFor(result.value, url, sheet, records))
  {
    var spreadsheetId := ExtractSpreadsheetId(url);
    if sheet == [] {
      return Err(NoSheetData);
    }
    var header := sheet[0];
    var emailCol := FindEmailColumn(header);
    if emailCol < 0 {
      return Err(NoEmailColumn);
    }
    var rows := sheet[1..];
    var emails := ExtractEmails(rows, emailCol);
    if emails == [] {
      return Err(NoEmails);
    }
    if CsvEmailColumn !in csvColumns {
      return Err(CsvMissingEmailColumn);
    }
    if CsvRouteColumn !in csvColumns {
      return Err(CsvMissingRouteColumn);
    }
    var report := Reconciliation(spreadsheetId, header, rows, emailCol, emails, records, NormalizeEmail);
    result := Ok(report);
  }
}
