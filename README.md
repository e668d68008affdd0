# UTAGE registration-route reconciliation, modelled in Dafny

`api/process.py` is a serverless endpoint.

- **Input.** It receives a spreadsheet URL and a CSV export of registration data as a `multipart/form-data` upload.
- **Matching.** It reads every row of the sheet, finds the sheet's email column by a fuzzy header match, and extracts the email cells. It indexes the CSV's records by normalised email. Each sheet email is then looked up, and the `登録経路` (registration route) values found are joined with ", ".
- **Output.** The joined routes are written back into a `UTAGE登録経路` column of the sheet. The endpoint returns the total, matched and unmatched counts.

This project models the pure and stateful logic of that file and proves what it computes:

- **`Text`** models the pieces of Python's `str` the code relies on:
  - `strip()` over the `isspace()` character set;
  - lower-casing;
  - the width-folding part of NFKC;
  - `str(n)`.
- **`Keys`** models `normalize_email`.
- **`Header`** models `find_email_column`. It states the bidirectional substring test together with the leftmost-column-wins rule.
- **`Columns`** models `col_index_to_letter` as bijective base 26. Its loop is proved against the numeral function, with a round trip in both directions.
- **`SheetId`** models `extract_spreadsheet_id`. Both regular expressions are written out as character-class scans.
- **`Reconcile`** models the body of `process_data`:
  - the email extraction loop;
  - the `email_to_routes` index (a de-duplicated route list per key, in first-seen order);
  - resolution and counting;
  - the search for the target column;
  - `result_map` (the last writer wins);
  - the positional list of values and the written range;
  - the five input errors, in the order the code raises them.

  Each loop is a method proved against a specification function, and lemmas relate those functions to the meaning the code promises.

  The index, resolution and write-back are proved for any key function. `ProcessData` instantiates them with `NormalizeEmail`, as `process_data` does.
- **`Multipart`** models the body parsing in `handler.do_POST`:
  - the boundary taken from `Content-Type`;
  - the `bytes.split` on `--boundary`;
  - the `\r\n\r\n` split with `maxsplit=1`;
  - `rstrip(b"\r\n--")` as a character set;
  - the `if`/`elif` field detection;
  - later parts overwriting earlier ones.
- **`Seqs`** models the sequence operations the code uses: the substring test `in`, `split` (with and without `maxsplit=1`), `", ".join` and append-if-absent de-duplication.

Four behaviours of `api/process.py` that are easy to misread, and that the model keeps:

- **Blank emails.** Only an empty raw CSV email is skipped. A whitespace-only email is filed under the key `""` (`BlankEmailFiledUnderEmptyKey`).
- **Target column.** It is found by exact equality with `UTAGE登録経路`; only the email column is found by the fuzzy header match.
- **Existing values.** Every data row's cell is rewritten; values already in the column are not preserved.
- **Header cell.** The header cell is planned as its own write. The values' range then holds exactly one value per data row.

## Model

| member | source | states |
|---|---|---|
| Text.Strip | api/process.py:51 | The result is empty exactly when the input is all whitespace; otherwise it neither starts nor ends with whitespace and is no longer than the input |
| Text.StripIsSlice | api/process.py:51 | `strip()` returns the slice between where the leading whitespace ends and where the trailing whitespace starts |
| Text.StripOfTrimmed | api/process.py:51 | A string that neither starts nor ends with whitespace is its own `strip()` |
| Text.StripIgnoresPadding | api/process.py:51 | Whitespace added on either side never changes what `strip()` returns |
| Text.LowerCase | api/process.py:53 | `lower()` leaves no capital (A to Z, U+FF21 to U+FF3A); every other character stays in place unchanged, and each capital becomes its small letter |
| Text.LowerCaseOfLower | api/process.py:53 | A string without capitals is its own `lower()` |
| Text.LowerCaseIdempotent | api/process.py:53 | Lower-casing twice is lower-casing once |
| Text.WidthFold | api/process.py:52 | The NFKC width fold leaves no full-width form (U+FF01 to U+FF5E) and no ideographic space; every other character stays in place unchanged, each full-width form becomes its ASCII character and U+3000 a blank |
| Text.WidthFoldOfNarrow | api/process.py:52 | A string without full-width forms or ideographic spaces is its own width fold |
| Text.WidthFoldIdempotent | api/process.py:52 | Width folding twice is width folding once |
| Text.DecimalString | api/process.py:189 | `str(n)` is a non-empty digit string without leading zeros that denotes `n` |
| Keys.NormalizeEmail | api/process.py:47-54 | The key is lower(fold(strip(email))), and empty exactly when the email is empty or all whitespace; within the modelled character mappings it is never longer than the email |
| Keys.NormalizeIdempotent | api/process.py:47-54 | With the modelled character mappings, normalising a key again gives the same key |
| Keys.NormalizeIgnoresPadding | api/process.py:47-54 | Leading and trailing whitespace never changes the key |
| Keys.NormalizeFoldsWidthAndCase | api/process.py:47-54 | A full-width, upper-case address with a trailing blank gets the same key as its plain lower-case form |
| Header.MatchesPatternFrom | api/process.py:61-63 | The inner loop succeeds exactly when some remaining pattern contains, or is contained in, the folded cell |
| Header.EmailCellIsEmailHeader | api/process.py:59-63 | The loop's test on a cell agrees with "some pattern is related to the folded cell" |
| Header.ScanHeader | api/process.py:59-64 | The outer loop returns the leftmost cell passing the test, and -1 exactly when none does |
| Header.FindEmailColumn | api/process.py:57-64 | Returns the smallest index whose folded cell is related to any pattern, whatever that pattern's priority. Returns -1 exactly when no cell matches |
| Header.BlankCellMatches | api/process.py:60-62 | A blank or whitespace-only header cell matches every pattern |
| Header.BlankCellBoundsColumn | api/process.py:57-64 | The email column is never to the right of a blank header cell |
| Header.NameCellMatchesNothing | api/process.py:19 | "氏名" is related to none of the email patterns |
| Header.MailCellMatches | api/process.py:19 | "Eメール" folds to a cell related to the pattern "eメール" |
| Header.FindEmailColumnExample | api/process.py:57-64 | For the header ["氏名", "Eメール", "登録経路"] the email column is 1 |
| Columns.LettersRoundTrip | api/process.py:67-74 | The numeral of n consists of upper-case letters, decodes back to n, and is empty only for 0 |
| Columns.LettersValueRoundTrip | api/process.py:67-74 | Every string of upper-case letters is the numeral of the number it decodes to |
| Columns.LettersInjective | api/process.py:67-74 | Different columns never get the same letters |
| Columns.LettersExamples | api/process.py:67-74 | Columns 0, 25, 26 and 702 are A, Z, AA and AAA |
| Columns.ColIndexToLetter | api/process.py:67-74 | For index >= 0 the loop yields the non-empty base-26 numeral of index+1, which decodes back to index; for index < 0 it yields "" |
| SheetId.FirstUrlMatch | api/process.py:37 | The position `re.search` finds for the URL pattern is the leftmost match, or none exists |
| SheetId.IdRunEnd | api/process.py:37 | The greedy `+` stops at the first non-ID character |
| SheetId.IdRunIsRun | api/process.py:37 | The run taken from an ID character is non-empty, made only of ID characters, and maximal |
| SheetId.ExtractSpreadsheetId | api/process.py:34-44 | Returns the maximal ID run after the first URL match. Otherwise returns a bare ID unchanged, and a bare ID followed by one newline without the newline. Otherwise returns the input unchanged |
| SheetId.NoUrlInId | api/process.py:36-43 | A string of ID characters never matches the URL pattern |
| SheetId.ExtractFromUrl | api/process.py:37-43 | The ID in a sheet URL is extracted whatever follows it |
| SheetId.ExtractIdempotent | api/process.py:34-44 | Extracting from an extracted ID changes nothing |
| Seqs.FindFrom | api/process.py:62 | The search returns the leftmost occurrence at or after the start, or reports that there is none |
| Seqs.FindFirst | api/process.py:235-242 | The leftmost occurrence of the needle, none exactly when it never occurs; it decides the substring tests `in` (lines 62, 227, 235, 240) and where the first cut of `split(b"\r\n\r\n", 1)` falls (lines 237, 242) |
| Seqs.ContainsEmpty | api/process.py:62 | The empty string is in every string |
| Seqs.Split | api/process.py:229 | `split` always gives at least one piece |
| Seqs.SplitPiecesFree | api/process.py:229 | No piece of a split contains the separator |
| Seqs.Join | api/process.py:175 | `", ".join` of no routes is ""; a join starts with its first piece, and with the first piece and a separator when there are two or more |
| Seqs.JoinLength | api/process.py:175 | A join is as long as its pieces together plus one separator between each two |
| Seqs.JoinSplit | api/process.py:229 | Joining the pieces of a split with the same separator gives the input back |
| Seqs.DedupElements | api/process.py:136-139 | Append-if-absent keeps each distinct element once and nothing else |
| Seqs.DedupFirstSeenOrder | api/process.py:136-139 | Append-if-absent lists the elements in the order of their first occurrence |
| Reconcile.SheetEmailsAreCells | api/process.py:102-105 | Every extracted email is a non-empty cell of the email column |
| Reconcile.CellsAreSheetEmails | api/process.py:102-105 | Every non-empty cell of the email column is extracted |
| Reconcile.ExtractEmails | api/process.py:102-105 | The loop's list is the in-order list of non-empty email cells of the rows that reach the column |
| Reconcile.RoutesForFiled | api/process.py:129-139 | Every route listed for a key is the route of some record filed under that key |
| Reconcile.FiledInRoutesFor | api/process.py:129-139 | The route of every record filed under a key is listed for that key |
| Reconcile.RoutesForEmpty | api/process.py:129-139 | A key has routes exactly when some non-empty email has that key |
| Reconcile.LookupRouteIndex | api/process.py:146 | `get(key, [])` yields the de-duplicated routes of the key, and [] for an unknown key |
| Reconcile.IndexEntries | api/process.py:129-139 | Every entry of the index is non-empty and free of repeats. It contains the route of every record filed under its key, and nothing else |
| Reconcile.IndexFirstSeenOrder | api/process.py:136-139 | Each entry lists its routes in the order their first record appears |
| Reconcile.BlankEmailFiledUnderEmptyKey | api/process.py:131-135 | A whitespace-only CSV email is not skipped; its route is filed under the key "" |
| Reconcile.IndexStep | api/process.py:135-139 | One more record changes only its own key's list, appending its route when that route is new |
| Reconcile.IndexFoldIsRouteIndex | api/process.py:129-139 | Filling the index record by record yields the declarative index |
| Reconcile.BuildIndex | api/process.py:129-139 | The loop leaves exactly the declarative index keyed by normalised email |
| Reconcile.FoundNotFoundCount | api/process.py:194-196 | Found and not-found emails add up to all extracted emails |
| Reconcile.FoundNotFoundPartition | api/process.py:144-151 | Found and not-found emails together are the extracted emails, repeats included |
| Reconcile.NotFoundExactly | api/process.py:144-151 | An email is in the not-found list exactly when it is extracted and not found |
| Reconcile.FoundIffIndexed | api/process.py:146-147 | Against the CSV index, an email is found exactly when its key is an index key |
| Reconcile.Resolve | api/process.py:142-151 | There is one result per email, in order. Each result carries the email, the looked-up routes and whether they are non-empty. The not-found list is the in-order list of unmatched emails |
| Reconcile.Summarize | api/process.py:192-198 | The total is the number of emails, and success plus not-found equals the total. The reported list is the first min(50, n) unmatched emails |
| Reconcile.FindRouteColumn | api/process.py:155-164 | The target column is the first header cell equal to "UTAGE登録経路", or the header's length when there is none |
| Reconcile.RouteColumnUnique | api/process.py:155-164 | The header determines the target column |
| Reconcile.BuildResultMap | api/process.py:172-175 | Every resolved email's key is in the map. Each key maps to the joined routes of the last resolution with that key |
| Reconcile.PlanValues | api/process.py:178-186 | One value per data row, in row order. A row too short for the email column gets "". Any other row gets `result_map.get(key, "")` of its email cell |
| Reconcile.ResultMapAgrees | api/process.py:172-175 | The map's keys are exactly the extracted emails' keys, and each maps to the joined index entry |
| Reconcile.PlannedValuesAgree | api/process.py:178-186 | Each planned value is the joined index entry of its row's email key, or "" |
| Reconcile.ValuesAreRouteCells | api/process.py:172-186 | The values computed through `results` and `result_map` equal the per-row reference value |
| Reconcile.RouteCellOfEmailRow | api/process.py:178-186 | A row with a non-empty email cell gets that key's de-duplicated CSV routes joined with ", " |
| Reconcile.DataRangeRows | api/process.py:188-189 | There is a range exactly when there are data rows; it runs from row 2 of the target column to row `n + 1`, written in decimal without leading zeros |
| Reconcile.PlanWrite | api/process.py:155-190 | The header goes to cell `<letters>1` of the target column. The values are one per data row. The range is `<letters>2:<letters><n+1>`, absent for no rows |
| Reconcile.Tally | api/process.py:129-151 | The index is the declarative index. The results are aligned with the emails, and the summary counts them |
| Reconcile.WriteBack | api/process.py:166-190 | The write plan targets the target column and gives each data row the joined routes of its email's key |
| Reconcile.Reconciliation | api/process.py:129-198 | After the checks, the plan and the counts are those of the declarative index and resolution |
| Reconcile.ProcessData | api/process.py:77-198 | Each failed check gives its own error, in the code's order. When all checks pass, the plan and summary are those of the sheet, the CSV and the extracted ID |
| Multipart.Utf8Char | api/process.py:228 | A character encodes to 1 to 4 bytes, and to one equal byte exactly when it is ASCII |
| Multipart.Utf8Encode | api/process.py:228 | `.encode()` is never shorter than the string, and ASCII text encodes byte for byte, as the bytes literals of lines 235 and 240 do |
| Multipart.Utf8EncodeAppend | api/process.py:228 | The encoding of a concatenation is the concatenation of the encodings |
| Multipart.RStrip | api/process.py:239 | `rstrip(b"\r\n--")` keeps a prefix not ending in CR, LF or '-', and every removed byte is one of those |
| Multipart.RStripIgnoresStrippedTail | api/process.py:239 | Any run of CR, LF and '-' after a value is removed together with it |
| Multipart.RStripDropsTrailingDash | api/process.py:239 | A value ending in '-' loses that byte too |
| Multipart.PartValue | api/process.py:237-239 | A part yields a value exactly when it contains a blank line |
| Multipart.LastGivenNone | api/process.py:231-245 | A field stays None exactly when no part assigns it |
| Multipart.LastGivenSome | api/process.py:231-245 | A field's final value is that of the last part assigning it |
| Multipart.ParseFields | api/process.py:231-245 | The loop leaves each field at the value of the last part that assigns it, with the URL test taking precedence in each part |
| Multipart.PartValueRoundTrip | api/process.py:237-244 | A part laid out as a browser sends it, with any header lines (so the `csv_file` part with its `Content-Type` line too) that form no blank line before the one after the header, yields back its value, unless the value ends in CR, LF or '-' |
| Multipart.SecondPiece | api/process.py:228 | `split("boundary=")[1]` exists exactly when the key occurs. It is the text from the first occurrence to the next one or to the end |
| Multipart.ParseRequest | api/process.py:220-247 | Gives one error for a non-multipart type and another for a missing boundary. Otherwise the request is accepted exactly when both fields end non-empty, and it carries their values |

## Left out

- **Google Sheets access**: `get_credentials`, `gspread.authorize`, `open_by_key`, `get_all_values` and `worksheet.update`. These are network I/O on credentials. The sheet is an input grid, and the two writes are returned as a `WritePlan`.
- **Reading the CSV**:
  - The temporary file, `pd.read_csv` and its UTF-8/cp932 fallback are file I/O and a foreign library.
  - The CSV is given as its column names and its records of already-decoded `str()` cells. pandas' rendering of a missing cell as "nan" is therefore part of the input, not of the model.
- **HTTP handling**:
  - It does not model the HTTP response, the CORS headers, the JSON body, `do_OPTIONS`, or the 500 response built from `str(e)`. These are transport plumbing. Errors are returned as `Failure` and `RequestError` values.
  - Reading `Content-Length` and `rfile` is I/O. The body is a parameter.
- Keys.NormalizeEmail:
  - It models NFKC only as its full-width-to-ASCII fold (U+FF01 to U+FF5E) and U+3000 to a space.
  - It models `lower()` only for A to Z and the full-width capitals.
  - Full Unicode normalisation and case mapping are not modelled. Outside the modelled characters the real key can be longer than the email: NFKC expands "㎏" to "kg" and "ﬁ" to "fi", "İ".lower() has two code points, and `lower()` maps a final sigma by its context. The contract's length bound and `NormalizeIdempotent` hold for the modelled mappings only: NFKC maps "¨" (U+00A8) to a space followed by U+0308, and normalising that key again strips the space.
- Multipart.ParseRequest: returns the URL field as bytes. Its `.decode("utf-8")` and the `UnicodeDecodeError` that decoding may raise are not modelled; the emptiness test the code makes on the decoded text is made on the bytes.
- Reconcile.ProcessData: does not model the exceptions the Google client or pandas may raise part-way. The `finally` clause that deletes the temporary file is I/O.
