/**
  `find_email_column`: locating the email column of the sheet's header row by
  a case-insensitive, two-way substring test against a fixed list of names.
 */
module Header {
  import opened Seqs
  import opened Text

  /** `EMAIL_COLUMN_PATTERNS`, in priority order. */
  const EmailColumnPatterns: seq<string> := ["メールアドレス", "メアド", "eメール", "email", "e-mail", "mail"]

  /** `str(col_name).lower().strip()`: the form a header cell is compared in. */
  function FoldCell(cell: string): string
  {
    Strip(LowerCase(cell))
  }

  /**
    A folded header cell matches a pattern when either one contains the
    other, once the pattern is lower-cased too.
   */
  predicate Related(col: string, pattern: string)
  {
    var p := LowerCase(pattern);
    Contains(col, p) || Contains(p, col)
  }

  /** The cell names the email column: its folded form is related to some pattern. */
  ghost predicate IsEmailHeader(cell: string)
  {
    exists j :: 0 <= j < |EmailColumnPatterns| && Related(FoldCell(cell), EmailColumnPatterns[j])
  }

  /** The inner loop over the patterns, from position `j` on. */
  function MatchesPatternFrom(col: string, patterns: seq<string>, j: nat): (r: bool)
    requires j <= |patterns|
    ensures r <==> exists k :: j <= k < |patterns| && Related(col, patterns[k])
    decreases |patterns| - j
  {
    if j == |patterns| then false
    else Related(col, patterns[j]) || MatchesPatternFrom(col, patterns, j + 1)
  }

  /** The test the outer loop makes on one header cell. */
  predicate IsEmailCell(cell: string)
  {
    MatchesPatternFrom(FoldCell(cell), EmailColumnPatterns, 0)
  }

  lemma EmailCellIsEmailHeader(header: seq<string>)
    ensures forall k :: 0 <= k < |header| ==> (IsEmailCell(header[k]) <==> IsEmailHeader(header[k]))
  {
  }

  /** The outer loop over the header cells, from position `i` on: the first cell that passes `test`. */
  function ScanHeader(header: seq<string>, test: string -> bool, i: nat): (r: int)
    requires i <= |header|
    ensures r == -1 || i <= r < |header|
    ensures r == -1 <==> forall k :: i <= k < |header| ==> !test(header[k])
    ensures r >= 0 ==> test(header[r])
    ensures r >= 0 ==> forall k :: i <= k < r ==> !test(header[k])
    decreases |header| - i
  {
    if i == |header| then -1
    else if test(header[i]) then i
    else ScanHeader(header, test, i + 1)
  }

  /**
    `find_email_column(header_row)`: the leftmost header cell that matches any
    pattern, whatever the pattern's priority; -1 when no cell matches.
   */
  function FindEmailColumn(header: seq<string>): (r: int)
    ensures -1 <= r < |header|
    ensures r == -1 <==> forall k :: 0 <= k < |header| ==> !IsEmailHeader(header[k])
    ensures r >= 0 ==> IsEmailHeader(header[r])
    ensures r >= 0 ==> forall k :: 0 <= k < r ==> !IsEmailHeader(header[k])
  {
    EmailCellIsEmailHeader(header);
    ScanHeader(header, IsEmailCell, 0)
  }

  /** A blank or whitespace-only header cell matches every pattern, since "" is in every string. */
  lemma BlankCellMatches(cell: string, pattern: string)
    requires AllSpace(cell)
    ensures Related(FoldCell(cell), pattern)
  {
    var lowered := LowerCase(cell);
    assert AllSpace(lowered);
    assert Strip(lowered) == [];
    ContainsEmpty(LowerCase(pattern));
  }

  /** So the email column is never to the right of a blank header cell. */
  lemma BlankCellBoundsColumn(header: seq<string>, i: nat)
    requires i < |header| && AllSpace(header[i])
    ensures 0 <= FindEmailColumn(header) <= i
  {
    BlankCellMatches(header[i], EmailColumnPatterns[0]);
    assert IsEmailHeader(header[i]);
  }

  /** A needle whose first character does not occur in `hay` is not in it. */
  lemma NotContainedWithoutFirst(hay: string, needle: string)
    requires |needle| > 0 && forall i :: 0 <= i < |hay| ==> hay[i] != needle[0]
    ensures !Contains(hay, needle)
  {
    forall k | 0 <= k ensures !OccursAt(hay, needle, k) {
      if k + |needle| <= |hay| {
        assert hay[k..k + |needle|][0] == hay[k];
      }
    }
  }

  /** "氏名" (name) is related to none of the patterns. */
  lemma NameCellMatchesNothing()
    ensures !IsEmailHeader("氏名")
  {
    LowerCaseOfLower("氏名");
    StripOfTrimmed("氏名");
    forall j | 0 <= j < |EmailColumnPatterns| ensures !Related("氏名", EmailColumnPatterns[j]) {
      var pattern := EmailColumnPatterns[j];
      LowerCaseOfLower(pattern);
      NotContainedWithoutFirst("氏名", pattern);
      NotContainedWithoutFirst(pattern, "氏名");
    }
  }

  /** "Eメール" folds to the pattern "eメール". */
  lemma MailCellMatches()
    ensures IsEmailHeader("Eメール")
  {
    assert LowerCase("Eメール") == "eメール";
    StripOfTrimmed("eメール");
    LowerCaseOfLower(EmailColumnPatterns[2]);
    assert OccursAt("eメール", EmailColumnPatterns[2], 0);
    assert Related(FoldCell("Eメール"), EmailColumnPatterns[2]);
  }

  /** With header `["氏名", "Eメール", "登録経路"]` the email column is 1. */
  lemma FindEmailColumnExample()
    ensures FindEmailColumn(["氏名", "Eメール", "登録経路"]) == 1
  {
    var header := ["氏名", "Eメール", "登録経路"];
    NameCellMatchesNothing();
    MailCellMatches();
    assert IsEmailHeader(header[1]);
  }
}
