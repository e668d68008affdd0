/**
  `extract_spreadsheet_id`: the two regular expressions
  `https://docs\.google\.com/spreadsheets/d/([a-zA-Z0-9_-]+)` (searched anywhere)
  and `^([a-zA-Z0-9_-]+)$`, written out as character-class scans.
 */
module SheetId {
  import opened Common
  import opened Seqs

  const SheetUrlPrefix: string := "https://docs.google.com/spreadsheets/d/"

  /** The character class `[a-zA-Z0-9_-]`. */
  predicate IsIdChar(c: char)
  {
    ('a' <= c <= 'z') || ('A' <= c <= 'Z') || ('0' <= c <= '9') || c == '_' || c == '-'
  }

  predicate AllIdChars(s: string)
  {
    forall i :: 0 <= i < |s| ==> IsIdChar(s[i])
  }

  /** The first pattern matches starting at `k`: the URL prefix, then at least one ID character. */
  predicate UrlMatchAt(s: string, k: int)
  {
    OccursAt(s, SheetUrlPrefix, k) && k + |SheetUrlPrefix| < |s| && IsIdChar(s[k + |SheetUrlPrefix|])
  }

  /** Where `re.search` finds the first pattern: its leftmost match at or after `k`. */
  function FirstUrlMatch(s: string, k: nat): (r: Option<nat>)
    requires k <= |s|
    ensures r.Some? ==> k <= r.value && UrlMatchAt(s, r.value)
    ensures r.Some? ==> forall j :: k <= j < r.value ==> !UrlMatchAt(s, j)
    ensures r.None? ==> forall j :: k <= j ==> !UrlMatchAt(s, j)
    decreases |s| - k
  {
    if k + |SheetUrlPrefix| >= |s| then None
    else if UrlMatchAt(s, k) then Some(k)
    else FirstUrlMatch(s, k + 1)
  }

  /** The end of the maximal run of ID characters that starts at `i`, as a greedy `+` takes it. */
  function IdRunEnd(s: string, i: nat): (e: nat)
    requires i <= |s|
    ensures i <= e <= |s|
    ensures forall k :: i <= k < e ==> IsIdChar(s[k])
    ensures e < |s| ==> !IsIdChar(s[e])
    decreases |s| - i
  {
    if i < |s| && IsIdChar(s[i]) then IdRunEnd(s, i + 1) else i
  }

  /** `id` is the maximal run of ID characters of `s` starting at `start`, and is not empty. */
  predicate IsIdRunAt(s: string, start: nat, id: string)
  {
    && |id| > 0
    && start + |id| <= |s|
    && id == s[start..start + |id|]
    && AllIdChars(id)
    && (start + |id| == |s| || !IsIdChar(s[start + |id|]))
  }

  /** The greedy run from an ID character is a maximal, non-empty run. */
  lemma IdRunIsRun(s: string, start: nat)
    requires start < |s| && IsIdChar(s[start])
    ensures IsIdRunAt(s, start, s[start..IdRunEnd(s, start)])
  {
    var id := s[start..IdRunEnd(s, start)];
    assert forall k :: 0 <= k < |id| ==> id[k] == s[start + k];
  }

  /** The whole of `s` matches `^([a-zA-Z0-9_-]+)$`. */
  predicate IsBareId(s: string)
  {
    |s| > 0 && AllIdChars(s)
  }

  /** `s` is a bare ID followed by one newline, which `$` in Python also accepts. */
  predicate IsBareIdLine(s: string)
  {
    |s| >= 2 && s[|s| - 1] == '\n' && AllIdChars(s[..|s| - 1])
  }

  /** `extract_spreadsheet_id(url_or_id)`. */
  function ExtractSpreadsheetId(s: string): (id: string)
    ensures FirstUrlMatch(s, 0).Some? ==> IsIdRunAt(s, FirstUrlMatch(s, 0).value + |SheetUrlPrefix|, id)
    ensures FirstUrlMatch(s, 0).None? && IsBareId(s) ==> id == s
    ensures FirstUrlMatch(s, 0).None? && IsBareIdLine(s) ==> id == s[..|s| - 1]
    ensures FirstUrlMatch(s, 0).None? && !IsBareId(s) && !IsBareIdLine(s) ==> id == s
  {
    match FirstUrlMatch(s, 0)
    case Some(m) =>
      var start := m + |SheetUrlPrefix|;
      IdRunIsRun(s, start);
      s[start..IdRunEnd(s, start)]
    case None =>
      if IsBareId(s) then s
      else if IsBareIdLine(s) then s[..|s| - 1]
      else s
  }

  /** No URL match fits inside a string made only of ID characters (the prefix has a ':'). */
  lemma NoUrlInId(s: string)
    requires AllIdChars(s)
    ensures FirstUrlMatch(s, 0).None?
  {
    assert !IsIdChar(SheetUrlPrefix[5]);
    forall j | 0 <= j ensures !OccursAt(s, SheetUrlPrefix, j) {
      if j + |SheetUrlPrefix| <= |s| {
        assert s[j..j + |SheetUrlPrefix|][5] == s[j + 5];
      }
    }
  }

  /** An ID in a sheet URL is extracted, whatever follows it. */
  lemma ExtractFromUrl(id: string, rest: string)
    requires IsBareId(id)
    requires rest == [] || !IsIdChar(rest[0])
    ensures ExtractSpreadsheetId(SheetUrlPrefix + id + rest) == id
  {
    var u := SheetUrlPrefix + id + rest;
    var p := |SheetUrlPrefix|;
    assert u[..p] == SheetUrlPrefix;
    assert UrlMatchAt(u, 0);
    assert FirstUrlMatch(u, 0) == Some(0);
    assert u[p..p + |id|] == id;
    var r := ExtractSpreadsheetId(u);
    assert |r| == |id|;
  }

  /** Extracting from what was extracted changes nothing. */
  lemma ExtractIdempotent(s: string)
    ensures ExtractSpreadsheetId(ExtractSpreadsheetId(s)) == ExtractSpreadsheetId(s)
  {
    var id := ExtractSpreadsheetId(s);
    if FirstUrlMatch(s, 0).Some? || IsBareId(s) || IsBareIdLine(s) {
      assert AllIdChars(id);
      NoUrlInId(id);
    } else {
      assert id == s;
    }
  }
}
