/** `normalize_email`: the lookup key an email address is filed and found under. */
module Keys {
  import opened Text

  /**
    Strips surrounding whitespace, folds full-width characters to their
    ASCII forms and lower-cases. The empty address gives the empty key.
   */
  function NormalizeEmail(email: string): (key: string)
    ensures key == LowerCase(WidthFold(Strip(email)))
    ensures |key| <= |email|
    ensures key == [] <==> AllSpace(email)
  {
    if email == "" then "" else LowerCase(WidthFold(Strip(email)))
  }

  /** Leading and trailing whitespace never changes the key. */
  lemma NormalizeIgnoresPadding(lead: string, email: string, trail: string)
    requires AllSpace(lead) && AllSpace(trail)
    ensures NormalizeEmail(lead + email + trail) == NormalizeEmail(email)
  {
    StripIgnoresPadding(lead, email, trail);
  }

  /** Normalising a key again gives the same key: the key is stripped, folded and lower-case already. */
  lemma NormalizeIdempotent(email: string)
    ensures NormalizeEmail(NormalizeEmail(email)) == NormalizeEmail(email)
  {
    var key := NormalizeEmail(email);
    if key != [] {
      var s := Strip(email);
      FoldedKeepsNonSpace(s, 0);
      FoldedKeepsNonSpace(s, |s| - 1);
      StripOfTrimmed(key);
      forall i | 0 <= i < |key| ensures !IsWide(key[i]) {
        FoldedIsNarrow(s, i);
      }
      WidthFoldOfNarrow(key);
      LowerCaseOfLower(key);
    }
  }

  /** Folding and lower-casing never turn a non-space character into whitespace. */
  lemma FoldedKeepsNonSpace(s: string, i: nat)
    requires i < |s| && !IsSpace(s[i])
    ensures !IsSpace(LowerCase(WidthFold(s))[i])
  {
  }

  /** Lower-casing after width folding leaves no wide character. */
  lemma FoldedIsNarrow(s: string, i: nat)
    requires i < |s|
    ensures !IsWide(LowerCase(WidthFold(s))[i])
  {
  }

  /** Full-width letters, letter case and a trailing blank do not change the key. */
  lemma NormalizeFoldsWidthAndCase()
    ensures NormalizeEmail("\U{FF21}\U{FF22}\U{FF23}@x.com ") == NormalizeEmail("abc@x.com") == "abc@x.com"
  {
    var core := "\U{FF21}\U{FF22}\U{FF23}@x.com";
    NormalizeIgnoresPadding("", core, " ");
    assert "" + core + " " == "\U{FF21}\U{FF22}\U{FF23}@x.com ";
    WideExample();
    AsciiExample();
  }

  lemma WideExample()
    ensures NormalizeEmail("\U{FF21}\U{FF22}\U{FF23}@x.com") == "abc@x.com"
  {
    StripOfTrimmed("\U{FF21}\U{FF22}\U{FF23}@x.com");
    FoldExample();
    LowerExample();
  }

  lemma AsciiExample()
    ensures NormalizeEmail("abc@x.com") == "abc@x.com"
  {
    StripOfTrimmed("abc@x.com");
    FoldExample();
    LowerExample();
  }

  lemma FoldExample()
    ensures WidthFold("\U{FF21}\U{FF22}\U{FF23}@x.com") == "ABC@x.com"
    ensures WidthFold("abc@x.com") == "abc@x.com"
  {
    var f := WidthFold("\U{FF21}\U{FF22}\U{FF23}@x.com");
    assert f[0] == 'A' && f[1] == 'B' && f[2] == 'C' && f[3] == '@' && f[4] == 'x';
    assert f[5] == '.' && f[6] == 'c' && f[7] == 'o' && f[8] == 'm';
    var g := WidthFold("abc@x.com");
    assert g[0] == 'a' && g[1] == 'b' && g[2] == 'c' && g[3] == '@' && g[4] == 'x';
    assert g[5] == '.' && g[6] == 'c' && g[7] == 'o' && g[8] == 'm';
  }

  lemma LowerExample()
    ensures LowerCase("ABC@x.com") == "abc@x.com"
    ensures LowerCase("abc@x.com") == "abc@x.com"
  {
    var f := LowerCase("ABC@x.com");
    assert f[0] == 'a' && f[1] == 'b' && f[2] == 'c' && f[3] == '@' && f[4] == 'x';
    assert f[5] == '.' && f[6] == 'c' && f[7] == 'o' && f[8] == 'm';
    var g := LowerCase("abc@x.com");
    assert g[0] == 'a' && g[1] == 'b' && g[2] == 'c' && g[3] == '@' && g[4] == 'x';
    assert g[5] == '.' && g[6] == 'c' && g[7] == 'o' && g[8] == 'm';
  }
}
