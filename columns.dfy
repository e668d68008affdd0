/**
  `col_index_to_letter`: spreadsheet column letters, the bijective base-26
  numeral of the 1-based column number (0 -> "A", 25 -> "Z", 26 -> "AA").
 */
module Columns {

  predicate IsLetters(s: string)
  {
    forall i :: 0 <= i < |s| ==> 'A' <= s[i] <= 'Z'
  }

  /** The bijective base-26 numeral of `n`, with digits `A` (1) to `Z` (26); "" for 0. */
  function Letters(n: nat): string
    decreases n
  {
    if n == 0 then "" else Letters((n - 1) / 26) + [(65 + (n - 1) % 26) as char]
  }

  /** The number a bijective base-26 numeral denotes. */
  function LettersValue(s: string): int
  {
    if s == [] then 0 else LettersValue(s[..|s| - 1]) * 26 + (s[|s| - 1] as int - 64)
  }

  /** Decoding the letters of `n` gives `n` back; they are upper-case letters, none for 0. */
  lemma {:induction false} LettersRoundTrip(n: nat)
    ensures IsLetters(Letters(n))
    ensures LettersValue(Letters(n)) == n
    ensures Letters(n) == [] <==> n == 0
    decreases n
  {
    if n > 0 {
      var q := (n - 1) / 26;
      var s := Letters(n);
      LettersRoundTrip(q);
      assert s[..|s| - 1] == Letters(q);
    }
  }

  /** Every string of upper-case letters is the numeral of the number it denotes. */
  lemma {:induction false} LettersValueRoundTrip(s: string)
    requires IsLetters(s)
    ensures LettersValue(s) >= 0
    ensures Letters(LettersValue(s)) == s
    decreases |s|
  {
    if s != [] {
      var init := s[..|s| - 1];
      var d := s[|s| - 1] as int - 65;
      LettersValueRoundTrip(init);
      var v := LettersValue(init);
      var n := v * 26 + d + 1;
      assert (n - 1) / 26 == v && (n - 1) % 26 == d;
      assert s == init + [s[|s| - 1]];
    }
  }

  /** Column 0 is `A`, column 25 is `Z`, column 26 is `AA`. */
  lemma LettersExamples()
    ensures Letters(1) == "A" && Letters(26) == "Z" && Letters(27) == "AA" && Letters(703) == "AAA"
  {
    assert Letters(1) == Letters(0) + "A";
    assert Letters(27) == Letters(1) + "A";
    assert Letters(703) == Letters(27) + "A";
  }

  /** Different columns never get the same letters. */
  lemma LettersInjective(m: nat, n: nat)
    requires Letters(m) == Letters(n)
    ensures m == n
  {
    LettersRoundTrip(m);
    LettersRoundTrip(n);
  }

  /** One step of the conversion: the last letter of `n` comes off the numeral onto `rest`. */
  lemma LettersUnfold(n: nat, rest: string)
    requires n > 0
    ensures Letters(n) + rest == Letters((n - 1) / 26) + ([(65 + (n - 1) % 26) as char] + rest)
  {
  }

  /** `col_index_to_letter(index)`: the letters naming the 0-based column `index`. */
  method ColIndexToLetter(index: int) returns (letters: string)
    ensures index >= 0 ==> letters == Letters(index + 1)
    ensures index >= 0 ==> letters != [] && IsLetters(letters) && LettersValue(letters) - 1 == index
    ensures index < 0 ==> letters == ""
  {
    letters := "";
    var n := index + 1;
    while n > 0
      invariant index >= 0 ==> 0 <= n && Letters(n) + letters == Letters(index + 1)
      invariant index < 0 ==> letters == ""
    {
      LettersUnfold(n, letters);
      var remainder := (n - 1) % 26;
      n := (n - 1) / 26;
      letters := [(65 + remainder) as char] + letters;
    }
    if index >= 0 {
      assert letters == Letters(index + 1) by {
        assert Letters(0) + letters == letters;
      }
      LettersRoundTrip(index + 1);
    }
  }
}
