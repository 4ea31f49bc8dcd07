/**
 The four patterns pgCompletion hands to `matchBefore`. `matchBefore` searches the
 text between the start of the cursor's line and the cursor, with the pattern
 anchored at the cursor, so each pattern here is a predicate on that text
 (`before`). Each is computed by a scan and paired with a ghost predicate that reads
 like the regular expression itself, and a lemma proves the two agree on every text.
 */
module Patterns {
  import opened Chars

  /** Start of the longest run of `\w` characters that ends the text. */
  function TrailingWordStart(s: string): (k: nat)
    ensures k <= |s|
    ensures forall i :: k <= i < |s| ==> IsWordChar(s[i])
    ensures k == 0 || !IsWordChar(s[k - 1])
  {
    if |s| > 0 && IsWordChar(s[|s| - 1]) then TrailingWordStart(s[..|s| - 1]) else |s|
  }

  /** End of the longest run of `\s` characters that starts the text. */
  function LeadingSpaceEnd(s: string): (i: nat)
    ensures i <= |s|
    ensures forall j :: 0 <= j < i ==> IsSpaceChar(s[j])
    ensures i == |s| || !IsSpaceChar(s[i])
  {
    if |s| > 0 && IsSpaceChar(s[0]) then 1 + LeadingSpaceEnd(s[1..]) else 0
  }

  /** `/->\w*$/`: the text ends with `->` and then word characters. */
  predicate EndsWithArrowWord(s: string) {
    var k := TrailingWordStart(s);
    k >= 2 && s[k - 2] == '-' && s[k - 1] == '>'
  }

  /** `/\$\w*$/`: the text ends with `$` and then word characters. */
  predicate EndsWithSigilWord(s: string) {
    var k := TrailingWordStart(s);
    k >= 1 && s[k - 1] == '$'
  }

  // `/^\s*\w*/` anchored at the cursor: blanks, then word characters, and nothing else.
  predicate IsBlankThenWord(s: string) {
    AllWord(s[LeadingSpaceEnd(s)..])
  }

  // `/^\s*B\w*/` anchored at the cursor: blanks, then `B`, then word characters.
  predicate IsBlankThenB(s: string) {
    var i := LeadingSpaceEnd(s);
    i < |s| && s[i] == 'B' && AllWord(s[i + 1..])
  }

  // Regular-expression readings: a match is a split of the text into the parts the
  // pattern names.

  ghost predicate ArrowMatchAt(s: string, j: int) {
    0 <= j && j + 2 <= |s| && s[j] == '-' && s[j + 1] == '>' && AllWord(s[j + 2..])
  }

  ghost predicate SigilMatchAt(s: string, j: int) {
    0 <= j < |s| && s[j] == '$' && AllWord(s[j + 1..])
  }

  ghost predicate BlankWordSplit(s: string, i: int) {
    0 <= i <= |s| && AllSpace(s[..i]) && AllWord(s[i..])
  }

  ghost predicate BlankBSplit(s: string, i: int) {
    0 <= i < |s| && AllSpace(s[..i]) && s[i] == 'B' && AllWord(s[i + 1..])
  }

  /** A word run ending the text starts exactly where the scan says, when a non-word character precedes it. */
  lemma TrailingRunIsMaximal(s: string, m: int)
    requires 1 <= m <= |s| && !IsWordChar(s[m - 1]) && AllWord(s[m..])
    ensures TrailingWordStart(s) == m
  {
    assert forall i :: m <= i < |s| ==> IsWordChar(s[i]) by {
      forall i | m <= i < |s| ensures IsWordChar(s[i]) {
        assert s[m..][i - m] == s[i];
      }
    }
  }

  /** A blank run starting the text ends exactly where the scan says, when a non-blank character follows it. */
  lemma LeadingRunIsMaximal(s: string, m: int)
    requires 0 <= m < |s| && !IsSpaceChar(s[m]) && AllSpace(s[..m])
    ensures LeadingSpaceEnd(s) == m
  {
    assert forall j :: 0 <= j < m ==> IsSpaceChar(s[j]) by {
      forall j | 0 <= j < m ensures IsSpaceChar(s[j]) {
        assert s[..m][j] == s[j];
      }
    }
  }

  lemma ArrowMatchIff(s: string)
    ensures EndsWithArrowWord(s) <==> exists j :: ArrowMatchAt(s, j)
  {
    var k := TrailingWordStart(s);
    if EndsWithArrowWord(s) {
      assert ArrowMatchAt(s, k - 2);
    }
    if j :| ArrowMatchAt(s, j) {
      TrailingRunIsMaximal(s, j + 2);
    }
  }

  lemma SigilMatchIff(s: string)
    ensures EndsWithSigilWord(s) <==> exists j :: SigilMatchAt(s, j)
  {
    var k := TrailingWordStart(s);
    if EndsWithSigilWord(s) {
      assert SigilMatchAt(s, k - 1);
    }
    if j :| SigilMatchAt(s, j) {
      TrailingRunIsMaximal(s, j + 1);
    }
  }

  lemma BlankThenWordIff(s: string)
    ensures IsBlankThenWord(s) <==> exists i :: BlankWordSplit(s, i)
  {
    var e := LeadingSpaceEnd(s);
    if IsBlankThenWord(s) {
      assert BlankWordSplit(s, e);
    }
    if i :| BlankWordSplit(s, i) {
      assert forall j :: 0 <= j < i ==> IsSpaceChar(s[j]) by {
        forall j | 0 <= j < i ensures IsSpaceChar(s[j]) {
          assert s[..i][j] == s[j];
        }
      }
      if i < |s| {
        assert s[i..][0] == s[i];
        LeadingRunIsMaximal(s, i);
      }
    }
  }

  lemma BlankThenBIff(s: string)
    ensures IsBlankThenB(s) <==> exists i :: BlankBSplit(s, i)
  {
    var e := LeadingSpaceEnd(s);
    if IsBlankThenB(s) {
      assert BlankBSplit(s, e);
    }
    if i :| BlankBSplit(s, i) {
      LeadingRunIsMaximal(s, i);
    }
  }

  /** The `$` and `->` patterns never both match the same text. */
  lemma SigilExcludesArrow(s: string)
    ensures !(EndsWithSigilWord(s) && EndsWithArrowWord(s))
  {
  }

  /** Every text the `B` pattern matches is also matched by the plain word pattern. */
  lemma BlankThenBIsBlankThenWord(s: string)
    ensures IsBlankThenB(s) ==> IsBlankThenWord(s)
  {
    var i := LeadingSpaceEnd(s);
    if IsBlankThenB(s) {
      assert forall j :: 0 <= j < |s[i..]| ==> s[i..][j] == s[i + j];
    }
  }
}
