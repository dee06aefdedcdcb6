/**
 * The classification rule of `classifyAndWrite` and the crawling goal of
 * `enough` in main.cpp: an article is labelled by its first ASCII letter,
 * case-insensitively, with one of NUM_CATEGORIES labels, and the goal is
 * reached when every category has been seen at least Threshold times.
 */
module Classify {

  /** NUM_CATEGORIES: the number of category labels (1..13). */
  const NumCategories: nat := 13

  /** The per-category count that `enough` asks for. */
  const Threshold: int := 5

  predicate IsUpper(c: char) { 'A' <= c <= 'Z' }

  predicate IsLower(c: char) { 'a' <= c <= 'z' }

  predicate IsLetter(c: char) { IsUpper(c) || IsLower(c) }

  /** The article holds an ASCII letter somewhere. */
  predicate HasLetter(s: seq<char>)
  {
    exists i :: 0 <= i < |s| && IsLetter(s[i])
  }

  /** Position of the first ASCII letter of an article. */
  function FirstLetterIndex(s: seq<char>): (i: nat)
    requires HasLetter(s)
    ensures i < |s| && IsLetter(s[i])
    ensures forall j :: 0 <= j < i ==> !IsLetter(s[j])
  {
    if IsLetter(s[0]) then 0
    else
      assert HasLetter(s[1..]) by {
        var k :| 0 <= k < |s| && IsLetter(s[k]);
        assert s[1..][k - 1] == s[k];
      }
      1 + FirstLetterIndex(s[1..])
  }

  /**
   * The scan loop of `classifyAndWrite`: skip every character that is not
   * an ASCII letter. The loop only stops at a letter, so one must be present.
   */
  method ScanToLetter(article: seq<char>) returns (i: nat)
    requires HasLetter(article)
    ensures i < |article| && IsLetter(article[i])
    ensures forall j :: 0 <= j < i ==> !IsLetter(article[j])
  {
    i := 0;
    while !IsLetter(article[i])
      invariant i < |article|
      invariant forall j :: 0 <= j < i ==> !IsLetter(article[j])
      invariant exists k :: i <= k < |article| && IsLetter(article[k])
      decreases |article| - i
    {
      i := i + 1;
    }
  }

  /** Upper-case counterpart of a lower-case ASCII letter. */
  function ToUpper(c: char): (u: char)
    requires IsLower(c)
    ensures IsUpper(u) && u as int - 'A' as int == c as int - 'a' as int
  {
    (c as int - 'a' as int + 'A' as int) as char
  }

  /** Position of a letter in the alphabet, whatever its case: 'a' and 'A' are 0. */
  function AlphabetIndex(c: char): (k: int)
    requires IsLetter(c)
    ensures 0 <= k < 26
    ensures IsLower(c) ==> k == AlphabetIndex(ToUpper(c))
  {
    c as int - (if IsUpper(c) then 'A' else 'a') as int
  }

  /** The label a letter gives: its alphabet index modulo 13, plus one. */
  function Label(c: char): (category: int)
    requires IsLetter(c)
    ensures 1 <= category <= NumCategories
    ensures category - 1 == AlphabetIndex(c) % NumCategories
  {
    (c as int - (if IsUpper(c) then 'A' else 'a') as int) % NumCategories + 1
  }

  /** The label of an article: the label of its first ASCII letter. */
  function ArticleLabel(article: seq<char>): (category: int)
    requires HasLetter(article)
    ensures 1 <= category <= NumCategories
  {
    Label(article[FirstLetterIndex(article)])
  }

  /** The label ignores case. */
  lemma LabelIgnoresCase(c: char)
    requires IsLower(c)
    ensures Label(c) == Label(ToUpper(c))
  {
  }

  /** Two letters share a label exactly when they are the same letter ignoring case, or 13 letters apart. */
  lemma SameLabel(c: char, d: char)
    requires IsLetter(c) && IsLetter(d)
    ensures Label(c) == Label(d) <==>
      AlphabetIndex(c) == AlphabetIndex(d) || AlphabetIndex(c) - AlphabetIndex(d) == 13
      || AlphabetIndex(d) - AlphabetIndex(c) == 13
  {
  }

  /** 'a', 'A', 'n' and 'N' all give label 1; 'z' and 'Z' give 13. */
  lemma LabelExamples()
    ensures Label('a') == Label('A') == Label('n') == Label('N') == 1
    ensures Label('m') == Label('z') == Label('Z') == 13
  {
  }

  /** An article starting with 'a' is labelled 1, whatever follows. */
  lemma LeadingLowerA(article: seq<char>)
    requires |article| > 0 && article[0] == 'a'
    ensures HasLetter(article) && ArticleLabel(article) == 1
  {
    assert IsLetter(article[0]);
  }

  // ---- Category tallies and the crawling goal ----

  /** The loop of `enough` from index i on: returns false at the first short category. */
  function EnoughFrom(tally: seq<int>, i: nat): (r: bool)
    requires |tally| == NumCategories && i <= NumCategories
    ensures r <==> forall j :: i <= j < NumCategories ==> tally[j] >= Threshold
    decreases NumCategories - i
  {
    if i == NumCategories then true
    else if tally[i] < Threshold then false
    else EnoughFrom(tally, i + 1)
  }

  /** `enough()`: every category has reached the threshold. */
  function Enough(tally: seq<int>): (r: bool)
    requires |tally| == NumCategories
    ensures r <==> forall j :: 0 <= j < NumCategories ==> tally[j] >= Threshold
  {
    EnoughFrom(tally, 0)
  }

  /** The tally after one article with the given label: `categories[label - 1] += 1`. */
  function Bump(tally: seq<int>, category: int): (t: seq<int>)
    requires |tally| == NumCategories && 1 <= category <= NumCategories
    ensures |t| == NumCategories && t[category - 1] == tally[category - 1] + 1
    ensures forall j :: 0 <= j < NumCategories && j != category - 1 ==> t[j] == tally[j]
  {
    tally[category - 1 := tally[category - 1] + 1]
  }

  /** Total of the tallies. */
  function Sum(tally: seq<int>): int
  {
    if tally == [] then 0 else tally[0] + Sum(tally[1..])
  }

  /** Classifying one article adds exactly one to the total. */
  lemma {:induction false} SumBump(tally: seq<int>, k: nat)
    requires k < |tally|
    ensures Sum(tally[k := tally[k] + 1]) == Sum(tally) + 1
  {
    if k > 0 {
      SumBump(tally[1..], k - 1);
      assert tally[k := tally[k] + 1][1..] == tally[1..][k - 1 := tally[k] + 1];
    }
  }

  /** Tallies whose every entry is at least m add up to at least m times their number. */
  lemma {:induction false} SumAtLeast(tally: seq<int>, m: int)
    requires forall j :: 0 <= j < |tally| ==> tally[j] >= m
    ensures Sum(tally) >= m * |tally|
  {
    if tally != [] {
      SumAtLeast(tally[1..], m);
    }
  }

  /** When the goal is reached at least 13 * 5 = 65 articles have been classified. */
  lemma EnoughMeansSixtyFive(tally: seq<int>)
    requires |tally| == NumCategories && Enough(tally)
    ensures Sum(tally) >= NumCategories * Threshold
  {
    SumAtLeast(tally, Threshold);
  }

  /** Tallies only grow, so once reached the goal stays reached. */
  lemma EnoughStays(tally: seq<int>, category: int)
    requires |tally| == NumCategories && 1 <= category <= NumCategories
    requires Enough(tally)
    ensures Enough(Bump(tally, category))
  {
  }
}
