/** The word pass of `highlightSyntax`: each match of `/\b\w+\b/g` is a
    maximal run of word characters; a run whose upper-case form is a dtSearch
    keyword is skipped, any other run is a noise word when the
    `highlightNoiseWords` setting is on and its lower-case form is in the
    noise set, and a search term otherwise. */
module WordClassifier {
  import opened Text

  /** The keywords the word pass skips, compared after `toUpperCase`. */
  const HighlightKeywords: set<string> :=
    {"AND", "OR", "NOT", "ANDANY", "NEAR", "WITHIN", "SENTENCE", "PARAGRAPH", "DOCUMENT",
     "XFIRSTWORD", "XLASTWORD", "DATE", "MAIL", "CREDITCARD", "CAPS", "STEM", "SOUNDEX",
     "NUMERIC", "ALPHANUMERIC", "CONTAINS", "FIELD"}

  /** The dtSearch noise words, compared after `toLowerCase`, listed in two
      halves of the alphabet. */
  const NoiseWords: set<string> := NoiseWordsAToL + NoiseWordsMToZ

  const NoiseWordsAToL: set<string> :=
    {"a", "about", "after", "all", "also", "an", "and", "another", "any", "are", "as", "at",
     "be", "because", "been", "before", "being", "between", "both", "but", "by", "came", "can",
     "come", "could", "did", "do", "each", "even", "for", "from", "further", "furthermore",
     "get", "got", "had", "has", "have", "he", "her", "here", "hi", "him", "himself", "his",
     "how", "however", "i", "if", "in", "indeed", "into", "is", "it", "its", "just", "like"}

  const NoiseWordsMToZ: set<string> :=
    {"made", "many", "me", "might", "more", "moreover", "most", "much", "must", "my", "never",
     "not", "now", "of", "on", "only", "or", "other", "our", "out", "over", "said", "same",
     "see", "she", "should", "since", "some", "still", "such", "take", "than", "that", "the",
     "their", "them", "then", "there", "therefore", "these", "they", "this", "those",
     "through", "thus", "to", "too", "under", "up", "very", "was", "way", "we", "well", "were",
     "what", "when", "where", "which", "while", "who", "will", "with", "would", "you", "your"}

  /** The whole-word tests `^W\/\d+$` and `^PRE\/\d+$`. */
  predicate IsProximityOperator(w: string) {
    || (|w| > 2 && w[..2] == "W/" && AllDigits(w[2..]))
    || (|w| > 4 && w[..4] == "PRE/" && AllDigits(w[4..]))
  }

  datatype WordKind = Keyword | NoiseWord | SearchTerm

  /** The decision taken for one matched word. */
  function Classify(word: string, highlightNoiseWords: bool): WordKind {
    var upper := UpperStr(word);
    if upper in HighlightKeywords || IsProximityOperator(upper) then Keyword
    else if highlightNoiseWords && LowerStr(word) in NoiseWords then NoiseWord
    else SearchTerm
  }

  /** A highlighted range, as offsets `[start, end)`. */
  datatype Span = Span(start: nat, end: nat)

  /** `w` is a nonempty run of word characters with no word character right
      after it. */
  predicate RunUpTo(text: string, w: Span) {
    && w.start < w.end <= |text|
    && (forall j :: w.start <= j < w.end ==> IsWordChar(text[j]))
    && (w.end == |text| || !IsWordChar(text[w.end]))
  }

  /** `w` is a maximal run: nor is there a word character right before it. */
  predicate MaximalRun(text: string, w: Span) {
    RunUpTo(text, w) && (w.start == 0 || !IsWordChar(text[w.start - 1]))
  }

  /** The matches of `/\b\w+\b/g` from offset `i` on: from a position that is
      not a word character the search moves on by one, and from a word
      character the match runs to the end of the run of word characters. Each
      match is a run that is maximal unless it starts at `i`; the matches are
      in order and apart. */
  function WordsFrom(text: string, i: nat): (r: seq<Span>)
    requires i <= |text|
    ensures forall k :: 0 <= k < |r| ==> i <= r[k].start && RunUpTo(text, r[k])
    ensures forall k :: 0 <= k < |r| && r[k].start != i ==> MaximalRun(text, r[k])
    ensures forall a, b :: 0 <= a < b < |r| ==> r[a].end < r[b].start
    decreases |text| - i
  {
    if i == |text| then []
    else if !IsWordChar(text[i]) then WordsFrom(text, i + 1)
    else
      var e := RunEnd(text, i);
      [Span(i, e)] + WordsFrom(text, e)
  }

  /** The matches over the whole text: its maximal runs of word characters,
      in order and apart. */
  function Words(text: string): (r: seq<Span>)
    ensures forall k :: 0 <= k < |r| ==> MaximalRun(text, r[k])
    ensures forall a, b :: 0 <= a < b < |r| ==> r[a].end < r[b].start
  {
    WordsFrom(text, 0)
  }

  /** Every word character from `i` on lies in one of the matches. */
  lemma {:induction false} WordsFromCover(text: string, i: nat, j: nat)
    requires i <= j < |text| && IsWordChar(text[j])
    ensures exists k :: (0 <= k < |WordsFrom(text, i)| &&
                         WordsFrom(text, i)[k].start <= j < WordsFrom(text, i)[k].end)
    decreases |text| - i
  {
    var r := WordsFrom(text, i);
    if !IsWordChar(text[i]) {
      assert r == WordsFrom(text, i + 1);
      WordsFromCover(text, i + 1, j);
    } else {
      var e := RunEnd(text, i);
      var rest := WordsFrom(text, e);
      assert r == [Span(i, e)] + rest;
      if j < e {
        assert r[0].start <= j < r[0].end;
      } else {
        WordsFromCover(text, e, j);
        var k :| 0 <= k < |rest| && rest[k].start <= j < rest[k].end;
        assert r[k + 1] == rest[k];
      }
    }
  }

  /** Every word character of the text is in some matched word. */
  lemma WordsCoverWordChars(text: string, j: nat)
    requires j < |text| && IsWordChar(text[j])
    ensures exists k :: 0 <= k < |Words(text)| && Words(text)[k].start <= j < Words(text)[k].end
  {
    assert Words(text) == WordsFrom(text, 0);
    WordsFromCover(text, 0, j);
  }

  /** The words among `ws` of kind `kind`, in order. */
  function OfKind(text: string, ws: seq<Span>, kind: WordKind, highlightNoiseWords: bool): seq<Span>
    requires forall k :: 0 <= k < |ws| ==> ws[k].start <= ws[k].end <= |text|
  {
    if ws == [] then []
    else
      var w := ws[|ws| - 1];
      OfKind(text, ws[..|ws| - 1], kind, highlightNoiseWords) +
        (if Classify(text[w.start..w.end], highlightNoiseWords) == kind then [w] else [])
  }

  /** A span is selected exactly when it is one of `ws` and its word has the
      kind asked for. */
  lemma {:induction false} OfKindMembers(text: string, ws: seq<Span>, kind: WordKind,
                                         highlightNoiseWords: bool, x: Span)
    requires forall k :: 0 <= k < |ws| ==> ws[k].start <= ws[k].end <= |text|
    ensures x in OfKind(text, ws, kind, highlightNoiseWords) <==>
      x in ws && Classify(text[x.start..x.end], highlightNoiseWords) == kind
  {
    if ws != [] {
      OfKindMembers(text, ws[..|ws| - 1], kind, highlightNoiseWords, x);
      assert ws == ws[..|ws| - 1] + [ws[|ws| - 1]];
    }
  }

  /** The `wordRegex.exec` loop over the successive matches: words that are
      not keywords go to the noise-word or the search-term ranges. */
  method HighlightWords(text: string, highlightNoiseWords: bool)
    returns (searchTermRanges: seq<Span>, noiseWordRanges: seq<Span>)
    ensures searchTermRanges == OfKind(text, Words(text), SearchTerm, highlightNoiseWords)
    ensures noiseWordRanges == OfKind(text, Words(text), NoiseWord, highlightNoiseWords)
  {
    searchTermRanges, noiseWordRanges := [], [];
    var matches := Words(text);
    for k := 0 to |matches|
      invariant searchTermRanges == OfKind(text, matches[..k], SearchTerm, highlightNoiseWords)
      invariant noiseWordRanges == OfKind(text, matches[..k], NoiseWord, highlightNoiseWords)
    {
      assert matches[..k + 1][..k] == matches[..k];
      searchTermRanges, noiseWordRanges :=
        AddMatch(text, matches[k], highlightNoiseWords, searchTermRanges, noiseWordRanges);
    }
    assert matches[..|matches|] == matches;
  }

  /** One turn of the loop: the tests on the matched word, in the order
      `highlightSyntax` makes them, file the span exactly as Classify says. */
  method AddMatch(text: string, m: Span, highlightNoiseWords: bool,
                  searchTermRanges: seq<Span>, noiseWordRanges: seq<Span>)
    returns (searchTermRanges': seq<Span>, noiseWordRanges': seq<Span>)
    requires m.start <= m.end <= |text|
    ensures var kind := Classify(text[m.start..m.end], highlightNoiseWords);
      && searchTermRanges' == searchTermRanges + (if kind == SearchTerm then [m] else [])
      && noiseWordRanges' == noiseWordRanges + (if kind == NoiseWord then [m] else [])
  {
    searchTermRanges', noiseWordRanges' := searchTermRanges, noiseWordRanges;
    var word := UpperStr(text[m.start..m.end]);
    var originalWord := LowerStr(text[m.start..m.end]);
    if !(word in HighlightKeywords) && !IsProximityOperator(word) {
      if highlightNoiseWords && originalWord in NoiseWords {
        noiseWordRanges' := noiseWordRanges + [m];
      } else {
        searchTermRanges' := searchTermRanges + [m];
      }
    }
  }

  /** A word made of word characters has no `/`, so the `W/n` and `PRE/n`
      tests of the word pass never hold for it ... */
  lemma ProximityTestNeverHolds(word: string)
    requires forall j :: 0 <= j < |word| ==> IsWordChar(word[j])
    ensures !IsProximityOperator(UpperStr(word))
  {
    var up := UpperStr(word);
    assert forall j :: 0 <= j < |up| ==> IsWordChar(up[j]);
    assert |up| > 2 ==> up[..2][1] == up[1] != '/';
    assert |up| > 4 ==> up[..4][3] == up[3] != '/';
  }

  /** ... and in particular not for any matched word: a `W/5` in a query is
      never skipped as a keyword by this pass, its `W` and its `5` are
      classified as words of their own. */
  lemma MatchedWordIsNeverProximity(text: string, k: nat)
    requires k < |Words(text)|
    ensures var w := Words(text)[k];
      !IsProximityOperator(UpperStr(text[w.start..w.end]))
  {
    var w := Words(text)[k];
    ProximityTestNeverHolds(text[w.start..w.end]);
  }

  lemma UpperLowerFold(w: string)
    ensures UpperStr(UpperStr(w)) == UpperStr(w) && LowerStr(UpperStr(w)) == LowerStr(w)
    ensures UpperStr(LowerStr(w)) == UpperStr(w) && LowerStr(LowerStr(w)) == LowerStr(w)
  {
    forall k | 0 <= k < |w|
      ensures Upper(Upper(w[k])) == Upper(w[k]) && Lower(Upper(w[k])) == Lower(w[k])
      ensures Lower(Lower(w[k])) == Lower(w[k])
    {
      CaseFold(w[k]);
    }
  }

  /** The decision does not depend on the case the word is typed in. */
  lemma ClassifyIgnoresCase(word: string, highlightNoiseWords: bool)
    ensures Classify(UpperStr(word), highlightNoiseWords) == Classify(word, highlightNoiseWords)
    ensures Classify(LowerStr(word), highlightNoiseWords) == Classify(word, highlightNoiseWords)
  {
    UpperLowerFold(word);
  }

  /** The setting only moves words between the noise-word and the search-term
      ranges: keywords stay skipped, and with the setting off there are no
      noise words. */
  lemma NoiseSettingOnlyMovesNoise(word: string)
    ensures Classify(word, false) != NoiseWord
    ensures Classify(word, true) == Keyword <==> Classify(word, false) == Keyword
    ensures Classify(word, true) == NoiseWord <==>
      Classify(word, false) == SearchTerm && LowerStr(word) in NoiseWords
  {
  }

  /** `and`, `or` and `not` are in the noise set, yet in any case they are
      skipped as keywords and never shown as noise words. */
  lemma OperatorNoiseWordsAreSkipped(word: string, highlightNoiseWords: bool)
    requires LowerStr(word) in {"and", "or", "not"}
    ensures LowerStr(word) in NoiseWords
    ensures Classify(word, highlightNoiseWords) == Keyword
  {
    UpperLowerFold(word);
    var lower := LowerStr(word);
    assert UpperStr(word) == UpperStr(lower);
    if lower == "and" {
      assert UpperStr(lower) == "AND";
    } else if lower == "or" {
      assert UpperStr(lower) == "OR";
    } else {
      assert UpperStr(lower) == "NOT";
    }
  }
}
