/** The quote pass of `highlightSyntax`: the offsets of every `"` are
    collected, and if there is an odd number of them the last one is taken to
    be the unmatched one. */
module QuotePairing {
  import opened Text
  import opened Balance

  /** The loop that collects `quotePositions`. */
  method QuotePositions(text: string) returns (positions: seq<nat>)
    ensures Increasing(positions)
    ensures forall k :: 0 <= k < |positions| ==> positions[k] < |text| && text[positions[k]] == '"'
    ensures forall j :: 0 <= j < |text| && text[j] == '"' ==> j in positions
    ensures |positions| == Count(text, '"')
  {
    positions := [];
    for i := 0 to |text|
      invariant Increasing(positions)
      invariant forall k :: 0 <= k < |positions| ==> positions[k] < i && text[positions[k]] == '"'
      invariant forall j :: 0 <= j < i && text[j] == '"' ==> j in positions
      invariant |positions| == Count(text[..i], '"')
    {
      assert text[..i + 1][..i] == text[..i];
      if text[i] == '"' {
        positions := positions + [i];
      }
    }
    assert text[..|text|] == text;
  }

  /** The loop that sorts the quotes into `quoteRanges` and
      `unmatchedQuoteRanges`. The matched quotes are the longest prefix of
      even length, so they can be read as consecutive pairs; the one quote
      beyond it, if any, is reported only when `showBalanceErrors` is set. */
  method PairQuotes(positions: seq<nat>, showBalanceErrors: bool)
    returns (matched: seq<nat>, unmatched: seq<nat>)
    ensures |matched| % 2 == 0
    ensures |matched| <= |positions| && matched == positions[..|matched|]
    ensures |positions| - |matched| <= 1
    ensures unmatched == if showBalanceErrors then positions[|matched|..] else []
  {
    matched, unmatched := [], [];
    for i := 0 to |positions|
      invariant |positions| % 2 == 0 ==> matched == positions[..i] && unmatched == []
      invariant |positions| % 2 == 1 && i < |positions| ==> matched == positions[..i] && unmatched == []
      invariant |positions| % 2 == 1 && i == |positions| ==>
        matched == positions[..i - 1] && unmatched == if showBalanceErrors then [positions[i - 1]] else []
    {
      var pos := positions[i];
      if |positions| % 2 == 0 {
        matched := matched + [pos];
      } else {
        if i == |positions| - 1 {
          if showBalanceErrors {
            unmatched := unmatched + [pos];
          }
        } else {
          matched := matched + [pos];
        }
      }
    }
  }

  /** The whole quote pass on a text: every highlighted quote is a `"`, an
      even number of them are shown as matched, all but `getQuoteBalance`
      of them are matched, and the unmatched one, shown exactly when
      `showBalanceErrors` is set and the quote count is odd, is the last `"`
      of the text. */
  method HighlightQuotes(text: string, showBalanceErrors: bool)
    returns (quoteRanges: seq<nat>, unmatchedQuoteRanges: seq<nat>)
    ensures Increasing(quoteRanges)
    ensures forall x :: x in quoteRanges ==> x < |text| && text[x] == '"'
    ensures |quoteRanges| % 2 == 0
    ensures |quoteRanges| == Count(text, '"') - QuoteBalance(text)
    ensures |unmatchedQuoteRanges| <= 1
    ensures unmatchedQuoteRanges != [] <==> showBalanceErrors && QuoteBalance(text) == 1
    ensures forall x :: x in unmatchedQuoteRanges ==>
      x < |text| && text[x] == '"' && x !in quoteRanges &&
      forall j :: x < j < |text| ==> text[j] != '"'
    ensures forall j :: 0 <= j < |text| && text[j] == '"' ==>
      (j in quoteRanges <==> QuoteBalance(text) == 0 || exists j' :: j < j' < |text| && text[j'] == '"')
  {
    var positions := QuotePositions(text);
    quoteRanges, unmatchedQuoteRanges := PairQuotes(positions, showBalanceErrors);
    assert |quoteRanges| == |positions| - |positions| % 2;
    forall j | 0 <= j < |text| && text[j] == '"'
      ensures j in quoteRanges <==>
        QuoteBalance(text) == 0 || exists j' :: j < j' < |text| && text[j'] == '"'
    {
      MatchedUnlessLast(text, positions, quoteRanges, j);
    }
    if unmatchedQuoteRanges != [] {
      var last := |positions| - 1;
      assert last == |quoteRanges|;
      assert unmatchedQuoteRanges == [positions[last]];
    }
  }

  /** A `"` is among the matched quotes exactly when the count is even or
      another `"` follows it. */
  lemma MatchedUnlessLast(text: string, positions: seq<nat>, matched: seq<nat>, j: nat)
    requires Increasing(positions)
    requires forall k :: 0 <= k < |positions| ==> positions[k] < |text| && text[positions[k]] == '"'
    requires forall j :: 0 <= j < |text| && text[j] == '"' ==> j in positions
    requires |positions| == Count(text, '"')
    requires matched == positions[..|positions| - |positions| % 2]
    requires j < |text| && text[j] == '"'
    ensures j in matched <==>
      QuoteBalance(text) == 0 || exists j' :: j < j' < |text| && text[j'] == '"'
  {
    var p :| 0 <= p < |positions| && positions[p] == j;
    if p + 1 < |positions| {
      // a later `"` exists, and `j` is within the matched prefix
      assert positions[p + 1] > j && text[positions[p + 1]] == '"';
      assert matched[p] == j;
    } else {
      // `j` is the last `"`
      assert forall m :: 0 <= m < |positions| ==> positions[m] <= j;
      if |positions| % 2 == 0 {
        assert matched[p] == j;
      } else {
        assert j !in matched by {
          assert forall m :: 0 <= m < |matched| ==> matched[m] == positions[m] < j;
        }
      }
    }
  }
}
