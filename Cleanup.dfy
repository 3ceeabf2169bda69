/** The `cleanUpQuery` command: three whole-text rewrites (operators to upper
    case, every other word not on an exception list to lower case, `'` to
    `"`), then a strict parenthesis check and a quote-parity check on the
    result. A rewrite applies to whole runs of word characters, so each one is
    written per offset, from the run the offset lies in. */
module QueryCleanup {
  import opened Text
  import opened Balance
  import WordClassifier

  /** The word operators of step 1, compared case-insensitively. */
  const OperatorWords: set<string> :=
    {"AND", "OR", "NOT", "ANDANY", "NEAR", "WITHIN", "SENTENCE", "PARAGRAPH", "DOCUMENT",
     "CAPS", "STEM", "SOUNDEX", "NUMERIC", "ALPHANUMERIC"}

  /** The words that step 2 leaves alone, compared case-insensitively. */
  const ExceptionWords: set<string> :=
    {"AND", "OR", "NOT", "ANDANY", "NEAR", "WITHIN", "SENTENCE", "PARAGRAPH", "DOCUMENT",
     "XFIRSTWORD", "XLASTWORD", "DATE", "MAIL", "CREDITCARD", "CAPS", "STEM", "SOUNDEX",
     "NUMERIC", "ALPHANUMERIC", "CONTAINS", "FIELD"}

  /** The run `text[s..e]` starts a match of `W/\d+\b` or `PRE/\d+\b`: it is
      `W` or `PRE` in any case, and is followed by `/` and a nonempty run made
      only of digits. */
  predicate ProximityAt(text: string, s: nat, e: nat)
    requires s <= e <= |text|
  {
    && (UpperStr(text[s..e]) == "W" || UpperStr(text[s..e]) == "PRE")
    && e + 1 < |text| && text[e] == '/' && IsDigit(text[e + 1])
    && AllDigits(text[e + 1..RunEnd(text, e + 1)])
  }

  /** A run that the operator pattern of step 1 matches. The alternative
      `NOT\s+W/\d+` adds nothing: `NOT` is tried first and matches alone,
      and the `W/n` after it is then matched by its own alternative. */
  predicate OperatorRun(text: string, s: nat, e: nat)
    requires s <= e <= |text|
  {
    UpperStr(text[s..e]) in OperatorWords || ProximityAt(text, s, e)
  }

  /** A run that the negative lookahead of step 2 rejects. */
  predicate ExceptionRun(text: string, s: nat, e: nat)
    requires s <= e <= |text|
  {
    UpperStr(text[s..e]) in ExceptionWords || ProximityAt(text, s, e)
  }

  /** Step 1: every match of the operator pattern is upper-cased. Only the
      letters of the leading run change; the `/` and the digits of a `W/n`
      match are their own upper case. */
  function UppercaseOperators(text: string): (r: string)
    ensures |r| == |text|
  {
    seq(|text|, k requires 0 <= k < |text| =>
      if IsWordChar(text[k]) && OperatorRun(text, RunStart(text, k), RunEnd(text, k))
      then Upper(text[k]) else text[k])
  }

  /** Step 2: every run of word characters that the lookahead does not
      reject is lower-cased. */
  function LowercaseWords(text: string): (r: string)
    ensures |r| == |text|
  {
    seq(|text|, k requires 0 <= k < |text| =>
      if IsWordChar(text[k]) && !ExceptionRun(text, RunStart(text, k), RunEnd(text, k))
      then Lower(text[k]) else text[k])
  }

  /** Step 3: every `'` becomes `"`. */
  function ReplaceSingleQuotes(text: string): (r: string)
    ensures |r| == |text|
  {
    seq(|text|, k requires 0 <= k < |text| => if text[k] == '\'' then '"' else text[k])
  }

  /** The clean-up rewrite: the three steps in order. */
  function Cleanup(text: string): string {
    ReplaceSingleQuotes(LowercaseWords(UppercaseOperators(text)))
  }

  /** Two texts of the same shape: word characters in the same places and
      equal up to case there, and `/` in the same places. */
  ghost predicate SameShape(a: string, b: string) {
    && |a| == |b|
    && (forall k :: 0 <= k < |a| ==> IsWordChar(a[k]) == IsWordChar(b[k]))
    && (forall k :: 0 <= k < |a| && IsWordChar(a[k]) ==> Upper(a[k]) == Upper(b[k]))
    && (forall k :: 0 <= k < |a| ==> (a[k] == '/' <==> b[k] == '/'))
  }

  /** A stretch of word characters reads the same up to case in two texts of
      the same shape, and is all digits in both or in neither. */
  lemma SameShapeStretch(a: string, b: string, s: nat, e: nat)
    requires SameShape(a, b) && s <= e <= |a|
    requires forall j :: s <= j < e ==> IsWordChar(a[j])
    ensures UpperStr(a[s..e]) == UpperStr(b[s..e])
    ensures AllDigits(a[s..e]) <==> AllDigits(b[s..e])
  {
    forall j | 0 <= j < e - s
      ensures IsDigit(a[s..e][j]) == IsDigit(b[s..e][j])
    {
      assert IsDigit(a[s + j]) == IsDigit(Upper(a[s + j])) == IsDigit(b[s + j]);
    }
  }

  /** Texts of the same shape have the same runs, and each run is an operator
      or an exception in both or in neither. */
  lemma SameShapeSameRuns(a: string, b: string, k: nat)
    requires SameShape(a, b) && k < |a|
    ensures RunStart(a, k) == RunStart(b, k) && RunEnd(a, k) == RunEnd(b, k)
    ensures OperatorRun(a, RunStart(a, k), RunEnd(a, k)) <==> OperatorRun(b, RunStart(b, k), RunEnd(b, k))
    ensures ExceptionRun(a, RunStart(a, k), RunEnd(a, k)) <==> ExceptionRun(b, RunStart(b, k), RunEnd(b, k))
  {
    RunsAgree(a, b, k);
    var s, e := RunStart(a, k), RunEnd(a, k);
    SameShapeStretch(a, b, s, e);
    SameShapeProximity(a, b, s, e);
  }

  /** A `W/n` or `PRE/n` in one of two texts of the same shape is one in the
      other too. */
  lemma SameShapeProximity(a: string, b: string, s: nat, e: nat)
    requires SameShape(a, b) && s <= e <= |a|
    requires UpperStr(a[s..e]) == UpperStr(b[s..e])
    ensures ProximityAt(a, s, e) <==> ProximityAt(b, s, e)
  {
    if e + 1 < |a| {
      RunsAgree(a, b, e + 1);
      SameShapeStretch(a, b, e + 1, RunEnd(a, e + 1));
      assert IsDigit(a[e + 1]) <==> IsDigit(b[e + 1]) by {
        if IsWordChar(a[e + 1]) {
          assert IsDigit(Upper(a[e + 1])) == IsDigit(Upper(b[e + 1]));
        }
      }
    }
  }

  /** Every operator of step 1 is an exception of step 2, so step 2 never
      undoes step 1. */
  lemma OperatorsAreExceptions()
    ensures OperatorWords <= ExceptionWords
  {
  }

  /** The exceptions of step 2 are exactly the keywords that the word pass of
      the highlighter skips. */
  lemma ExceptionsAreHighlightKeywords()
    ensures ExceptionWords == WordClassifier.HighlightKeywords
  {
  }

  lemma UppercaseKeepsShape(t: string)
    ensures SameShape(t, UppercaseOperators(t))
  {
    var u := UppercaseOperators(t);
    forall k | 0 <= k < |t|
      ensures IsWordChar(t[k]) ==> Upper(t[k]) == Upper(u[k])
    {
      CaseFold(t[k]);
    }
  }

  /** What the clean-up does at one offset: a `'` becomes `"`; a letter of an
      operator run is upper-cased, one of an exception run is left alone, one
      of any other run is lower-cased; nothing else changes. */
  lemma CleanupAt(t: string, k: nat)
    requires k < |t|
    ensures |Cleanup(t)| == |t|
    ensures var s, e := RunStart(t, k), RunEnd(t, k);
      Cleanup(t)[k] ==
        if t[k] == '\'' then '"'
        else if IsWordChar(t[k]) && OperatorRun(t, s, e) then Upper(t[k])
        else if IsWordChar(t[k]) && !ExceptionRun(t, s, e) then Lower(t[k])
        else t[k]
  {
    var t1 := UppercaseOperators(t);
    UppercaseKeepsShape(t);
    SameShapeSameRuns(t, t1, k);
    OperatorsAreExceptions();
  }

  /** The clean-up leaves no `'` and otherwise changes only the case of
      letters: the length is kept, `'` becomes `"`, everything else is kept
      up to case, and what is not a word character is kept as it is. */
  lemma CleanupChangesOnlyCase(t: string)
    ensures |Cleanup(t)| == |t|
    ensures forall k :: 0 <= k < |t| ==> Cleanup(t)[k] != '\''
    ensures forall k :: 0 <= k < |t| && t[k] == '\'' ==> Cleanup(t)[k] == '"'
    ensures forall k :: 0 <= k < |t| && t[k] != '\'' ==> Upper(Cleanup(t)[k]) == Upper(t[k])
    ensures forall k :: 0 <= k < |t| && t[k] != '\'' && !IsWordChar(t[k]) ==> Cleanup(t)[k] == t[k]
  {
    forall k | 0 <= k < |t|
      ensures Cleanup(t)[k] != '\''
      ensures t[k] == '\'' ==> Cleanup(t)[k] == '"'
      ensures t[k] != '\'' ==> Upper(Cleanup(t)[k]) == Upper(t[k])
      ensures t[k] != '\'' && !IsWordChar(t[k]) ==> Cleanup(t)[k] == t[k]
    {
      CleanupAt(t, k);
      CaseFold(t[k]);
    }
  }

  /** `t[s..e]` is a maximal run of word characters: one match of `\w+`. */
  ghost predicate IsRun(t: string, s: nat, e: nat) {
    && s < e <= |t|
    && (forall j :: s <= j < e ==> IsWordChar(t[j]))
    && (s == 0 || !IsWordChar(t[s - 1]))
    && (e == |t| || !IsWordChar(t[e]))
  }

  /** What the clean-up does inside one run: the whole run is upper-cased,
      kept or lower-cased together. */
  lemma CleanupInRun(t: string, s: nat, e: nat, j: nat)
    requires IsRun(t, s, e) && s <= j < e
    ensures |Cleanup(t)| == |t|
    ensures Cleanup(t)[j] ==
      if OperatorRun(t, s, e) then Upper(t[j])
      else if ExceptionRun(t, s, e) then t[j]
      else Lower(t[j])
  {
    RunOfMember(t, s, e, j);
    CleanupAt(t, j);
  }

  /** An operator word comes out in upper case. */
  lemma OperatorsUppercased(t: string, s: nat, e: nat)
    requires IsRun(t, s, e) && OperatorRun(t, s, e)
    ensures Cleanup(t)[s..e] == UpperStr(t[s..e])
  {
    var u := Cleanup(t);
    CleanupInRun(t, s, e, s);
    forall j | s <= j < e
      ensures u[j] == Upper(t[j])
    {
      CleanupInRun(t, s, e, j);
    }
    SliceIsUpper(t, u, s, e);
  }

  /** A whole `W/n` or `PRE/n` comes out in upper case, its `/` and digits
      included. */
  lemma ProximityUppercased(t: string, s: nat, e: nat)
    requires IsRun(t, s, e) && ProximityAt(t, s, e)
    ensures var f := RunEnd(t, e + 1);
      Cleanup(t)[s..f] == UpperStr(t[s..f])
  {
    var u := Cleanup(t);
    var f := RunEnd(t, e + 1);
    assert OperatorRun(t, s, e);
    forall j | s <= j < e
      ensures u[j] == Upper(t[j])
    {
      OperatorLetter(t, s, e, j);
    }
    CleanupKeepsOthers(t, e);
    DigitsAt(t, e + 1, f);
    forall j | e < j < f
      ensures u[j] == Upper(t[j])
    {
      CleanupKeepsDigit(t, j);
    }
    SliceIsUpper(t, u, s, f);
  }

  lemma OperatorLetter(t: string, s: nat, e: nat, j: nat)
    requires IsRun(t, s, e) && OperatorRun(t, s, e) && s <= j < e
    ensures |Cleanup(t)| == |t| && Cleanup(t)[j] == Upper(t[j])
  {
    CleanupInRun(t, s, e, j);
  }

  lemma CleanupKeepsDigit(t: string, j: nat)
    requires j < |t| && IsDigit(t[j])
    ensures |Cleanup(t)| == |t| && Cleanup(t)[j] == t[j]
  {
    CleanupAt(t, j);
  }

  lemma CleanupKeepsOthers(t: string, j: nat)
    requires j < |t| && !IsWordChar(t[j]) && t[j] != '\''
    ensures |Cleanup(t)| == |t| && Cleanup(t)[j] == t[j]
  {
    CleanupAt(t, j);
  }

  /** A word on the exception list is never lower-cased: it is upper-cased if
      it is also an operator, and otherwise left exactly as typed. */
  lemma ExceptionWordsNotLowercased(t: string, s: nat, e: nat)
    requires IsRun(t, s, e) && ExceptionRun(t, s, e)
    ensures Cleanup(t)[s..e] == if OperatorRun(t, s, e) then UpperStr(t[s..e]) else t[s..e]
  {
    if OperatorRun(t, s, e) {
      OperatorsUppercased(t, s, e);
    } else {
      ExceptionWordsKept(t, s, e);
    }
  }

  lemma ExceptionWordsKept(t: string, s: nat, e: nat)
    requires IsRun(t, s, e) && ExceptionRun(t, s, e) && !OperatorRun(t, s, e)
    ensures Cleanup(t)[s..e] == t[s..e]
  {
    var u := Cleanup(t);
    CleanupInRun(t, s, e, s);
    forall j | s <= j < e
      ensures u[j] == t[j]
    {
      CleanupInRun(t, s, e, j);
    }
    SliceIsSame(t, u, s, e);
  }

  /** Any other word comes out in lower case. */
  lemma OtherWordsLowercased(t: string, s: nat, e: nat)
    requires IsRun(t, s, e) && !ExceptionRun(t, s, e)
    ensures Cleanup(t)[s..e] == LowerStr(t[s..e])
  {
    var u := Cleanup(t);
    OperatorsAreExceptions();
    CleanupInRun(t, s, e, s);
    forall j | s <= j < e
      ensures u[j] == Lower(t[j])
    {
      CleanupInRun(t, s, e, j);
    }
    SliceIsLower(t, u, s, e);
  }

  lemma SliceIsUpper(t: string, u: string, s: nat, e: nat)
    requires s <= e <= |t| == |u|
    requires forall j :: s <= j < e ==> u[j] == Upper(t[j])
    ensures u[s..e] == UpperStr(t[s..e])
  {
  }

  lemma SliceIsSame(t: string, u: string, s: nat, e: nat)
    requires s <= e <= |t| == |u|
    requires forall j :: s <= j < e ==> u[j] == t[j]
    ensures u[s..e] == t[s..e]
  {
  }

  lemma SliceIsLower(t: string, u: string, s: nat, e: nat)
    requires s <= e <= |t| == |u|
    requires forall j :: s <= j < e ==> u[j] == Lower(t[j])
    ensures u[s..e] == LowerStr(t[s..e])
  {
  }

  lemma CleanupKeepsShape(t: string)
    ensures SameShape(t, Cleanup(t))
  {
    var u := Cleanup(t);
    forall k | 0 <= k < |t|
      ensures IsWordChar(u[k]) == IsWordChar(t[k])
      ensures IsWordChar(t[k]) ==> Upper(t[k]) == Upper(u[k])
      ensures t[k] == '/' <==> u[k] == '/'
    {
      CleanupAt(t, k);
      CaseFold(t[k]);
    }
  }

  /** Cleaning up a cleaned-up query changes nothing. */
  lemma CleanupIdempotent(t: string)
    ensures Cleanup(Cleanup(t)) == Cleanup(t)
  {
    var u := Cleanup(t);
    CleanupKeepsShape(t);
    forall k | 0 <= k < |u|
      ensures Cleanup(u)[k] == u[k]
    {
      CleanupAt(t, k);
      CleanupAt(u, k);
      SameShapeSameRuns(t, u, k);
      CaseFold(t[k]);
    }
  }

  /** The clean-up keeps every parenthesis where it is ... */
  lemma CleanupKeepsParens(t: string)
    ensures |Cleanup(t)| == |t|
    ensures forall k :: 0 <= k < |t| ==>
      (Cleanup(t)[k] == '(' <==> t[k] == '(') && (Cleanup(t)[k] == ')' <==> t[k] == ')')
  {
    forall k | 0 <= k < |t|
      ensures (Cleanup(t)[k] == '(' <==> t[k] == '(') && (Cleanup(t)[k] == ')' <==> t[k] == ')')
    {
      CleanupAt(t, k);
    }
  }

  /** ... so it changes neither the balance nor the nesting. */
  lemma CleanupKeepsNesting(t: string)
    ensures ParenBalance(Cleanup(t)) == ParenBalance(t)
    ensures WellNested(Cleanup(t)) <==> WellNested(t)
  {
    var u := Cleanup(t);
    CleanupKeepsParens(t);
    forall j | 0 <= j <= |t|
      ensures ParenBalance(u[..j]) == ParenBalance(t[..j])
    {
      CountSamePositions(t[..j], u[..j], '(');
      CountSamePositions(t[..j], u[..j], ')');
    }
    assert t[..|t|] == t && u[..|u|] == u;
  }

  /** After the clean-up the `"` count is the old count of `"` and `'`
      together. */
  lemma CleanupQuoteCount(t: string)
    ensures Count(Cleanup(t), '"') == Count(t, '"') + Count(t, '\'')
  {
    var u := Cleanup(t);
    forall k | 0 <= k < |t|
      ensures u[k] == '"' <==> t[k] == '"' || t[k] == '\''
    {
      CleanupAt(t, k);
    }
    CountMerge(t, u, '\'', '"');
  }

  /** The strict check after the clean-up: a stack of open parentheses, a
      stray `)` ends the scan as unbalanced, and anything left open at the
      end is unbalanced too. Balanced means properly nested. */
  method StrictBalanceCheck(text: string) returns (balanced: bool)
    ensures balanced <==> WellNested(text)
  {
    var parenStack: seq<char> := [];
    balanced := true;
    for i := 0 to |text|
      invariant |parenStack| == Depth(text[..i])
      invariant NoStrayClose(text[..i])
    {
      PrefixStep(text, i);
      NoStrayCloseStep(text[..i + 1]);
      assert text[..i + 1][..i] == text[..i];
      if text[i] == '(' {
        parenStack := parenStack + ['('];
      }
      if text[i] == ')' {
        if |parenStack| > 0 {
          parenStack := parenStack[..|parenStack| - 1];
        } else {
          balanced := false;
          StrayCloseIsNotNested(text, i);
          break;
        }
      }
    }
    if balanced {
      // the scan ran to the end: no stray `)`, so the stack height is the balance
      assert text[..|text|] == text;
      DepthIsBalanceWithoutStrayClose(text);
    }
    if |parenStack| > 0 {
      balanced := false;
    }
  }

  /** A `)` met at depth zero makes the text not properly nested. */
  lemma StrayCloseIsNotNested(text: string, i: nat)
    requires i < |text| && text[i] == ')' && Depth(text[..i]) == 0
    ensures !WellNested(text)
  {
    assert !NoStrayClose(text);
    DepthIsBalanceWithoutStrayClose(text);
  }

  /** What the command reports. */
  datatype CleanupOutcome =
    | NoTextSelected
    | Cleaned(text: string, parensBalanced: bool, quotesBalanced: bool)

  /** The `cleanUpQuery` command on the selected text: an empty selection is
      refused; otherwise the rewritten text is returned with the verdicts of
      the two checks, which hold of the selection itself: the parentheses are
      balanced exactly when the selection is properly nested, and the quotes
      exactly when it has an even number of `"` and `'` together. */
  method CleanUpQuery(selection: string) returns (outcome: CleanupOutcome)
    ensures selection == [] <==> outcome == NoTextSelected
    ensures outcome.Cleaned? ==>
      && outcome.text == Cleanup(selection)
      && (outcome.parensBalanced <==> WellNested(selection))
      && (outcome.quotesBalanced <==> (Count(selection, '"') + Count(selection, '\'')) % 2 == 0)
  {
    if selection == [] {
      return NoTextSelected;
    }
    var text := UppercaseOperators(selection);
    text := LowercaseWords(text);
    text := ReplaceSingleQuotes(text);
    var balanced := CheckCleanedParens(selection, text);
    var quotesBalanced := CheckCleanedQuotes(selection, text);
    outcome := Cleaned(text, balanced, quotesBalanced);
  }

  /** The strict check run on the cleaned text judges the selection itself:
      clean-up moves no parenthesis. */
  method CheckCleanedParens(selection: string, text: string) returns (balanced: bool)
    requires text == Cleanup(selection)
    ensures balanced <==> WellNested(text)
    ensures balanced <==> WellNested(selection)
  {
    balanced := StrictBalanceCheck(text);
    CleanupKeepsNesting(selection);
  }

  /** The even-count test on the `"`s of the cleaned text judges the `"`s and
      `'`s of the selection together. */
  method CheckCleanedQuotes(selection: string, text: string) returns (quotesBalanced: bool)
    requires text == Cleanup(selection)
    ensures quotesBalanced <==> Count(text, '"') % 2 == 0
    ensures quotesBalanced <==> (Count(selection, '"') + Count(selection, '\'')) % 2 == 0
  {
    var doubleQuotes := Count(text, '"');
    quotesBalanced := doubleQuotes % 2 == 0;
    CleanupQuoteCount(selection);
  }
}
