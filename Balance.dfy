/** The status-bar balance counters (`getParenthesesBalance`,
    `getQuoteBalance`, `updateStatusBar`) and the two reference notions of
    parenthesis structure that the rest of the model is measured against:
    the naive signed balance and the clamped nesting depth. */
module Balance {
  import opened Text

  /** Signed balance: opening minus closing parentheses. */
  function ParenBalance(s: string): int {
    Count(s, '(') - Count(s, ')')
  }

  /** Properly nested: no prefix closes more than it opened, and the whole
      text closes everything it opened. */
  ghost predicate WellNested(s: string) {
    PrefixesNonNegative(s) && ParenBalance(s) == 0
  }

  /** Nesting depth reached after reading `s` when a stray `)` is ignored
      (the depth never goes below zero). */
  function Depth(s: string): nat {
    if s == [] then 0
    else
      var d := Depth(s[..|s| - 1]);
      var c := s[|s| - 1];
      if c == '(' then d + 1
      else if c == ')' then (if d == 0 then 0 else d - 1)
      else d
  }

  /** `getParenthesesBalance`: one pass over the text, `+1` per `(` and `-1`
      per `)`. */
  method GetParenthesesBalance(text: string) returns (balance: int)
    ensures balance == ParenBalance(text)
  {
    balance := 0;
    var i := 0;
    while i < |text|
      invariant 0 <= i <= |text|
      invariant balance == ParenBalance(text[..i])
    {
      assert text[..i + 1][..i] == text[..i];
      if text[i] == '(' {
        balance := balance + 1;
      }
      if text[i] == ')' {
        balance := balance - 1;
      }
      i := i + 1;
    }
    assert text[..i] == text;
  }

  /** `getQuoteBalance`: the parity of the number of `"` characters. */
  function QuoteBalance(text: string): (r: nat)
    ensures r == 0 || r == 1
    ensures r == 0 <==> Count(text, '"') % 2 == 0
  {
    Count(text, '"') % 2
  }

  /** The warning sign of `updateStatusBar`: shown when either counter is
      nonzero. The editor, the highlighting flag and the tooltip text are not
      part of the model. */
  method StatusWarning(text: string) returns (warn: bool)
    ensures warn <==> Count(text, '(') != Count(text, ')') || Count(text, '"') % 2 == 1
  {
    var parenBalance := GetParenthesesBalance(text);
    var quoteBalance := QuoteBalance(text);
    warn := parenBalance != 0 || quoteBalance != 0;
  }

  /** Balance is additive: the balance of a text is the sum over its parts. */
  lemma ParenBalanceAppend(a: string, b: string)
    ensures ParenBalance(a + b) == ParenBalance(a) + ParenBalance(b)
  {
    CountAppend(a, b, '(');
    CountAppend(a, b, ')');
  }

  /** Reading one more character moves the balance and the depth by one step. */
  lemma PrefixStep(text: string, i: nat)
    requires i < |text|
    ensures ParenBalance(text[..i + 1]) == ParenBalance(text[..i]) +
      (if text[i] == '(' then 1 else if text[i] == ')' then -1 else 0)
    ensures Depth(text[..i + 1]) ==
      if text[i] == '(' then Depth(text[..i]) + 1
      else if text[i] == ')' then (if Depth(text[..i]) == 0 then 0 else Depth(text[..i]) - 1)
      else Depth(text[..i])
  {
    assert text[..i + 1][..i] == text[..i];
  }

  /** No `)` is met at depth zero. */
  ghost predicate NoStrayClose(s: string) {
    forall j :: 0 <= j < |s| && s[j] == ')' ==> Depth(s[..j]) > 0
  }

  /** No prefix has a negative balance. */
  ghost predicate PrefixesNonNegative(s: string) {
    forall k :: 0 <= k <= |s| ==> ParenBalance(s[..k]) >= 0
  }

  lemma NoStrayCloseStep(s: string)
    requires s != []
    ensures NoStrayClose(s) <==>
      NoStrayClose(s[..|s| - 1]) && (s[|s| - 1] == ')' ==> Depth(s[..|s| - 1]) > 0)
  {
    var t := s[..|s| - 1];
    assert forall j :: 0 <= j < |t| ==> s[..j] == t[..j];
  }

  lemma PrefixesNonNegativeStep(s: string)
    requires s != []
    ensures PrefixesNonNegative(s) <==>
      PrefixesNonNegative(s[..|s| - 1]) && ParenBalance(s) >= 0
  {
    var t := s[..|s| - 1];
    assert forall k :: 0 <= k <= |t| ==> s[..k] == t[..k];
    assert s[..|s|] == s;
  }

  /** No stray `)` exactly when no prefix has a negative balance; and then the
      clamped depth is the plain balance. */
  lemma {:induction false} DepthIsBalanceWithoutStrayClose(s: string)
    ensures NoStrayClose(s) <==> PrefixesNonNegative(s)
    ensures PrefixesNonNegative(s) ==> Depth(s) == ParenBalance(s)
    decreases |s|
  {
    if s == [] {
      assert s[..0] == s;
    } else {
      DepthIsBalanceWithoutStrayClose(s[..|s| - 1]);
      NoStrayCloseStep(s);
      PrefixesNonNegativeStep(s);
    }
  }

  /** A properly nested text has balance zero, so it never shows the warning
      for parentheses ... */
  lemma WellNestedHasZeroBalance(s: string)
    requires WellNested(s)
    ensures ParenBalance(s) == 0 && Depth(s) == 0
  {
    DepthIsBalanceWithoutStrayClose(s);
  }

  /** ... but zero balance does not make a text properly nested: `)(` has
      balance zero and is not. */
  lemma ZeroBalanceIsNotNesting()
    ensures ParenBalance(")(") == 0 && !WellNested(")(")
  {
    var s := ")(";
    assert s[..1] == ")";
    assert s[..1][..0] == [];
    assert ParenBalance(s[..1]) == -1;
  }
}
