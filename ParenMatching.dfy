/** The parenthesis pass of `highlightSyntax`: a left-to-right scan with an
    explicit stack that pairs each `)` with the nearest open `(`, records the
    nesting level of every pair, and collects the parentheses left unmatched;
    then the colouring of pairs by level. */
module ParenMatching {
  import opened Text
  import opened Balance

  /** An entry of `parenStack`: where a `(` stands and the level it opened at. */
  datatype OpenParen = OpenParen(pos: nat, level: nat)

  /** An entry of `matchedPairs`. */
  datatype ParenPair = ParenPair(open: nat, close: nat, level: nat)

  function Opens(pairs: seq<ParenPair>): (r: seq<nat>)
    ensures |r| == |pairs| && forall k :: 0 <= k < |pairs| ==> r[k] == pairs[k].open
  {
    seq(|pairs|, k requires 0 <= k < |pairs| => pairs[k].open)
  }

  function Closes(pairs: seq<ParenPair>): (r: seq<nat>)
    ensures |r| == |pairs| && forall k :: 0 <= k < |pairs| ==> r[k] == pairs[k].close
  {
    seq(|pairs|, k requires 0 <= k < |pairs| => pairs[k].close)
  }

  function Positions(stack: seq<OpenParen>): (r: seq<nat>)
    ensures |r| == |stack| && forall k :: 0 <= k < |stack| ==> r[k] == stack[k].pos
  {
    seq(|stack|, k requires 0 <= k < |stack| => stack[k].pos)
  }

  /** How many of the offsets `ps` hold the character `c`. */
  function CountAt(text: string, ps: seq<nat>, c: char): (n: nat)
    requires forall k :: 0 <= k < |ps| ==> ps[k] < |text|
    ensures n <= |ps|
  {
    if ps == [] then 0
    else CountAt(text, ps[..|ps| - 1], c) + (if text[ps[|ps| - 1]] == c then 1 else 0)
  }

  /** Two pairs cross when one opens inside the other and closes outside it. */
  predicate Cross(p: ParenPair, q: ParenPair) {
    p.open < q.open < p.close < q.close
  }

  /** What the matcher produces for `text`. Every parenthesis ends up in
      exactly one place, the pairs are properly nested, each pair records its
      nesting depth, and the unmatched ones account for the whole signed
      balance of the text. */
  ghost predicate ParensMatched(text: string, pairs: seq<ParenPair>, unmatched: seq<nat>) {
    && EntriesOk(text, pairs, unmatched)
    && AccountedOnce(text, pairs, unmatched)
    && PairsNested(text, pairs)
    && UnmatchedStrays(text, unmatched)
  }

  /** Each pair has `(` at `open` before `)` at `close`; each unmatched offset
      holds a parenthesis. */
  ghost predicate EntriesOk(text: string, pairs: seq<ParenPair>, unmatched: seq<nat>) {
    && (forall k :: 0 <= k < |pairs| ==>
          pairs[k].open < pairs[k].close < |text| &&
          text[pairs[k].open] == '(' && text[pairs[k].close] == ')')
    && (forall k :: 0 <= k < |unmatched| ==>
          unmatched[k] < |text| && IsParen(text[unmatched[k]]))
  }

  /** Every parenthesis is in exactly one place. */
  ghost predicate AccountedOnce(text: string, pairs: seq<ParenPair>, unmatched: seq<nat>) {
    && (forall j :: 0 <= j < |text| && IsParen(text[j]) ==>
          j in unmatched || j in Opens(pairs) || j in Closes(pairs))
    && Increasing(unmatched) && Increasing(Closes(pairs))
    && (forall a, b :: 0 <= a < b < |pairs| ==> pairs[a].open != pairs[b].open)
    && (forall k :: 0 <= k < |pairs| ==>
          pairs[k].open !in unmatched && pairs[k].close !in unmatched)
  }

  /** Pairs never cross, a pair records the depth at its `(` (the depth just
      before its `)` is one more), and a pair opened inside another is deeper. */
  ghost predicate PairsNested(text: string, pairs: seq<ParenPair>)
    requires forall k :: 0 <= k < |pairs| ==> pairs[k].open < pairs[k].close < |text|
  {
    && (forall a, b :: 0 <= a < |pairs| && 0 <= b < |pairs| ==> !Cross(pairs[a], pairs[b]))
    && (forall k :: 0 <= k < |pairs| ==>
          pairs[k].level == Depth(text[..pairs[k].open]) &&
          Depth(text[..pairs[k].close]) == pairs[k].level + 1)
    && (forall a, b :: 0 <= a < |pairs| && 0 <= b < |pairs| ==>
          pairs[a].open < pairs[b].open < pairs[a].close ==> pairs[a].level < pairs[b].level)
  }

  /** A `)` is unmatched exactly when it is met at depth zero, the stray `)`s
      come before every `(` left open, the unmatched ones carry the whole
      balance, and there are none exactly when the text is properly nested. */
  ghost predicate UnmatchedStrays(text: string, unmatched: seq<nat>)
    requires forall k :: 0 <= k < |unmatched| ==> unmatched[k] < |text|
  {
    && (forall j :: 0 <= j < |text| && text[j] == ')' ==>
          (j in unmatched <==> Depth(text[..j]) == 0))
    && (forall a, b :: 0 <= a < b < |unmatched| && text[unmatched[b]] == ')' ==>
          text[unmatched[a]] == ')')
    && CountAt(text, unmatched, '(') - CountAt(text, unmatched, ')') == ParenBalance(text)
    && (unmatched == [] <==> WellNested(text))
  }

  /** The matching loop of `highlightSyntax` and the loop that then appends
      the positions still on the stack to `unmatchedParens`. */
  method MatchParens(text: string) returns (pairs: seq<ParenPair>, unmatched: seq<nat>)
    ensures ParensMatched(text, pairs, unmatched)
  {
    var stack, strays;
    stack, pairs, strays := ScanParens(text);
    // add any remaining unmatched opening parentheses
    unmatched := AppendOpenParens(text, strays, stack);
    FinishScan(text, stack, pairs, strays);
    NestedPairsDeeper(text, stack, pairs);
  }

  /** The `for` loop of the matcher: `level` follows the stack height, a `(` is
      pushed with the current level, a `)` pops its partner into a pair or, on
      an empty stack, is recorded as stray. Returns the final stack, the pairs
      and the stray `)`s. */
  method ScanParens(text: string) returns (stack: seq<OpenParen>, pairs: seq<ParenPair>, strays: seq<nat>)
    ensures ScanState(text, |text|, stack, pairs, strays)
    ensures Enclosed(text, |text|, stack, pairs)
  {
    stack, pairs, strays := [], [], [];
    var level: int := 0;
    var i := 0;
    ScanStart(text);
    while i < |text|
      invariant 0 <= i <= |text|
      invariant level == |stack|
      invariant ScanState(text, i, stack, pairs, strays)
      invariant Enclosed(text, i, stack, pairs)
    {
      stack, pairs, strays, level := ScanChar(text, i, stack, pairs, strays, level);
      i := i + 1;
    }
  }

  /** One iteration of the matching loop, on the character at `i`. */
  method ScanChar(text: string, i: nat, stack: seq<OpenParen>, pairs: seq<ParenPair>,
                  strays: seq<nat>, level: int)
    returns (stack': seq<OpenParen>, pairs': seq<ParenPair>, strays': seq<nat>, level': int)
    requires i < |text| && level == |stack|
    requires ScanState(text, i, stack, pairs, strays)
    requires Enclosed(text, i, stack, pairs)
    ensures level' == |stack'|
    ensures ScanState(text, i + 1, stack', pairs', strays')
    ensures Enclosed(text, i + 1, stack', pairs')
  {
    stack', pairs', strays', level' := stack, pairs, strays, level;
    if text[i] == '(' {
      PushStep(text, i, stack, pairs, strays);
      PushKeepsEnclosed(text, i, stack, pairs);
      stack' := stack + [OpenParen(i, level)];
      level' := level + 1;
    } else if text[i] == ')' {
      if |stack| > 0 {
        var opening := stack[|stack| - 1];
        PopStep(text, i, stack, pairs, strays);
        PopKeepsEnclosed(text, i, stack, pairs);
        stack' := stack[..|stack| - 1];
        pairs' := pairs + [ParenPair(opening.pos, i, opening.level)];
      } else {
        // unmatched closing parenthesis
        StrayStep(text, i, stack, pairs, strays);
        StrayKeepsEnclosed(text, i, pairs);
        strays' := strays + [i];
      }
      level' := if level - 1 < 0 then 0 else level - 1;
    } else {
      OtherStep(text, i, stack, pairs, strays);
      OtherKeepsEnclosed(text, i, stack, pairs);
    }
  }

  /** The `parenStack.forEach` loop: the positions still on the stack are
      appended, bottom first, after the stray `)`s. */
  method AppendOpenParens(text: string, strays: seq<nat>, stack: seq<OpenParen>)
    returns (unmatched: seq<nat>)
    requires forall k :: 0 <= k < |strays| ==> strays[k] < |text|
    requires forall k :: 0 <= k < |stack| ==> stack[k].pos < |text| && text[stack[k].pos] == '('
    ensures unmatched == strays + Positions(stack)
    ensures CountAt(text, unmatched, '(') == CountAt(text, strays, '(') + |stack|
    ensures CountAt(text, unmatched, ')') == CountAt(text, strays, ')')
  {
    unmatched := strays;
    for k := 0 to |stack|
      invariant unmatched == strays + Positions(stack[..k])
      invariant forall m :: 0 <= m < |unmatched| ==> unmatched[m] < |text|
      invariant CountAt(text, unmatched, '(') == CountAt(text, strays, '(') + k
      invariant CountAt(text, unmatched, ')') == CountAt(text, strays, ')')
    {
      CountAtSnoc(text, unmatched, stack[k].pos);
      assert Positions(stack[..k + 1]) == Positions(stack[..k]) + [stack[k].pos];
      unmatched := unmatched + [stack[k].pos];
    }
    assert stack[..|stack|] == stack;
  }

  /** Appending one offset adds its character to the count. */
  lemma CountAtSnoc(text: string, ps: seq<nat>, x: nat)
    requires forall k :: 0 <= k < |ps| ==> ps[k] < |text|
    requires x < |text|
    ensures forall c :: CountAt(text, ps + [x], c) == CountAt(text, ps, c) + (if text[x] == c then 1 else 0)
  {
    assert (ps + [x])[..|ps|] == ps;
  }

  /** The state of the matching loop after reading `text[..i]`. */
  ghost predicate ScanState(text: string, i: nat, stack: seq<OpenParen>, pairs: seq<ParenPair>,
                            strays: seq<nat>)
  {
    && i <= |text|
    && StackOk(text, i, stack)
    && PairsOk(text, i, pairs)
    && StraysOk(text, i, strays)
    && Apart(stack, pairs, strays)
    && Covered(text, i, stack, pairs, strays)
    && |stack| - |strays| == ParenBalance(text[..i])
  }

  /** The stack holds open `(`s in order, entry `k` at level `k`, and its height
      is the depth reached. */
  ghost predicate StackOk(text: string, i: nat, stack: seq<OpenParen>)
    requires i <= |text|
  {
    && Depth(text[..i]) == |stack|
    && (forall k :: 0 <= k < |stack| ==>
          stack[k].level == k && stack[k].pos < i && text[stack[k].pos] == '(' &&
          Depth(text[..stack[k].pos]) == k)
    && Increasing(Positions(stack))
  }

  ghost predicate PairsOk(text: string, i: nat, pairs: seq<ParenPair>)
    requires i <= |text|
  {
    && (forall k :: 0 <= k < |pairs| ==>
          pairs[k].open < pairs[k].close < i &&
          text[pairs[k].open] == '(' && text[pairs[k].close] == ')' &&
          pairs[k].level == Depth(text[..pairs[k].open]) &&
          Depth(text[..pairs[k].close]) == pairs[k].level + 1)
    && Increasing(Closes(pairs))
    && (forall a, b :: 0 <= a < b < |pairs| ==> pairs[a].open != pairs[b].open)
    && (forall a, b :: 0 <= a < |pairs| && 0 <= b < |pairs| ==> !Cross(pairs[a], pairs[b]))
  }

  ghost predicate StraysOk(text: string, i: nat, strays: seq<nat>)
    requires i <= |text|
  {
    && (forall k :: 0 <= k < |strays| ==>
          strays[k] < i && text[strays[k]] == ')' && Depth(text[..strays[k]]) == 0)
    && Increasing(strays)
    && CountAt(text, strays, ')') == |strays| && CountAt(text, strays, '(') == 0
  }

  /** No open `(` is the `(` of a pair or lies inside one, and every stray `)`
      comes before every open `(`. */
  ghost predicate Apart(stack: seq<OpenParen>, pairs: seq<ParenPair>, strays: seq<nat>) {
    && (forall k, m :: 0 <= k < |stack| && 0 <= m < |pairs| ==>
          stack[k].pos != pairs[m].open && !(pairs[m].open < stack[k].pos < pairs[m].close))
    && (forall k, m :: 0 <= k < |strays| && 0 <= m < |stack| ==> strays[k] < stack[m].pos)
  }

  ghost predicate Covered(text: string, i: nat, stack: seq<OpenParen>, pairs: seq<ParenPair>,
                          strays: seq<nat>)
    requires i <= |text|
  {
    forall j :: 0 <= j < i && IsParen(text[j]) ==>
      j in strays || j in Positions(stack) || j in Opens(pairs) || j in Closes(pairs)
  }

  /** The depth never falls back to the level of an open `(` before it is
      closed: it stays above the level of every entry still on the stack
      and of every pair, from just after the `(` up to the `)`. */
  ghost predicate Enclosed(text: string, i: nat, stack: seq<OpenParen>, pairs: seq<ParenPair>)
    requires i <= |text|
  {
    && (forall k, j :: 0 <= k < |stack| && stack[k].pos < j <= i ==>
          Depth(text[..j]) > stack[k].level)
    && (forall m, j :: 0 <= m < |pairs| && pairs[m].open < j <= pairs[m].close && j <= |text| ==>
          Depth(text[..j]) > pairs[m].level)
  }

  lemma PushKeepsEnclosed(text: string, i: nat, stack: seq<OpenParen>, pairs: seq<ParenPair>)
    requires i < |text| && text[i] == '('
    requires StackOk(text, i, stack) && Enclosed(text, i, stack, pairs)
    ensures Enclosed(text, i + 1, stack + [OpenParen(i, |stack|)], pairs)
  {
    PrefixStep(text, i);
  }

  lemma PopKeepsEnclosed(text: string, i: nat, stack: seq<OpenParen>, pairs: seq<ParenPair>)
    requires i < |text| && text[i] == ')' && stack != []
    requires StackOk(text, i, stack) && Enclosed(text, i, stack, pairs)
    ensures Enclosed(text, i + 1, stack[..|stack| - 1],
                     pairs + [ParenPair(stack[|stack| - 1].pos, i, stack[|stack| - 1].level)])
  {
    PrefixStep(text, i);
  }

  lemma StrayKeepsEnclosed(text: string, i: nat, pairs: seq<ParenPair>)
    requires i < |text| && Enclosed(text, i, [], pairs)
    ensures Enclosed(text, i + 1, [], pairs)
  {
  }

  lemma OtherKeepsEnclosed(text: string, i: nat, stack: seq<OpenParen>, pairs: seq<ParenPair>)
    requires i < |text| && !IsParen(text[i])
    requires StackOk(text, i, stack) && Enclosed(text, i, stack, pairs)
    ensures Enclosed(text, i + 1, stack, pairs)
  {
    PrefixStep(text, i);
  }

  /** A pair opened inside another pair is nested deeper. */
  lemma NestedPairsDeeper(text: string, stack: seq<OpenParen>, pairs: seq<ParenPair>)
    requires Enclosed(text, |text|, stack, pairs)
    requires forall k :: 0 <= k < |pairs| ==>
      pairs[k].open < pairs[k].close < |text| && pairs[k].level == Depth(text[..pairs[k].open])
    ensures forall a, b :: 0 <= a < |pairs| && 0 <= b < |pairs| ==>
      pairs[a].open < pairs[b].open < pairs[a].close ==> pairs[a].level < pairs[b].level
  {
    forall a, b | 0 <= a < |pairs| && 0 <= b < |pairs| && pairs[a].open < pairs[b].open < pairs[a].close
      ensures pairs[a].level < pairs[b].level
    {
      assert Depth(text[..pairs[b].open]) > pairs[a].level;
    }
  }

  /** Before anything is read the state is empty. */
  lemma ScanStart(text: string)
    ensures ScanState(text, 0, [], [], [])
  {
    assert text[..0] == [];
    assert Positions([]) == [] && Opens([]) == [] && Closes([]) == [];
  }

  lemma PushStep(text: string, i: nat, stack: seq<OpenParen>, pairs: seq<ParenPair>,
                 strays: seq<nat>)
    requires i < |text| && text[i] == '('
    requires ScanState(text, i, stack, pairs, strays)
    ensures ScanState(text, i + 1, stack + [OpenParen(i, |stack|)], pairs, strays)
  {
    assert text[..i + 1][..i] == text[..i];
    PushKeepsStack(text, i, stack);
    PairsGrow(text, i, pairs);
    StraysGrow(text, i, strays);
    PushKeepsCovered(text, i, stack, pairs, strays);
  }

  lemma PushKeepsStack(text: string, i: nat, stack: seq<OpenParen>)
    requires i < |text| && text[i] == '('
    requires StackOk(text, i, stack)
    ensures StackOk(text, i + 1, stack + [OpenParen(i, |stack|)])
  {
    assert text[..i + 1][..i] == text[..i];
    assert Positions(stack + [OpenParen(i, |stack|)]) == Positions(stack) + [i];
  }

  lemma PushKeepsCovered(text: string, i: nat, stack: seq<OpenParen>, pairs: seq<ParenPair>,
                         strays: seq<nat>)
    requires i < |text| && text[i] == '('
    requires Covered(text, i, stack, pairs, strays)
    ensures Covered(text, i + 1, stack + [OpenParen(i, |stack|)], pairs, strays)
  {
    assert Positions(stack + [OpenParen(i, |stack|)]) == Positions(stack) + [i];
  }

  lemma PairsGrow(text: string, i: nat, pairs: seq<ParenPair>)
    requires i < |text| && PairsOk(text, i, pairs)
    ensures PairsOk(text, i + 1, pairs)
  {
  }

  lemma PopStep(text: string, i: nat, stack: seq<OpenParen>, pairs: seq<ParenPair>,
                strays: seq<nat>)
    requires i < |text| && text[i] == ')' && stack != []
    requires ScanState(text, i, stack, pairs, strays)
    ensures ScanState(text, i + 1, stack[..|stack| - 1],
                      pairs + [ParenPair(stack[|stack| - 1].pos, i, stack[|stack| - 1].level)], strays)
  {
    assert text[..i + 1][..i] == text[..i];
    PopKeepsStack(text, i, stack);
    PopKeepsPairs(text, i, stack, pairs);
    StraysGrow(text, i, strays);
    PopKeepsApart(text, i, stack, pairs, strays);
    PopKeepsCovered(text, i, stack, pairs, strays);
  }

  lemma PopKeepsStack(text: string, i: nat, stack: seq<OpenParen>)
    requires i < |text| && text[i] == ')' && stack != []
    requires StackOk(text, i, stack)
    ensures StackOk(text, i + 1, stack[..|stack| - 1])
  {
    assert text[..i + 1][..i] == text[..i];
    assert Positions(stack[..|stack| - 1]) == Positions(stack)[..|stack| - 1];
  }

  lemma StraysGrow(text: string, i: nat, strays: seq<nat>)
    requires i < |text| && StraysOk(text, i, strays)
    ensures StraysOk(text, i + 1, strays)
  {
  }

  lemma PopKeepsApart(text: string, i: nat, stack: seq<OpenParen>, pairs: seq<ParenPair>,
                      strays: seq<nat>)
    requires i < |text| && stack != []
    requires StackOk(text, i, stack) && PairsOk(text, i, pairs)
    requires Apart(stack, pairs, strays)
    ensures Apart(stack[..|stack| - 1],
                  pairs + [ParenPair(stack[|stack| - 1].pos, i, stack[|stack| - 1].level)], strays)
  {
    var top := stack[|stack| - 1];
    assert forall k :: 0 <= k < |stack| - 1 ==> stack[k].pos < top.pos by {
      assert Positions(stack)[|stack| - 1] == top.pos;
    }
  }

  lemma PopKeepsCovered(text: string, i: nat, stack: seq<OpenParen>, pairs: seq<ParenPair>,
                        strays: seq<nat>)
    requires i < |text| && text[i] == ')' && stack != []
    requires Covered(text, i, stack, pairs, strays)
    ensures Covered(text, i + 1, stack[..|stack| - 1],
                    pairs + [ParenPair(stack[|stack| - 1].pos, i, stack[|stack| - 1].level)], strays)
  {
    var top := stack[|stack| - 1];
    var stack' := stack[..|stack| - 1];
    var pairs' := pairs + [ParenPair(top.pos, i, top.level)];
    assert Positions(stack) == Positions(stack') + [top.pos];
    assert Opens(pairs') == Opens(pairs) + [top.pos];
    assert Closes(pairs') == Closes(pairs) + [i];
  }

  lemma PopKeepsPairs(text: string, i: nat, stack: seq<OpenParen>, pairs: seq<ParenPair>)
    requires i < |text| && text[i] == ')' && stack != []
    requires StackOk(text, i, stack) && PairsOk(text, i, pairs)
    requires Apart(stack, pairs, [])
    ensures PairsOk(text, i + 1, pairs + [ParenPair(stack[|stack| - 1].pos, i, stack[|stack| - 1].level)])
  {
    assert text[..i + 1][..i] == text[..i];
    var top := stack[|stack| - 1];
    var p := ParenPair(top.pos, i, top.level);
    var pairs' := pairs + [p];
    assert Closes(pairs') == Closes(pairs) + [i];
    forall a, b | 0 <= a < |pairs'| && 0 <= b < |pairs'|
      ensures !Cross(pairs'[a], pairs'[b])
    {
      if a == |pairs| && b < |pairs| {
        assert !(pairs[b].open < top.pos < pairs[b].close);
      }
    }
  }

  lemma StrayStep(text: string, i: nat, stack: seq<OpenParen>, pairs: seq<ParenPair>,
                  strays: seq<nat>)
    requires i < |text| && text[i] == ')' && stack == []
    requires ScanState(text, i, stack, pairs, strays)
    ensures ScanState(text, i + 1, stack, pairs, strays + [i])
  {
    PrefixStep(text, i);
    PairsGrow(text, i, pairs);
    StrayJoins(text, i, strays);
    StrayKeepsCovered(text, i, pairs, strays);
  }

  lemma StrayJoins(text: string, i: nat, strays: seq<nat>)
    requires i < |text| && text[i] == ')' && Depth(text[..i]) == 0
    requires StraysOk(text, i, strays)
    ensures StraysOk(text, i + 1, strays + [i])
  {
    CountAtSnoc(text, strays, i);
  }

  lemma StrayKeepsCovered(text: string, i: nat, pairs: seq<ParenPair>, strays: seq<nat>)
    requires i < |text| && text[i] == ')'
    requires Covered(text, i, [], pairs, strays)
    ensures Covered(text, i + 1, [], pairs, strays + [i])
  {
  }

  lemma OtherStep(text: string, i: nat, stack: seq<OpenParen>, pairs: seq<ParenPair>,
                  strays: seq<nat>)
    requires i < |text| && !IsParen(text[i])
    requires ScanState(text, i, stack, pairs, strays)
    ensures ScanState(text, i + 1, stack, pairs, strays)
  {
    assert text[..i + 1][..i] == text[..i];
  }

  /** What the finished scan gives: the postcondition of MatchParens for the
      final list `strays + Positions(stack)`. */
  lemma FinishScan(text: string, stack: seq<OpenParen>, pairs: seq<ParenPair>, strays: seq<nat>)
    requires ScanState(text, |text|, stack, pairs, strays)
    ensures var unmatched := strays + Positions(stack);
      && (forall k :: 0 <= k < |unmatched| ==> unmatched[k] < |text| && IsParen(text[unmatched[k]]))
      && (forall j :: 0 <= j < |text| && IsParen(text[j]) ==>
            j in unmatched || j in Opens(pairs) || j in Closes(pairs))
      && Increasing(unmatched)
      && (forall k :: 0 <= k < |pairs| ==> pairs[k].open !in unmatched && pairs[k].close !in unmatched)
      && (forall j :: 0 <= j < |text| && text[j] == ')' ==> (j in unmatched <==> Depth(text[..j]) == 0))
      && (forall a, b :: 0 <= a < b < |unmatched| && text[unmatched[b]] == ')' ==>
            text[unmatched[a]] == ')')
      && (unmatched == [] <==> WellNested(text))
      && |stack| - |strays| == ParenBalance(text)
  {
    assert text[..|text|] == text;
    FinishOrder(text, stack, pairs, strays);
    FinishDisjoint(text, stack, pairs, strays);
    FinishStrays(text, stack, pairs, strays);
    NothingUnmatchedIffWellNested(text, strays, stack);
  }

  lemma FinishOrder(text: string, stack: seq<OpenParen>, pairs: seq<ParenPair>, strays: seq<nat>)
    requires StackOk(text, |text|, stack) && StraysOk(text, |text|, strays)
    requires Apart(stack, pairs, strays)
    ensures var unmatched := strays + Positions(stack);
      && (forall k :: 0 <= k < |unmatched| ==> unmatched[k] < |text| && IsParen(text[unmatched[k]]))
      && Increasing(unmatched)
      && (forall a, b :: 0 <= a < b < |unmatched| && text[unmatched[b]] == ')' ==>
            text[unmatched[a]] == ')')
  {
    var unmatched := strays + Positions(stack);
    forall a, b | 0 <= a < b < |unmatched| ensures unmatched[a] < unmatched[b] {
      if a < |strays| && b >= |strays| {
        assert unmatched[b] == stack[b - |strays|].pos;
      }
    }
  }

  lemma FinishDisjoint(text: string, stack: seq<OpenParen>, pairs: seq<ParenPair>, strays: seq<nat>)
    requires ScanState(text, |text|, stack, pairs, strays)
    ensures var unmatched := strays + Positions(stack);
      && (forall j :: 0 <= j < |text| && IsParen(text[j]) ==>
            j in unmatched || j in Opens(pairs) || j in Closes(pairs))
      && (forall k :: 0 <= k < |pairs| ==> pairs[k].open !in unmatched && pairs[k].close !in unmatched)
  {
    forall k | 0 <= k < |pairs|
      ensures pairs[k].open !in strays + Positions(stack)
      ensures pairs[k].close !in strays + Positions(stack)
    {
      assert forall m :: 0 <= m < |strays| ==> strays[m] != pairs[k].close && strays[m] != pairs[k].open;
      assert forall m :: 0 <= m < |stack| ==> stack[m].pos != pairs[k].close && stack[m].pos != pairs[k].open;
    }
  }

  lemma FinishStrays(text: string, stack: seq<OpenParen>, pairs: seq<ParenPair>, strays: seq<nat>)
    requires ScanState(text, |text|, stack, pairs, strays)
    ensures forall j :: 0 <= j < |text| && text[j] == ')' ==>
      (j in strays + Positions(stack) <==> Depth(text[..j]) == 0)
  {
    forall j | 0 <= j < |text| && text[j] == ')'
      ensures j in strays + Positions(stack) <==> Depth(text[..j]) == 0
    {
      assert forall m :: 0 <= m < |stack| ==> stack[m].pos != j;
      assert forall m :: 0 <= m < |pairs| ==> pairs[m].open != j;
      if Depth(text[..j]) == 0 {
        assert forall m :: 0 <= m < |pairs| ==> pairs[m].close != j;
        assert j in strays;
      }
    }
  }

  /** Nothing is left unmatched exactly when there were no stray `)` and the
      stack ended empty, which is exactly proper nesting. */
  lemma NothingUnmatchedIffWellNested(text: string, strays: seq<nat>, stack: seq<OpenParen>)
    requires |stack| == Depth(text)
    requires forall k :: 0 <= k < |strays| ==>
      strays[k] < |text| && text[strays[k]] == ')' && Depth(text[..strays[k]]) == 0
    requires forall j :: 0 <= j < |text| && text[j] == ')' ==>
      (j in strays + Positions(stack) <==> Depth(text[..j]) == 0)
    ensures strays + Positions(stack) == [] <==> WellNested(text)
  {
    DepthIsBalanceWithoutStrayClose(text);
    if strays != [] {
      assert strays[0] in strays + Positions(stack);
      assert !NoStrayClose(text);
    }
  }

  // ---------------------------------------------------------------------
  // Colouring

  /** Six pair colours (`colors` in `initializeDecorations`). */
  const ParenColors: nat := 6

  /** `parenDecorationTypes`: one type per colour plus the red type for
      unmatched parentheses, pushed last. */
  const ParenDecorationTypes: nat := ParenColors + 1

  /** `numColors`: every decoration type except the last, reserved one. */
  const NumColors: nat := ParenDecorationTypes - 1

  /** `unmatchedIndex`: the last decoration type. */
  const UnmatchedIndex: nat := ParenDecorationTypes - 1

  /** The colour of a matched pair, `level % numColors`. It is a valid colour
      and never the slot reserved for unmatched parentheses. */
  function ColorIndex(level: nat): (c: nat)
    ensures c < NumColors && c != UnmatchedIndex
    ensures c < ParenDecorationTypes
  {
    level % NumColors
  }

  /** A pair and the pair nested directly inside it never share a colour. */
  lemma NestedPairsDiffer(level: nat)
    ensures ColorIndex(level) != ColorIndex(level + 1)
  {
  }

  /** The offsets that the pair loop puts into colour slot `c`, `(` then `)`,
      pair after pair. */
  function ColorBucket(pairs: seq<ParenPair>, c: nat): seq<nat> {
    if pairs == [] then []
    else
      var last := pairs[|pairs| - 1];
      ColorBucket(pairs[..|pairs| - 1], c) +
        (if ColorIndex(last.level) == c then [last.open, last.close] else [])
  }

  /** An offset is in colour slot `c` exactly when it is an end of a pair of
      colour `c`. */
  lemma {:induction false} ColorBucketMembers(pairs: seq<ParenPair>, c: nat, x: nat)
    ensures x in ColorBucket(pairs, c) <==>
      exists k :: 0 <= k < |pairs| && ColorIndex(pairs[k].level) == c &&
                  (pairs[k].open == x || pairs[k].close == x)
    decreases |pairs|
  {
    if pairs != [] {
      var init := pairs[..|pairs| - 1];
      ColorBucketMembers(init, c, x);
      if exists k :: 0 <= k < |init| && ColorIndex(init[k].level) == c &&
                     (init[k].open == x || init[k].close == x) {
        var k :| 0 <= k < |init| && ColorIndex(init[k].level) == c &&
                 (init[k].open == x || init[k].close == x);
        assert pairs[k] == init[k];
      }
      if exists k :: 0 <= k < |pairs| && ColorIndex(pairs[k].level) == c &&
                     (pairs[k].open == x || pairs[k].close == x) {
        var k :| 0 <= k < |pairs| && ColorIndex(pairs[k].level) == c &&
                 (pairs[k].open == x || pairs[k].close == x);
        if k < |init| {
          assert init[k] == pairs[k];
        }
      }
    }
  }

  /** The two colouring loops of `highlightSyntax`: each matched pair puts its
      `(` and `)` into the slot of its level's colour; when `showBalanceErrors`
      is set, the unmatched parentheses go into the reserved last slot. */
  method ColorParens(pairs: seq<ParenPair>, unmatched: seq<nat>, showBalanceErrors: bool)
    returns (parenRanges: seq<seq<nat>>)
    ensures |parenRanges| == ParenDecorationTypes
    ensures forall c :: 0 <= c < NumColors ==> parenRanges[c] == ColorBucket(pairs, c)
    ensures parenRanges[UnmatchedIndex] == if showBalanceErrors then unmatched else []
  {
    parenRanges := seq(ParenDecorationTypes, _ => []);
    for k := 0 to |pairs|
      invariant |parenRanges| == ParenDecorationTypes
      invariant forall c :: 0 <= c < NumColors ==> parenRanges[c] == ColorBucket(pairs[..k], c)
      invariant parenRanges[UnmatchedIndex] == []
    {
      var pair := pairs[k];
      var colorIndex := ColorIndex(pair.level);
      assert pairs[..k + 1][..k] == pairs[..k];
      parenRanges := parenRanges[colorIndex := parenRanges[colorIndex] + [pair.open]];
      parenRanges := parenRanges[colorIndex := parenRanges[colorIndex] + [pair.close]];
    }
    assert pairs[..|pairs|] == pairs;
    if showBalanceErrors {
      for k := 0 to |unmatched|
        invariant |parenRanges| == ParenDecorationTypes
        invariant forall c :: 0 <= c < NumColors ==> parenRanges[c] == ColorBucket(pairs, c)
        invariant parenRanges[UnmatchedIndex] == unmatched[..k]
      {
        assert unmatched[..k + 1] == unmatched[..k] + [unmatched[k]];
        parenRanges := parenRanges[UnmatchedIndex := parenRanges[UnmatchedIndex] + [unmatched[k]]];
      }
      assert unmatched[..|unmatched|] == unmatched;
    }
  }

  /** Offset `x` is a parenthesis whose colour is `c` by the depth of its
      pair: the depth before a `(`, one less than the depth before a `)`. */
  ghost predicate ColoredAtDepth(text: string, c: nat, x: nat) {
    && x < |text| && IsParen(text[x])
    && (text[x] == '(' ==> ColorIndex(Depth(text[..x])) == c)
    && (text[x] == ')' ==> Depth(text[..x]) > 0 && ColorIndex(Depth(text[..x]) - 1) == c)
  }

  /** The parenthesis part of `highlightSyntax`, matching then colouring.
      `pairs` and `unmatched` are the function's `matchedPairs` and
      `unmatchedParens`. Every matched pair is coloured by its level whatever
      the setting, and the reserved slot holds the unmatched parentheses when
      `showBalanceErrors` is set and nothing otherwise. So each coloured offset
      is a parenthesis of a matched pair, coloured by the depth at its `(`;
      with the setting every parenthesis gets some slot; a properly nested
      text has nothing in the reserved slot. */
  method HighlightParens(text: string, showBalanceErrors: bool)
    returns (parenRanges: seq<seq<nat>>, ghost pairs: seq<ParenPair>, ghost unmatched: seq<nat>)
    ensures ParensMatched(text, pairs, unmatched)
    ensures |parenRanges| == ParenDecorationTypes
    ensures forall c :: 0 <= c < NumColors ==> parenRanges[c] == ColorBucket(pairs, c)
    ensures parenRanges[UnmatchedIndex] == if showBalanceErrors then unmatched else []
    ensures SlotsShow(text, parenRanges, unmatched, showBalanceErrors)
  {
    var matchedPairs, unmatchedParens := MatchParens(text);
    pairs, unmatched := matchedPairs, unmatchedParens;
    parenRanges := ColorParens(matchedPairs, unmatchedParens, showBalanceErrors);
    SlotsOfMatching(text, pairs, unmatched, parenRanges, showBalanceErrors);
  }

  /** What the slots say about the text: each offset in a colour slot is a
      parenthesis of a matched pair, coloured by its depth and not unmatched;
      the reserved slot holds only parentheses, and only with
      `showBalanceErrors`; with that setting every parenthesis gets some slot;
      a properly nested text has nothing in the reserved slot. */
  ghost predicate SlotsShow(text: string, parenRanges: seq<seq<nat>>, unmatched: seq<nat>,
                            showBalanceErrors: bool)
    requires |parenRanges| == ParenDecorationTypes
  {
    && ColorSlotsOk(text, parenRanges, unmatched)
    && (forall x :: x in parenRanges[UnmatchedIndex] ==>
          showBalanceErrors && x < |text| && IsParen(text[x]))
    && (showBalanceErrors ==> AllSlotted(text, parenRanges))
    && (WellNested(text) ==> parenRanges[UnmatchedIndex] == [])
  }

  /** Each offset in a colour slot is a parenthesis coloured by its depth,
      neither unmatched nor in the reserved slot. */
  ghost predicate ColorSlotsOk(text: string, parenRanges: seq<seq<nat>>, unmatched: seq<nat>)
    requires |parenRanges| == ParenDecorationTypes
  {
    forall c, x :: 0 <= c < NumColors && x in parenRanges[c] ==>
      ColoredAtDepth(text, c, x) && x !in unmatched && x !in parenRanges[UnmatchedIndex]
  }

  /** Every parenthesis is in some slot. */
  ghost predicate AllSlotted(text: string, parenRanges: seq<seq<nat>>)
    requires |parenRanges| == ParenDecorationTypes
  {
    forall j :: 0 <= j < |text| && IsParen(text[j]) ==>
      exists c :: 0 <= c < ParenDecorationTypes && j in parenRanges[c]
  }

  /** What the slots filled from a matching say about the text. */
  lemma SlotsOfMatching(text: string, pairs: seq<ParenPair>, unmatched: seq<nat>,
                        parenRanges: seq<seq<nat>>, showBalanceErrors: bool)
    requires EntriesOk(text, pairs, unmatched) && AccountedOnce(text, pairs, unmatched)
    requires PairsNested(text, pairs)
    requires unmatched == [] <==> WellNested(text)
    requires |parenRanges| == ParenDecorationTypes
    requires forall c :: 0 <= c < NumColors ==> parenRanges[c] == ColorBucket(pairs, c)
    requires parenRanges[UnmatchedIndex] == if showBalanceErrors then unmatched else []
    ensures SlotsShow(text, parenRanges, unmatched, showBalanceErrors)
  {
    ColoredSlots(text, pairs, unmatched, parenRanges, showBalanceErrors);
    EveryParenSlotted(text, pairs, unmatched, parenRanges, showBalanceErrors);
  }

  /** With `showBalanceErrors`, every parenthesis lands in some slot. */
  lemma EveryParenSlotted(text: string, pairs: seq<ParenPair>, unmatched: seq<nat>,
                          parenRanges: seq<seq<nat>>, showBalanceErrors: bool)
    requires forall j :: 0 <= j < |text| && IsParen(text[j]) ==>
      j in unmatched || j in Opens(pairs) || j in Closes(pairs)
    requires |parenRanges| == ParenDecorationTypes
    requires forall c :: 0 <= c < NumColors ==> parenRanges[c] == ColorBucket(pairs, c)
    requires parenRanges[UnmatchedIndex] == if showBalanceErrors then unmatched else []
    ensures showBalanceErrors ==> AllSlotted(text, parenRanges)
  {
    if showBalanceErrors {
      forall j | 0 <= j < |text| && IsParen(text[j])
        ensures exists c :: 0 <= c < ParenDecorationTypes && j in parenRanges[c]
      {
        if j in unmatched {
          assert j in parenRanges[UnmatchedIndex];
        } else {
          var c := SlotOfMatched(text, pairs, unmatched, j);
          assert j in parenRanges[c];
        }
      }
    }
  }

  /** Every offset in a colour slot is a matched parenthesis coloured by the
      depth of its pair. */
  lemma ColoredSlots(text: string, pairs: seq<ParenPair>, unmatched: seq<nat>,
                     parenRanges: seq<seq<nat>>, showBalanceErrors: bool)
    requires forall k :: 0 <= k < |pairs| ==>
      pairs[k].open < pairs[k].close < |text| &&
      text[pairs[k].open] == '(' && text[pairs[k].close] == ')'
    requires forall k :: 0 <= k < |pairs| ==>
      pairs[k].open !in unmatched && pairs[k].close !in unmatched
    requires forall k :: 0 <= k < |pairs| ==>
      pairs[k].level == Depth(text[..pairs[k].open]) &&
      Depth(text[..pairs[k].close]) == pairs[k].level + 1
    requires |parenRanges| == ParenDecorationTypes
    requires forall c :: 0 <= c < NumColors ==> parenRanges[c] == ColorBucket(pairs, c)
    requires parenRanges[UnmatchedIndex] == if showBalanceErrors then unmatched else []
    ensures ColorSlotsOk(text, parenRanges, unmatched)
  {
    forall c, x | 0 <= c < NumColors && x in parenRanges[c]
      ensures ColoredAtDepth(text, c, x) && x !in unmatched && x !in parenRanges[UnmatchedIndex]
    {
      ColoredOffset(text, pairs, unmatched, c, x);
    }
  }

  /** A parenthesis in colour slot `c` belongs to a pair of colour `c`. */
  lemma ColoredOffset(text: string, pairs: seq<ParenPair>, unmatched: seq<nat>, c: nat, x: nat)
    requires forall k :: 0 <= k < |pairs| ==>
      pairs[k].open < pairs[k].close < |text| &&
      text[pairs[k].open] == '(' && text[pairs[k].close] == ')'
    requires forall k :: 0 <= k < |pairs| ==>
      pairs[k].open !in unmatched && pairs[k].close !in unmatched
    requires forall k :: 0 <= k < |pairs| ==>
      pairs[k].level == Depth(text[..pairs[k].open]) &&
      Depth(text[..pairs[k].close]) == pairs[k].level + 1
    requires x in ColorBucket(pairs, c)
    ensures ColoredAtDepth(text, c, x) && x !in unmatched
  {
    ColorBucketMembers(pairs, c, x);
    var k :| 0 <= k < |pairs| && ColorIndex(pairs[k].level) == c &&
             (pairs[k].open == x || pairs[k].close == x);
  }

  /** A parenthesis that is not unmatched lies in the colour slot of its pair. */
  lemma SlotOfMatched(text: string, pairs: seq<ParenPair>, unmatched: seq<nat>, j: nat)
    returns (c: nat)
    requires forall j :: 0 <= j < |text| && IsParen(text[j]) ==>
      j in unmatched || j in Opens(pairs) || j in Closes(pairs)
    requires j < |text| && IsParen(text[j]) && j !in unmatched
    ensures c < NumColors && j in ColorBucket(pairs, c)
  {
    var k :| 0 <= k < |pairs| && (pairs[k].open == j || pairs[k].close == j);
    c := ColorIndex(pairs[k].level);
    ColorBucketMembers(pairs, c, j);
  }
}
