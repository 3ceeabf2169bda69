# dtSearch syntax helper: the query-analysis core

This is a model of the string logic inside the dtSearch syntax helper, a VS Code
extension for dtSearch boolean and proximity queries. The model
works on a query as a `string` (`seq<char>`), with offsets as plain `nat`s and the
editor settings (`showBalanceErrors`, `highlightNoiseWords`) as boolean parameters.
It covers:

- **Status-bar counters** (`Balance`). `getParenthesesBalance` is the signed count
  of `(` minus `)`. `getQuoteBalance` is the parity of the `"` count. The warning
  sign is shown when either is nonzero. Two reference notions of structure are
  defined beside them:
  - the nesting depth, which ignores a stray `)`;
  - proper nesting (`WellNested`), where no prefix closes more than it opened
    and the totals agree.
- **Parenthesis matcher and colouring** (`ParenMatching`). This is the
  stack-and-`level` loop of `highlightSyntax`.
  - It proves that `level` equals the stack height.
  - Every parenthesis ends up exactly once in a pair or in the unmatched list.
  - Pairs never cross, and each pair records its nesting depth.
  - The unmatched parentheses carry the whole signed balance.
  - Nothing is unmatched exactly when the text is properly nested.
  - A pair's colour `level % numColors` never takes the reserved last slot. That
    slot holds only unmatched parentheses, and only when `showBalanceErrors` is
    set.
- **Quote pairing** (`QuotePairing`). The loop collects the offsets of `"`. With
  an odd count only the last quote is unmatched, and it is shown only when
  `showBalanceErrors` is set.
- **Word classifier** (`WordClassifier`).
  - The matches of `/\b\w+\b/g` are modelled as the maximal runs of `[A-Za-z0-9_]`,
    left to right; they cover every word character.
  - A word whose upper-case form is a keyword is skipped.
  - Otherwise the word is a noise word when `highlightNoiseWords` is on and its
    lower-case form is in the noise set. Otherwise it is a search term.
- **Clean-up command** (`QueryCleanup`). It applies three whole-text rewrites:
  1. operators to upper case, `W/n` and `PRE/n` included;
  2. every other word not on the exception list to lower case;
  3. `'` to `"`.

  Then a strict stack check with an early exit on a stray `)`, and a parity check
  on `"`. Proved:
  - the rewrite changes only letter case and `'`;
  - it is idempotent;
  - it moves no parenthesis;
  - the two verdicts judge the selection itself: proper nesting, and an even
    number of `"` and `'` together.

The regular expressions are written as explicit word runs (`Text.RunStart`,
`Text.RunEnd`). `\b<word>\b` with the `i` flag becomes "the run, upper-cased, is
that word". `W\/\d+\b` becomes "the run is `W` and is followed by `/` and a
nonempty run made only of digits". Case mapping is the ASCII one. Every text the
program changes the case of is made of ASCII word characters, `/` and whitespace,
so the ASCII mapping gives the same result there.

Notes on how the program behaves:

- **Quote balance is global.** `getQuoteBalance` counts `"` over the whole text.
- **The `NOT\s+W/\d+` alternative of the operator pattern adds nothing.** The `NOT`
  alternative is tried first and matches on its own. The `W/n` after it is then
  upper-cased by its own alternative. `QueryCleanup.OperatorRun` therefore has no
  case for it.
- **The word pass never skips `W/n` or `PRE/n` as a keyword.** A `\w+` match
  contains no `/`, so the `^W\/\d+$` and `^PRE\/\d+$` tests never hold
  (`WordClassifier.MatchedWordIsNeverProximity`). In `W/5`, the `W` and the `5`
  are classified as words of their own. This is how the code behaves and the
  model keeps it.

## Model

| member | source | states |
|---|---|---|
| Balance.GetParenthesesBalance | src/extension.ts:242-253 | the loop returns the number of `(` minus the number of `)` in the whole text |
| Balance.QuoteBalance | src/extension.ts:255-258 | the quote balance is 0 or 1, and it is 0 exactly when the number of `"` is even |
| Balance.StatusWarning | src/extension.ts:226-231 | the warning sign is shown exactly when the counts of `(` and `)` differ or the `"` count is odd |
| Balance.ParenBalanceAppend | src/extension.ts:242-253 | the balance of a concatenation is the sum of the balances of its parts |
| Balance.DepthIsBalanceWithoutStrayClose | src/extension.ts:86-103 | no `)` is met at depth zero exactly when no prefix has a negative balance, and then the stack height at the end is the balance |
| Balance.WellNestedHasZeroBalance | src/extension.ts:86-103 | a text the strict check calls balanced has `getParenthesesBalance` zero and ends at depth zero |
| Balance.ZeroBalanceIsNotNesting | src/extension.ts:242-253 | `)(` has balance zero yet is not properly nested, so the status-bar counter does not detect order errors |
| Balance.PrefixStep | src/extension.ts:544-561 | reading one more character moves the balance by +1, -1 or 0 and the depth as `level` moves, never below zero |
| ParenMatching.MatchParens | src/extension.ts:539-567 | each pair has `(` at `open` < `)` at `close`. Every parenthesis lies in exactly one of a pair or `unmatchedParens`. Pairs never cross. A pair's level is the depth at its `(`. A `)` is unmatched exactly when met at depth zero. Stray `)`s precede the open `(`s left over. Unmatched `(` minus unmatched `)` equals the balance. `unmatchedParens` is empty exactly when the text is properly nested. A pair opened inside another pair has a higher level |
| ParenMatching.ScanParens | src/extension.ts:542-562 | after the loop the scan invariant holds for the whole text: the stack holds the open `(`s in order with their levels, the height is the depth, the pairs are well formed and nested, and the stray `)`s are the ones met at depth zero |
| ParenMatching.ScanChar | src/extension.ts:545-561 | one iteration keeps `level` equal to the stack height and keeps the scan invariant, one character further on |
| ParenMatching.AppendOpenParens | src/extension.ts:564-567 | the unmatched list is the stray `)`s followed by the positions still on the stack. It holds as many `(` as the stack height and as many `)` as there are strays |
| ParenMatching.FinishScan | src/extension.ts:539-567 | from the invariant at the end of the scan: the unmatched list is increasing and made of parentheses, it covers every parenthesis no pair holds, it is disjoint from the pairs, and it is empty exactly for a properly nested text |
| ParenMatching.NestedPairsDeeper | src/extension.ts:544-562 | a pair whose `(` lies strictly inside another pair has a higher level than that pair, since the depth stays above a pair's level everywhere between its ends |
| ParenMatching.NothingUnmatchedIffWellNested | src/extension.ts:556-567 | nothing is left unmatched exactly when the text is properly nested |
| ParenMatching.ColorIndex | src/extension.ts:570-572 | the colour `level % numColors` is below `numColors` and never the reserved last slot |
| ParenMatching.NestedPairsDiffer | src/extension.ts:570-572 | consecutive levels get different colours, so a pair and a pair one level deeper are told apart |
| ParenMatching.ColorBucketMembers | src/extension.ts:571-583 | an offset is in colour slot `c` exactly when it is the `(` or the `)` of a pair whose colour is `c` |
| ParenMatching.ColorParens | src/extension.ts:569-593 | there are `numColors + 1` slots. Slot `c` lists, pair by pair, the ends of the pairs of colour `c`. The last slot is `unmatchedParens` when `showBalanceErrors` is set and empty otherwise |
| ParenMatching.HighlightParens | src/extension.ts:539-593 | the pairs and the unmatched list are those of the matching pass. Colour slot `c` holds exactly the ends of the pairs of colour `c`, whatever the setting. The reserved slot is the unmatched list when `showBalanceErrors` is set and empty otherwise. So a colour slot holds only parentheses coloured by the depth of their pair, never unmatched ones. With the setting, every parenthesis gets a slot. A properly nested text has an empty reserved slot |
| ParenMatching.SlotsOfMatching | src/extension.ts:569-593 | slots filled from a matching as `ColorParens` fills them colour only parentheses at their depth, never unmatched ones, and reserve only parentheses, only with `showBalanceErrors`. With it every parenthesis has a slot, and a properly nested text leaves the reserved slot empty |
| ParenMatching.EveryParenSlotted | src/extension.ts:585-593 | with `showBalanceErrors`, every parenthesis of the text is in some slot, either its pair's colour or the reserved one |
| ParenMatching.ColoredSlots | src/extension.ts:571-583 | every offset in a colour slot is a parenthesis whose colour is that of its nesting depth, and it is neither unmatched nor in the reserved slot |
| ParenMatching.SlotOfMatched | src/extension.ts:571-583 | a parenthesis that is not unmatched lies in the colour slot of its pair |
| QuotePairing.QuotePositions | src/extension.ts:596-601 | the collected offsets are increasing, each holds a `"`, every `"` is collected, and there are as many as `"`s in the text |
| QuotePairing.PairQuotes | src/extension.ts:604-626 | the matched quotes are a prefix of even length of the positions, missing at most the last one. The one left over is reported only when `showBalanceErrors` is set |
| QuotePairing.HighlightQuotes | src/extension.ts:595-626 | the matched quotes are increasing `"` offsets, an even number of them, all but `getQuoteBalance` of the `"`s. An unmatched quote is reported exactly when `showBalanceErrors` is set and the count is odd. It is then a `"` that is not among the matched ones, and no `"` follows it. A `"` is matched exactly when the count is even or another `"` follows it |
| QuotePairing.MatchedUnlessLast | src/extension.ts:609-624 | a `"` is in the matched prefix exactly when the count is even or another `"` follows it, so only the last `"` of an odd count is left out |
| Text.RunEnd | src/extension.ts:518 | a greedy `\w+` from an offset stops at the first non-word character: everything before is a word character, the stop is not |
| Text.RunStart | src/extension.ts:518 | the `\b` at or before an offset that starts its run: everything from it to the offset is a word character, the character before it is not |
| Text.CountMerge | src/extension.ts:74 | when `to` now stands where `to` or `from` stood, the new count of `to` is the sum of the two old counts |
| WordClassifier.WordsFrom | src/extension.ts:518-519 | the matches from an offset on are maximal runs of word characters, in increasing order and disjoint |
| WordClassifier.Words | src/extension.ts:518-519 | every match of `/\b\w+\b/g` is a maximal run of word characters, and the matches are in order and disjoint |
| WordClassifier.WordsCoverWordChars | src/extension.ts:518-519 | every word character of the text lies inside some match |
| WordClassifier.OfKindMembers | src/extension.ts:519-535 | a span is in the ranges of a kind exactly when it is a match and its word is classified as that kind |
| WordClassifier.HighlightWords | src/extension.ts:517-536 | `searchTermRanges` and `noiseWordRanges` list, in text order, the matches classified as search terms and as noise words |
| WordClassifier.AddMatch | src/extension.ts:520-535 | the keyword, proximity and noise tests, taken in the program's order, file the match exactly as the classification says |
| WordClassifier.ProximityTestNeverHolds | src/extension.ts:523-524 | a word of word characters never passes the `^W\/\d+$` or `^PRE\/\d+$` test |
| WordClassifier.MatchedWordIsNeverProximity | src/extension.ts:518-524 | no matched word passes those tests |
| WordClassifier.ClassifyIgnoresCase | src/extension.ts:520-530 | the class of a word does not depend on the case it is typed in |
| WordClassifier.UpperLowerFold | src/extension.ts:520-521 | upper- and lower-casing a word are idempotent, and each undoes the other up to case |
| WordClassifier.NoiseSettingOnlyMovesNoise | src/extension.ts:529-534 | with the setting off there are no noise words. The setting never changes which words are skipped. It makes a word noise exactly when the word would otherwise be a search term and is in the noise set |
| WordClassifier.OperatorNoiseWordsAreSkipped | src/extension.ts:477-498 | `and`, `or` and `not` are in the noise set, yet in any case they are skipped as keywords and never shown as noise |
| QueryCleanup.CleanupAt | src/extension.ts:58-74 | at each offset a `'` becomes `"`. A letter of an operator run is upper-cased, one of another exception run is kept, and any other word character is lower-cased. Nothing else changes |
| QueryCleanup.CleanupChangesOnlyCase | src/extension.ts:69-74 | the length is kept, no `'` is left, each `'` becomes `"`, every other character is kept up to case, and non-word characters are kept exactly |
| QueryCleanup.OperatorsUppercased | src/extension.ts:58-69 | an operator word comes out in upper case |
| QueryCleanup.ProximityUppercased | src/extension.ts:61-69 | a whole `W/n` or `PRE/n` comes out in upper case, its `/` and digits included |
| QueryCleanup.ExceptionWordsNotLowercased | src/extension.ts:71 | a word on the exception list is never lower-cased: it is upper-cased if it is an operator and kept exactly as typed otherwise |
| QueryCleanup.OtherWordsLowercased | src/extension.ts:71 | every other word comes out in lower case |
| QueryCleanup.OperatorsAreExceptions | src/extension.ts:59-71 | every operator of step 1 is an exception of step 2, so step 2 never undoes step 1 |
| QueryCleanup.ExceptionsAreHighlightKeywords | src/extension.ts:523 | the exception list of the clean-up is exactly the keyword list of the word pass |
| QueryCleanup.CleanupKeepsShape | src/extension.ts:58-74 | the clean-up keeps word characters, `/` and every letter up to case in place |
| QueryCleanup.CleanupIdempotent | src/extension.ts:58-74 | cleaning up a cleaned-up query changes nothing |
| QueryCleanup.CleanupKeepsParens | src/extension.ts:58-74 | every `(` and `)` stays where it was and none appears |
| QueryCleanup.CleanupKeepsNesting | src/extension.ts:85-103 | the clean-up changes neither the balance nor whether the text is properly nested |
| QueryCleanup.CleanupQuoteCount | src/extension.ts:73-74 | after the clean-up the number of `"` is the old number of `"` and `'` together |
| QueryCleanup.StrictBalanceCheck | src/extension.ts:86-103 | `balanced` holds exactly when the text is properly nested: the scan meets no stray `)` and ends with an empty stack |
| QueryCleanup.StrayCloseIsNotNested | src/extension.ts:92-98 | a `)` met with an empty stack makes the text not properly nested |
| QueryCleanup.CheckCleanedParens | src/extension.ts:85-103 | the strict check on the cleaned text is true exactly when the selection itself is properly nested |
| QueryCleanup.CheckCleanedQuotes | src/extension.ts:105-107 | the even-`"` test on the cleaned text is true exactly when the selection has an even number of `"` and `'` together |
| QueryCleanup.CleanUpQuery | src/extension.ts:53-107 | an empty selection is refused. Otherwise the result is the rewritten text with the two verdicts: parentheses balanced exactly when the selection is properly nested, quotes balanced exactly when the selection's `"` and `'` together are even |

## Left out

- The VS Code API is not modelled: decoration types, `setDecorations`, `positionAt`, `editor.edit`, command registration, event listeners and configuration reads. Offsets stand in for editor positions, and settings are parameters.
- The status-bar object is not modelled, nor its `✓`/`✗` text and its tooltip strings. Only the warning decision is (`Balance.StatusWarning`).
- The information and warning pop-ups of the clean-up command are not modelled. That includes their wording and the word-count test that picks the "please review" message. `QueryCleanup.CleanUpQuery` returns the two verdicts the messages are chosen from.
- The debounce timer, the hover provider and the help webview are left out: they concern timing and presentation only.
- The module-level flags are left out, as is the file-name test that decides whether a document is a dtSearch file. Callers pass what they need.
- The operator and special-character highlight passes of `highlightSyntax` (src/extension.ts:500-515) are not part of this model. They fill ranges that no other part of the core reads.
- The path with no active editor is not modelled.
- The `try`/`catch` around `highlightSyntax` is left out. Nothing in the modelled logic can throw.
- JavaScript strings are UTF-16. `for (const char of text)` walks code points, while `text[i]` walks code units. The model treats a query as a sequence of `char`s and does not distinguish the two. Every character the core tests for is a single unit either way.
- `toUpperCase` and `toLowerCase` are modelled on ASCII only (`Text.Upper`, `Text.Lower`). Every text the program changes the case of is made of `\w` characters, `/` and whitespace, where this is exact.
- In the operator replacement of step 1, the `/`, the digits and the whitespace of a match are left as they are, because upper-casing does not change them. The model upper-cases only the letters of the run.
