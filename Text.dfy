/** Character classes, ASCII case mapping, counting and word runs shared by
    every analysis in the model. A query is a `string` (`seq<char>`); offsets
    into it are plain `nat`s. */
module Text {

  /** The class `\w` of JavaScript regular expressions: ASCII letters,
      ASCII digits and the underscore. */
  predicate IsWordChar(c: char) {
    ('A' <= c <= 'Z') || ('a' <= c <= 'z') || ('0' <= c <= '9') || c == '_'
  }

  /** The class `\d`: ASCII digits only. */
  predicate IsDigit(c: char) {
    '0' <= c <= '9'
  }

  predicate IsParen(c: char) {
    c == '(' || c == ')'
  }

  predicate AllDigits(s: string) {
    forall k :: 0 <= k < |s| ==> IsDigit(s[k])
  }

  /** Offsets listed in strictly increasing order (so without repeats). */
  predicate Increasing(xs: seq<nat>) {
    forall a, b :: 0 <= a < b < |xs| ==> xs[a] < xs[b]
  }

  /** A stretch that is all digits has a digit at each of its offsets. */
  lemma DigitsAt(s: string, a: nat, b: nat)
    requires a <= b <= |s| && AllDigits(s[a..b])
    ensures forall j :: a <= j < b ==> IsDigit(s[j])
  {
    forall j | a <= j < b
      ensures IsDigit(s[j])
    {
      assert s[a..b][j - a] == s[j];
    }
  }

  /** `toUpperCase` on one character. Every text the program upper-cases is made
      of ASCII letters, digits, `/` and whitespace, so the ASCII mapping is exact. */
  function Upper(c: char): (r: char)
    ensures IsWordChar(r) == IsWordChar(c) && IsDigit(r) == IsDigit(c)
    ensures !('a' <= r <= 'z')
    ensures !('a' <= c <= 'z') ==> r == c
  {
    if 'a' <= c <= 'z' then (c as int - 32) as char else c
  }

  /** `toLowerCase` on one character, ASCII mapping (see Upper). */
  function Lower(c: char): (r: char)
    ensures IsWordChar(r) == IsWordChar(c) && IsDigit(r) == IsDigit(c)
    ensures !('A' <= r <= 'Z')
    ensures !('A' <= c <= 'Z') ==> r == c
    ensures Upper(r) == Upper(c)
  {
    if 'A' <= c <= 'Z' then (c as int + 32) as char else c
  }

  function UpperStr(s: string): (r: string)
    ensures |r| == |s|
  {
    seq(|s|, k requires 0 <= k < |s| => Upper(s[k]))
  }

  function LowerStr(s: string): (r: string)
    ensures |r| == |s|
  {
    seq(|s|, k requires 0 <= k < |s| => Lower(s[k]))
  }

  /** Number of occurrences of `c` in `s`, peeled from the end so that a
      left-to-right scan can extend it one character at a time. */
  function Count(s: string, c: char): (n: nat)
    ensures n <= |s|
  {
    if s == [] then 0
    else Count(s[..|s| - 1], c) + (if s[|s| - 1] == c then 1 else 0)
  }

  /** Counting is additive over concatenation. */
  lemma {:induction false} CountAppend(a: string, b: string, c: char)
    ensures Count(a + b, c) == Count(a, c) + Count(b, c)
    decreases |b|
  {
    if b != [] {
      var b' := b[..|b| - 1];
      assert (a + b)[..|a + b| - 1] == a + b';
      CountAppend(a, b', c);
    } else {
      assert a + b == a;
    }
  }

  /** Two texts that agree on where `c` occurs have the same count of `c`. */
  lemma {:induction false} CountSamePositions(a: string, b: string, c: char)
    requires |a| == |b|
    requires forall k :: 0 <= k < |a| ==> (a[k] == c <==> b[k] == c)
    ensures Count(a, c) == Count(b, c)
    decreases |a|
  {
    if a != [] {
      CountSamePositions(a[..|a| - 1], b[..|b| - 1], c);
    }
  }

  /** Case mapping is idempotent and each direction undoes the other up to
      case. */
  lemma CaseFold(c: char)
    ensures Upper(Upper(c)) == Upper(c) && Lower(Lower(c)) == Lower(c)
    ensures Lower(Upper(c)) == Lower(c) && Upper(Lower(c)) == Upper(c)
  {
  }

  /** When the positions of `to` in `b` are those of `to` or `from` in `a`,
      `b` has as many `to`s as `a` has of both together. */
  lemma {:induction false} CountMerge(a: string, b: string, from: char, to: char)
    requires |a| == |b| && from != to
    requires forall k :: 0 <= k < |a| ==> (b[k] == to <==> a[k] == to || a[k] == from)
    ensures Count(b, to) == Count(a, to) + Count(a, from)
    decreases |a|
  {
    if a != [] {
      CountMerge(a[..|a| - 1], b[..|b| - 1], from, to);
    }
  }

  /** End of the maximal run of word characters that starts at or continues
      through `i`: the place where a greedy `\w+` from `i` stops. */
  function RunEnd(text: string, i: nat): (e: nat)
    requires i <= |text|
    ensures i <= e <= |text|
    ensures forall k :: i <= k < e ==> IsWordChar(text[k])
    ensures e == |text| || !IsWordChar(text[e])
    decreases |text| - i
  {
    if i < |text| && IsWordChar(text[i]) then RunEnd(text, i + 1) else i
  }

  /** Start of the maximal run of word characters that ends at `j`: the last
      word boundary `\b` at or before `j`. */
  function RunStart(text: string, j: nat): (s: nat)
    requires j <= |text|
    ensures s <= j
    ensures forall k :: s <= k < j ==> IsWordChar(text[k])
    ensures s == 0 || !IsWordChar(text[s - 1])
  {
    if j > 0 && IsWordChar(text[j - 1]) then RunStart(text, j - 1) else j
  }

  /** Texts with word characters in the same places have the same runs. */
  lemma RunsAgree(a: string, b: string, j: nat)
    requires |a| == |b| && j <= |a|
    requires forall k :: 0 <= k < |a| ==> IsWordChar(a[k]) == IsWordChar(b[k])
    ensures RunEnd(a, j) == RunEnd(b, j) && RunStart(a, j) == RunStart(b, j)
  {
  }

  /** Every position of a run reports the same run. */
  lemma RunOfMember(text: string, s: nat, e: nat, j: nat)
    requires s <= j < e <= |text|
    requires forall k :: s <= k < e ==> IsWordChar(text[k])
    requires s == 0 || !IsWordChar(text[s - 1])
    requires e == |text| || !IsWordChar(text[e])
    ensures RunStart(text, j) == s && RunEnd(text, j) == e
  {
  }
}
