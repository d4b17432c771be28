/**
 The regular expressions of the mutation finders, written out: operators and words with the characters that may not stand
 beside them, runs of digits, and the head of an `if`. What `matchAll` finds with one of them is a function of the text.
 */
module SitePatterns {
  import opened Folding
  import opened Text

  /** One entry of `matchAll`. */
  datatype Match = Match(index: nat, text: string)

  /** A class of characters: those of `\w` if `word` is set, and the ones listed. */
  datatype CharClass = CharClass(word: bool, listed: string)

  /** A fixed text with the characters a lookbehind and a lookahead forbid beside it. */
  datatype Token = Token(text: string, notBefore: CharClass, notAfter: CharClass)

  /** Alternatives in order, a maximal run of digits, or `if` up to its parenthesis. */
  datatype Shape = Tokens(alternatives: seq<Token>) | DigitRun | IfParen

  predicate At(s: string, index: nat, text: string) {
    index + |text| <= |s| && s[index..index + |text|] == text
  }

  predicate InClass(c: char, kind: CharClass) {
    c in kind.listed || (kind.word && ('a' <= c <= 'z' || 'A' <= c <= 'Z' || IsDigit(c) || c == '_'))
  }

  const ANY := CharClass(false, "")
  const WORD := CharClass(true, "")

  /** What may not stand next to a number: part of a name or of a longer number. */
  const NAME := CharClass(true, "$.")

  // ----- one match

  predicate Beside(s: string, from: nat, to: nat, notBefore: CharClass, notAfter: CharClass)
    requires from <= to <= |s|
  {
    (from == 0 || !InClass(s[from - 1], notBefore)) && (to == |s| || !InClass(s[to], notAfter))
  }

  predicate TokenAt(token: Token, s: string, i: nat) {
    At(s, i, token.text) && Beside(s, i, i + |token.text|, token.notBefore, token.notAfter)
  }

  /** The length of the first alternative that fits; an empty one never does. */
  function FirstToken(alternatives: seq<Token>, s: string, i: nat): (n: nat)
    ensures n > 0 ==> exists token :: token in alternatives && TokenAt(token, s, i) && n == |token.text|
  {
    if alternatives == [] then 0
    else if TokenAt(alternatives[0], s, i) && alternatives[0].text != [] then
      assert alternatives[0] in alternatives;
      |alternatives[0].text|
    else FirstToken(alternatives[1..], s, i)
  }

  function DigitEnd(s: string, i: nat): (r: nat)
    requires i <= |s|
    ensures i <= r <= |s| && Digits(s[i..r])
    ensures r == |s| || !IsDigit(s[r])
    decreases |s| - i
  {
    if i < |s| && IsDigit(s[i]) then
      var r := DigitEnd(s, i + 1);
      assert s[i..r] == [s[i]] + s[i + 1..r];
      r
    else i
  }

  function SpaceEnd(s: string, i: nat): (r: nat)
    requires i <= |s|
    ensures i <= r <= |s|
    decreases |s| - i
  {
    if i < |s| && IsSpace(s[i]) then SpaceEnd(s, i + 1) else i
  }

  /** How long the match at `i` is; zero when there is none. */
  function LengthAt(shape: Shape, s: string, i: nat): (n: nat)
    requires i <= |s|
    ensures i + n <= |s|
  {
    match shape
    case Tokens(alternatives) => FirstToken(alternatives, s, i)
    case DigitRun =>
      var end := DigitEnd(s, i);
      if Beside(s, i, end, NAME, NAME) then end - i else 0
    case IfParen =>
      if !At(s, i, "if") || (i > 0 && InClass(s[i - 1], WORD)) then 0
      else
        var open := SpaceEnd(s, i + 2);
        if open < |s| && s[open] == '(' then open + 1 - i else 0
  }

  // ----- all matches

  /** `matchAll`: leftmost first, and on from the end of each match. */
  function MatchesFrom(shape: Shape, s: string, i: nat): seq<Match>
    requires i <= |s|
    decreases |s| - i
  {
    if i == |s| then []
    else
      var n := LengthAt(shape, s, i);
      if n == 0 then MatchesFrom(shape, s, i + 1) else [Match(i, s[i..i + n])] + MatchesFrom(shape, s, i + n)
  }

  function MatchAll(shape: Shape, s: string): seq<Match> {
    MatchesFrom(shape, s, 0)
  }

  lemma MatchesNext(shape: Shape, s: string, i: nat, n: nat)
    requires i < |s| && n == LengthAt(shape, s, i)
    ensures MatchesFrom(shape, s, i)
      == if n == 0 then MatchesFrom(shape, s, i + 1) else [Match(i, s[i..i + n])] + MatchesFrom(shape, s, i + n)
  {
  }

  lemma MatchHere(shape: Shape, s: string, i: nat, n: nat)
    requires i < |s| && n == LengthAt(shape, s, i) && n > 0
    ensures IsMatch(shape, s, Match(i, s[i..i + n]))
  {
  }

  predicate IsMatch(shape: Shape, s: string, m: Match) {
    m.text != [] && At(s, m.index, m.text) && LengthAt(shape, s, m.index) == |m.text|
  }

  lemma {:induction false} MatchesAreGenuine(shape: Shape, s: string, i: nat)
    requires i <= |s|
    ensures forall m :: m in MatchesFrom(shape, s, i) ==> i <= m.index && IsMatch(shape, s, m)
    decreases |s| - i
  {
    if i < |s| {
      var n := LengthAt(shape, s, i);
      MatchesNext(shape, s, i, n);
      if n > 0 { MatchHere(shape, s, i, n); }
      MatchesAreGenuine(shape, s, if n == 0 then i + 1 else i + n);
    }
  }

  predicate Covers(m: Match, j: nat) {
    m.index <= j < m.index + |m.text|
  }

  /** The match at `i` has length `n`. Folded until `Key(true)` is mentioned. */
  ghost predicate HasLength(shape: Shape, s: string, i: nat, n: nat)
    requires i <= |s|
  {
    forall u {:trigger Key(u)} :: Key(u) ==> LengthAt(shape, s, i) == n
  }

  lemma OneStep(shape: Shape, s: string, i: nat) returns (n: nat)
    requires i < |s|
    ensures i + n <= |s| && HasLength(shape, s, i, n)
    ensures MatchesFrom(shape, s, i)
      == if n == 0 then MatchesFrom(shape, s, i + 1) else [Match(i, s[i..i + n])] + MatchesFrom(shape, s, i + n)
  {
    n := LengthAt(shape, s, i);
    MatchesNext(shape, s, i, n);
  }

  lemma OneLength(shape: Shape, s: string, i: nat, a: nat, b: nat)
    requires i <= |s| && HasLength(shape, s, i, a) && HasLength(shape, s, i, b)
    ensures a == b
  {
    assert Key(true);
  }

  lemma {:induction false} MatchReaches(shape: Shape, s: string, i: nat, j: nat, length: nat) returns (m: Match)
    requires i <= j < |s| && HasLength(shape, s, j, length) && length > 0
    ensures m in MatchesFrom(shape, s, i) && Covers(m, j)
    decreases |s| - i
  {
    var n := OneStep(shape, s, i);
    if i == j { OneLength(shape, s, i, n, length); }
    if n > 0 && j < i + n {
      m := Match(i, s[i..i + n]);
    } else {
      m := MatchReaches(shape, s, if n == 0 then i + 1 else i + n, j, length);
    }
  }

  /** Wherever the pattern fits there is a match, or an earlier one reaches over the place. */
  lemma NoMatchIsMissed(shape: Shape, s: string, j: nat) returns (m: Match)
    requires j < |s| && LengthAt(shape, s, j) > 0
    ensures m in MatchAll(shape, s) && Covers(m, j)
  {
    m := MatchReaches(shape, s, 0, j, LengthAt(shape, s, j));
  }

  /** A match of fixed texts is one of them. */
  lemma MatchIsToken(alternatives: seq<Token>, s: string, m: Match)
    requires m in MatchAll(Tokens(alternatives), s)
    ensures exists token :: token in alternatives && m.text == token.text
  {
    MatchesAreGenuine(Tokens(alternatives), s, 0);
    var token :| token in alternatives && TokenAt(token, s, m.index) && |m.text| == |token.text|;
    assert m.text == s[m.index..m.index + |m.text|] == token.text;
  }

  lemma MatchIsNumber(s: string, m: Match)
    requires m in MatchAll(DigitRun, s)
    ensures m.text != [] && Digits(m.text)
  {
    MatchesAreGenuine(DigitRun, s, 0);
    assert m.text == s[m.index..DigitEnd(s, m.index)];
  }

  /** A match of `if` ends in the opening parenthesis. */
  lemma MatchOpensParen(s: string, m: Match)
    requires m in MatchAll(IfParen, s)
    ensures At(s, m.index, m.text) && m.text != [] && m.text[|m.text| - 1] == '('
  {
    MatchesAreGenuine(IfParen, s, 0);
    var open := SpaceEnd(s, m.index + 2);
    assert m.text[|m.text| - 1] == s[open];
  }

  // ----- where the patterns fit

  /** A letter, a digit or an underscore. */
  predicate WordChar(c: char) {
    'a' <= c <= 'z' || 'A' <= c <= 'Z' || '0' <= c <= '9' || c == '_'
  }

  /** The character, if there is one at `k`, is none of those listed, and no word character either if `word` is set. */
  predicate Free(s: string, k: int, word: bool, listed: string) {
    0 <= k < |s| ==> s[k] !in listed && (word ==> !WordChar(s[k]))
  }

  /** An operator or word fits exactly where its text stands between characters that may stand beside it. */
  lemma TokenFitsIff(token: Token, s: string, i: nat)
    requires i <= |s| && token.text != []
    ensures LengthAt(Tokens([token]), s, i) == |token.text|
      <==> At(s, i, token.text) && Free(s, i - 1, token.notBefore.word, token.notBefore.listed)
           && Free(s, i + |token.text|, token.notAfter.word, token.notAfter.listed)
    ensures LengthAt(Tokens([token]), s, i) in {0, |token.text|}
  {
    assert [token][1..] == [];
  }

  /** A number fits exactly where a whole run of digits stands that is no part of a name or of another number. */
  lemma NumberFitsIff(s: string, i: nat, n: nat)
    requires i + n <= |s| && n > 0
    ensures LengthAt(DigitRun, s, i) == n
      <==> Digits(s[i..i + n]) && Free(s, i - 1, true, "$.") && Free(s, i + n, true, "$.")
  {
    if Digits(s[i..i + n]) && Free(s, i + n, true, "$.") { DigitsEndAt(s, i, i + n); }
  }

  lemma {:induction false} DigitsEndAt(s: string, i: nat, end: nat)
    requires i <= end <= |s| && Digits(s[i..end]) && (end < |s| ==> !IsDigit(s[end]))
    ensures DigitEnd(s, i) == end
    decreases end - i
  {
    if i < end {
      assert s[i..end][0] == s[i] && s[i + 1..end] == s[i..end][1..];
      DigitsEndAt(s, i + 1, end);
    }
  }

  /** The head of an `if` fits exactly where the word stands by itself, with only blanks up to a parenthesis. */
  lemma IfFitsIff(s: string, i: nat, n: nat)
    requires i + n <= |s| && n >= 3
    ensures LengthAt(IfParen, s, i) == n
      <==> At(s, i, "if") && Free(s, i - 1, true, "") && IsBlank(s[i + 2..i + n - 1]) && s[i + n - 1] == '('
  {
    var open: nat := i + n - 1;
    if At(s, i, "if") {
      if IsBlank(s[i + 2..open]) && s[open] == '(' { SpaceEndsAt(s, i + 2, open); }
      if SpaceEnd(s, i + 2) == open { SpacesBefore(s, i + 2); }
    }
  }

  lemma {:induction false} SpaceEndsAt(s: string, i: nat, end: nat)
    requires i <= end < |s| && IsBlank(s[i..end]) && !IsSpace(s[end])
    ensures SpaceEnd(s, i) == end
    decreases end - i
  {
    if i < end {
      assert s[i..end][0] == s[i] && s[i + 1..end] == s[i..end][1..];
      SpaceEndsAt(s, i + 1, end);
    }
  }

  lemma {:induction false} SpacesBefore(s: string, i: nat)
    requires i <= |s|
    ensures IsBlank(s[i..SpaceEnd(s, i)])
    decreases |s| - i
  {
    if i < |s| && IsSpace(s[i]) {
      SpacesBefore(s, i + 1);
      assert s[i..SpaceEnd(s, i)] == [s[i]] + s[i + 1..SpaceEnd(s, i + 1)];
    }
  }
}
