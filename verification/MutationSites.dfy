/**
 Mutation sites: where the finders look, how a mutant is spliced in and taken out, how an index becomes a line, and how
 a long module is sampled.
 */
module MutationSites {
  import opened Counting
  import opened Doubles
  import opened SitePatterns
  import opened Text
  import CodeMask
  import Ordering

  datatype Kind = IfNegation | NumberLiteral | Named(name: string)

  datatype Site = Site(kind: Kind, index: nat, before: string, after: string)

  datatype Mutant = Mutant(site: Site, line: nat)

  /** A pattern with what the finder makes of a match, or the finder of `if` conditions. */
  datatype Finder = Pattern(kind: Kind, shape: Shape, replacement: string -> string) | Condition

  predicate Real(source: string, site: Site) {
    At(source, site.index, site.before)
  }

  // ----- splicing a mutant

  /** `String.prototype.slice` for non-negative bounds. */
  function Slice(s: string, from: nat, to: nat): string {
    var end := if to < |s| then to else |s|;
    if from < end then s[from..end] else []
  }

  function ApplyMutant(source: string, site: Site): string {
    Slice(source, 0, site.index) + site.after + Slice(source, site.index + |site.before|, |source|)
  }

  function Swapped(site: Site): Site {
    site.(before := site.after, after := site.before)
  }

  lemma SpliceParts(source: string, site: Site)
    requires site.index + |site.before| <= |source|
    ensures ApplyMutant(source, site) == source[..site.index] + site.after + source[site.index + |site.before|..]
  {
  }

  lemma Middle(left: string, middle: string, right: string)
    ensures (left + middle + right)[..|left|] == left
    ensures (left + middle + right)[|left|..|left| + |middle|] == middle
    ensures (left + middle + right)[|left| + |middle|..] == right
  {
  }

  lemma SameMiddle(left: string, a: string, b: string, right: string)
    ensures left + a + right == left + b + right <==> a == b
  {
    if left + a + right == left + b + right {
      assert |a| == |b|;
      Middle(left, a, right);
      Middle(left, b, right);
    }
  }

  lemma RestoredText(source: string, site: Site)
    requires site.index + |site.before| <= |source|
    ensures ApplyMutant(ApplyMutant(source, site), Swapped(site))
      == source[..site.index] + site.before + source[site.index + |site.before|..]
  {
    SpliceParts(source, site);
    SpliceParts(ApplyMutant(source, site), Swapped(site));
    Middle(source[..site.index], site.after, source[site.index + |site.before|..]);
  }

  /** Swapping before and after takes the mutant out again, exactly when the site was real. */
  lemma SwapUndoesMutant(source: string, site: Site)
    requires site.index + |site.before| <= |source|
    ensures ApplyMutant(ApplyMutant(source, site), Swapped(site)) == source <==> Real(source, site)
  {
    var left, right := source[..site.index], source[site.index + |site.before|..];
    var original := source[site.index..site.index + |site.before|];
    RestoredText(source, site);
    assert source == left + original + right;
    SameMiddle(left, site.before, original, right);
  }

  /** A real mutant changes the text unless its replacement is what was there. */
  lemma MutantChangesText(source: string, site: Site)
    requires Real(source, site)
    ensures ApplyMutant(source, site) == source <==> site.before == site.after
  {
    SpliceParts(source, site);
    var left, right := source[..site.index], source[site.index + |site.before|..];
    assert source == left + site.before + right;
    if ApplyMutant(source, site) == source {
      assert |site.before| == |site.after|;
      assert (left + site.after + right)[site.index..site.index + |site.after|] == site.after;
    }
  }

  // ----- pattern sites

  /** The sites of a pattern: its matches in the masked text that are the source's own text. */
  function PatternSitesOf(source: string, kind: Kind, matches: seq<Match>, replacement: string -> string): seq<Site> {
    if matches == [] then []
    else
      var m := matches[|matches| - 1];
      var before := PatternSitesOf(source, kind, matches[..|matches| - 1], replacement);
      if Slice(source, m.index, m.index + |m.text|) != m.text then before
      else before + [Site(kind, m.index, m.text, replacement(m.text))]
  }

  lemma NextPatternSite(source: string, kind: Kind, matches: seq<Match>, replacement: string -> string, i: nat)
    requires i < |matches|
    ensures var m := matches[i];
      PatternSitesOf(source, kind, matches[..i + 1], replacement) == PatternSitesOf(source, kind, matches[..i], replacement)
        + if Slice(source, m.index, m.index + |m.text|) != m.text then [] else [Site(kind, m.index, m.text, replacement(m.text))]
  {
    assert matches[..i + 1][..i] == matches[..i];
  }

  method PatternSites(source: string, kind: Kind, matches: seq<Match>, replacement: string -> string)
    returns (sites: seq<Site>)
    ensures sites == PatternSitesOf(source, kind, matches, replacement)
  {
    sites := [];
    for i := 0 to |matches|
      invariant sites == PatternSitesOf(source, kind, matches[..i], replacement)
    {
      var m := matches[i];
      NextPatternSite(source, kind, matches, replacement, i);
      if Slice(source, m.index, m.index + |m.text|) == m.text {
        sites := sites + [Site(kind, m.index, m.text, replacement(m.text))];
      }
    }
    assert matches[..|matches|] == matches;
  }

  lemma {:induction false} PatternSitesAreReal(source: string, kind: Kind, matches: seq<Match>, replacement: string -> string)
    requires forall m :: m in matches ==> m.index + |m.text| <= |source|
    ensures forall site :: site in PatternSitesOf(source, kind, matches, replacement) ==>
      Real(source, site) && site.after == replacement(site.before)
  {
    if matches != [] {
      PatternSitesAreReal(source, kind, matches[..|matches| - 1], replacement);
    }
  }

  /** A match is dropped only when it reaches into blanked text: a match without blanks is always a site. */
  lemma {:induction false} UnblankedMatchesAreSites(source: string, kind: Kind, matches: seq<Match>, replacement: string -> string, m: Match)
    requires m in matches && At(CodeMask.Masked(source, true), m.index, m.text) && ' ' !in m.text
    ensures Site(kind, m.index, m.text, replacement(m.text)) in PatternSitesOf(source, kind, matches, replacement)
  {
    CodeMask.UnblankedMatchIsSource(source, m.index, m.index + |m.text|);
    var last := matches[|matches| - 1];
    if m == last {
      assert Slice(source, m.index, m.index + |m.text|) == m.text;
    } else {
      UnblankedMatchesAreSites(source, kind, matches[..|matches| - 1], replacement, m);
    }
  }

  // ----- condition sites

  /** Opening minus closing parentheses in `[lo, hi)`. */
  function Depth(s: string, lo: nat, hi: nat): int
    requires lo <= hi <= |s|
    decreases hi
  {
    if lo == hi then 0
    else Depth(s, lo, hi - 1) + if s[hi - 1] == '(' then 1 else if s[hi - 1] == ')' then -1 else 0
  }

  /** `close` is the parenthesis that matches the one at `open`. */
  predicate Closes(s: string, open: nat, close: nat)
    requires open <= |s|
  {
    && open < close < |s| && Depth(s, open, close + 1) == 0
    && forall k :: open < k <= close ==> Depth(s, open, k) > 0
  }

  /** The parenthesis at or after `index` that brings the count from `depth` to zero. */
  function ClosingFrom(s: string, index: nat, depth: int): Option<nat>
    requires index <= |s|
    decreases |s| - index
  {
    if index == |s| then None
    else if s[index] == '(' then ClosingFrom(s, index + 1, depth + 1)
    else if s[index] == ')' then if depth == 1 then Some(index) else ClosingFrom(s, index + 1, depth - 1)
    else ClosingFrom(s, index + 1, depth)
  }

  method ClosingParen(masked: string, open: nat) returns (close: Option<nat>)
    requires open <= |masked|
    ensures close == ClosingFrom(masked, open, 0)
  {
    var depth := 0;
    for index := open to |masked|
      invariant ClosingFrom(masked, open, 0) == ClosingFrom(masked, index, depth)
    {
      var c := masked[index];
      if c == '(' {
        depth := depth + 1;
      } else if c == ')' {
        depth := depth - 1;
        if depth == 0 { return Some(index); }
      }
    }
    return None;
  }

  /** Counting from an opening parenthesis finds its match, whenever there is one. */
  lemma {:induction false} ClosingIsTheMatch(s: string, open: nat, index: nat, c: nat)
    requires open < index <= |s| && s[open] == '('
    requires forall k :: open < k <= index ==> Depth(s, open, k) > 0
    ensures ClosingFrom(s, index, Depth(s, open, index)) == Some(c) <==> Closes(s, open, c) && index <= c
    decreases |s| - index
  {
    if index < |s| {
      var next := Depth(s, open, index + 1);
      if next == 0 {
        assert Closes(s, open, index);
      } else {
        ClosingIsTheMatch(s, open, index + 1, c);
      }
    }
  }

  lemma {:induction false} DepthOfSlice(s: string, open: nat, lo: nat, hi: nat)
    requires open <= lo <= hi <= |s|
    ensures Depth(s[lo..hi], 0, hi - lo) == Depth(s, open, hi) - Depth(s, open, lo)
    decreases hi
  {
    if lo < hi {
      DepthOfSlice(s, open, lo, hi - 1);
      DepthOfPrefix(s[lo..hi], hi - 1 - lo);
      assert s[lo..hi][..hi - 1 - lo] == s[lo..hi - 1];
    }
  }

  lemma {:induction false} SameDepth(a: string, b: string, n: nat)
    requires n <= |a| && n <= |b| && a[..n] == b[..n]
    ensures Depth(a, 0, n) == Depth(b, 0, n)
  {
    if n > 0 {
      assert a[n - 1] == a[..n][n - 1] && b[n - 1] == b[..n][n - 1];
      assert a[..n - 1] == a[..n][..n - 1] && b[..n - 1] == b[..n][..n - 1];
      SameDepth(a, b, n - 1);
    }
  }

  lemma DepthOfPrefix(s: string, n: nat)
    requires n <= |s|
    ensures Depth(s[..n], 0, n) == Depth(s, 0, n)
  {
    SameDepth(s[..n], s, n);
  }

  lemma SliceOfSlice(s: string, lo: nat, hi: nat, n: nat)
    requires lo <= lo + n <= hi <= |s|
    ensures s[lo..hi][..n] == s[lo..lo + n]
  {
  }

  /** Every prefix opens at least as much as it closes, and the whole text opens as much as it closes. */
  predicate Balanced(s: string) {
    Depth(s, 0, |s|) == 0 && forall n :: 0 <= n <= |s| ==> Depth(s, 0, n) >= 0
  }

  /** What lies between a parenthesis and its match is balanced, so negating it as a whole keeps the statement's shape. */
  lemma ConditionIsBalanced(masked: string, open: nat, close: nat)
    requires open < |masked| && masked[open] == '(' && Closes(masked, open, close)
    ensures Balanced(masked[open + 1..close])
  {
    var inside := masked[open + 1..close];
    assert Depth(masked, open, open + 1) == 1;
    assert Depth(masked, open, close) > 0;
    DepthOfSlice(masked, open, open + 1, close);
    forall n: nat | n <= |inside| ensures Depth(inside, 0, n) >= 0 {
      DepthOfSlice(masked, open, open + 1, open + 1 + n);
      DepthOfPrefix(inside, n);
      SliceOfSlice(masked, open + 1, close, n);
    }
  }

  function OpenOf(m: Match): nat
    requires m.text != []
  {
    m.index + |m.text| - 1
  }

  function Negation(condition: string): string {
    "!(" + condition + ")"
  }

  /** `site` negates the whole source text between the parenthesis of `m` and its match in the masked text. */
  predicate Negates(masked: string, source: string, m: Match, site: Site) {
    && m.text != [] && OpenOf(m) < |masked| == |source|
    && site.kind == IfNegation && site.index == OpenOf(m) + 1
    && site.after == Negation(site.before)
    && Real(source, site) && Closes(masked, OpenOf(m), site.index + |site.before|)
  }

  /** The negation of the parenthesis that `m` opens, if it is closed. */
  function NegationOf(masked: string, source: string, m: Match): Option<Site>
    requires m.text != [] && OpenOf(m) < |masked|
  {
    var close := ClosingFrom(masked, OpenOf(m), 0);
    if close.None? then None
    else
      var condition := Slice(source, OpenOf(m) + 1, close.value);
      Some(Site(IfNegation, OpenOf(m) + 1, condition, Negation(condition)))
  }

  predicate OpensParen(masked: string, m: Match) {
    m.text != [] && m.text[|m.text| - 1] == '(' && At(masked, m.index, m.text)
  }

  /** The site found for an `if` negates its whole condition, and one is found whenever the parenthesis is closed. */
  lemma NegationIsExact(masked: string, source: string, m: Match, site: Site)
    requires |masked| == |source| && OpensParen(masked, m)
    ensures NegationOf(masked, source, m) == Some(site) <==> Negates(masked, source, m, site)
  {
    var close := ClosingFrom(masked, OpenOf(m), 0);
    if close.None? {
      MatchIsTheClose(masked, m, site.index + |site.before|);
    } else {
      MatchIsTheClose(masked, m, close.value);
      SiteIsExact(masked, source, m, close.value, site);
    }
  }

  lemma SiteIsExact(masked: string, source: string, m: Match, close: nat, site: Site)
    requires |masked| == |source| && m.text != [] && OpenOf(m) < |masked| && Closes(masked, OpenOf(m), close)
    ensures Negates(masked, source, m, site) <==>
      site == Site(IfNegation, OpenOf(m) + 1, Slice(source, OpenOf(m) + 1, close), Negation(site.before))
  {
  }

  lemma MatchIsTheClose(masked: string, m: Match, c: nat)
    requires OpensParen(masked, m)
    ensures ClosingFrom(masked, OpenOf(m), 0) == Some(c) <==> Closes(masked, OpenOf(m), c)
  {
    var open := OpenOf(m);
    assert masked[open] == masked[m.index..m.index + |m.text|][|m.text| - 1];
    assert Depth(masked, open, open + 1) == 1;
    assert ClosingFrom(masked, open, 0) == ClosingFrom(masked, open + 1, 1);
    ClosingIsTheMatch(masked, open, open + 1, c);
  }

  function ConditionSitesOf(masked: string, source: string, matches: seq<Match>): seq<Site>
    requires forall m :: m in matches ==> OpensParen(masked, m)
  {
    if matches == [] then []
    else
      assert OpensParen(masked, matches[|matches| - 1]);
      var last := Worthwhile(NegationOf(masked, source, matches[|matches| - 1]));
      var before := ConditionSitesOf(masked, source, matches[..|matches| - 1]);
      if last.Some? then before + [last.value] else before
  }

  method ConditionSites(masked: string, source: string, matches: seq<Match>) returns (sites: seq<Site>)
    requires forall m :: m in matches ==> OpensParen(masked, m)
    ensures sites == ConditionSitesOf(masked, source, matches)
  {
    sites := [];
    for i := 0 to |matches|
      invariant sites == ConditionSitesOf(masked, source, matches[..i])
    {
      assert OpensParen(masked, matches[i]);
      assert matches[..i + 1][..i] == matches[..i];
      var site := ConditionSite(masked, source, matches[i]);
      if site.Some? {
        sites := sites + [site.value];
      }
    }
    assert matches[..|matches|] == matches;
  }

  /** A blank condition is not worth a site. */
  function Worthwhile(found: Option<Site>): Option<Site> {
    if found.Some? && IsBlank(found.value.before) then None else found
  }

  method ConditionSite(masked: string, source: string, m: Match) returns (site: Option<Site>)
    requires m.text != [] && OpenOf(m) < |masked|
    ensures site == Worthwhile(NegationOf(masked, source, m))
  {
    var open := m.index + |m.text| - 1;
    var close := ClosingParen(masked, open);
    if close.None? { return None; }
    var condition := Slice(source, open + 1, close.value);
    var blank := TrimsAway(condition);
    if blank { return None; }
    return Some(Site(IfNegation, open + 1, condition, Negation(condition)));
  }

  ghost predicate HasNegated(masked: string, source: string, matches: seq<Match>, site: Site) {
    exists m :: m in matches && Negates(masked, source, m, site)
  }

  /** The condition sites are the negations of the closed, non-blank conditions, and nothing else. */
  lemma {:induction false} ConditionSitesAreExact(masked: string, source: string, matches: seq<Match>, site: Site)
    requires |masked| == |source| && forall m :: m in matches ==> OpensParen(masked, m)
    ensures site in ConditionSitesOf(masked, source, matches)
      <==> HasNegated(masked, source, matches, site) && !IsBlank(site.before)
  {
    if matches != [] {
      var rest, last := matches[..|matches| - 1], matches[|matches| - 1];
      assert matches == rest + [last];
      assert OpensParen(masked, last);
      ConditionSitesAreExact(masked, source, rest, site);
      NegationIsExact(masked, source, last, site);
      NegatedByLast(masked, source, rest, last, site);
      FoundAtLast(masked, source, matches, site);
    }
  }

  lemma FoundAtLast(masked: string, source: string, matches: seq<Match>, site: Site)
    requires matches != [] && forall m :: m in matches ==> OpensParen(masked, m)
    ensures OpensParen(masked, matches[|matches| - 1])
    ensures site in ConditionSitesOf(masked, source, matches)
      <==> site in ConditionSitesOf(masked, source, matches[..|matches| - 1])
           || (NegationOf(masked, source, matches[|matches| - 1]) == Some(site) && !IsBlank(site.before))
  {
  }

  lemma NegatedByLast(masked: string, source: string, rest: seq<Match>, last: Match, site: Site)
    ensures HasNegated(masked, source, rest + [last], site)
      <==> HasNegated(masked, source, rest, site) || Negates(masked, source, last, site)
  {
  }

  // ----- lines

  function NewlinesBefore(s: string, i: nat): nat {
    if i == 0 then 0 else NewlinesBefore(s, i - 1) + if i <= |s| && s[i - 1] == '\n' then 1 else 0
  }

  predicate IsLineStart(s: string, i: nat) {
    i == 0 || (i <= |s| && s[i - 1] == '\n')
  }

  predicate Increasing(starts: seq<nat>) {
    forall j, k :: 0 <= j < k < |starts| ==> starts[j] < starts[k]
  }

  /** The line starts at or before `i`, in order: as many as newlines before `i`, and one. */
  predicate StartsUpTo(s: string, i: nat, starts: seq<nat>)
    requires i <= |s|
  {
    && |starts| == 1 + NewlinesBefore(s, i) && Increasing(starts)
    && (forall k :: 0 <= k < |starts| ==> starts[k] <= i && IsLineStart(s, starts[k]))
    && (forall x: nat :: x <= i && IsLineStart(s, x) ==> x in starts)
  }

  /** The next newline at or after `i`: `indexOf`. */
  function IndexOfNewline(s: string, i: nat): (r: Option<nat>)
    ensures r.Some? ==> i <= r.value < |s| && s[r.value] == '\n' && forall k :: i <= k < r.value ==> s[k] != '\n'
    ensures r.None? ==> forall k :: i <= k < |s| ==> s[k] != '\n'
    decreases |s| - i
  {
    if i >= |s| then None else if s[i] == '\n' then Some(i) else IndexOfNewline(s, i + 1)
  }

  lemma {:induction false} NoNewlineNoStart(s: string, i: nat, j: nat, starts: seq<nat>)
    requires i <= j <= |s| && StartsUpTo(s, i, starts)
    requires forall k :: i <= k < j ==> s[k] != '\n'
    ensures StartsUpTo(s, j, starts)
    decreases j
  {
    if i < j { NoNewlineNoStart(s, i, j - 1, starts); }
  }

  method LineStarts(source: string) returns (starts: seq<nat>)
    ensures StartsUpTo(source, |source|, starts)
  {
    starts := [0];
    var newline := IndexOfNewline(source, 0);
    ghost var done := 0;
    while newline.Some?
      invariant done <= |source| && StartsUpTo(source, done, starts)
      invariant newline == IndexOfNewline(source, done)
      decreases |source| - done
    {
      NoNewlineNoStart(source, done, newline.value, starts);
      StartAfterNewline(source, newline.value, starts);
      starts := starts + [newline.value + 1];
      done := newline.value + 1;
      newline := IndexOfNewline(source, newline.value + 1);
    }
    NoNewlineNoStart(source, done, |source|, starts);
  }

  lemma StartAfterNewline(s: string, i: nat, starts: seq<nat>)
    requires i < |s| && s[i] == '\n' && StartsUpTo(s, i, starts)
    ensures StartsUpTo(s, i + 1, starts + [i + 1])
  {
  }

  /** The last line start at or before `index`, zero-based, by binary search. */
  method LineIndexOf(starts: seq<nat>, index: nat) returns (line: nat)
    requires starts != [] && starts[0] <= index && Increasing(starts)
    ensures line < |starts| && starts[line] <= index
    ensures line + 1 < |starts| ==> index < starts[line + 1]
  {
    var low, high := 0, |starts| - 1;
    while low < high
      invariant 0 <= low <= high < |starts|
      invariant starts[low] <= index
      invariant high + 1 < |starts| ==> index < starts[high + 1]
    {
      var middle := (low + high + 1) / 2;
      if starts[middle] <= index {
        low := middle;
      } else {
        high := middle - 1;
      }
    }
    return low;
  }

  lemma FirstStart(s: string, starts: seq<nat>)
    requires StartsUpTo(s, |s|, starts)
    ensures starts[0] == 0
  {
    assert IsLineStart(s, 0) && 0 in starts;
    var k :| 0 <= k < |starts| && starts[k] == 0;
  }

  /** The last line start at or before an index has as many starts before it as there are newlines before the index. */
  lemma LineIsNewlineCount(s: string, starts: seq<nat>, i: nat, line: nat)
    requires i <= |s| && StartsUpTo(s, |s|, starts)
    requires line < |starts| && starts[line] <= i && (line + 1 < |starts| ==> i < starts[line + 1])
    ensures line == NewlinesBefore(s, i)
  {
    StartsCountNewlines(s, starts, line);
    forall x | starts[line] <= x < i ensures s[x] != '\n' {
      NoStartBetween(s, starts, line, x + 1);
    }
    NoNewlineNoCount(s, starts[line], i);
  }

  lemma NoStartBetween(s: string, starts: seq<nat>, k: nat, x: nat)
    requires StartsUpTo(s, |s|, starts) && k < |starts| && x <= |s|
    requires starts[k] < x && (k + 1 < |starts| ==> x < starts[k + 1])
    ensures !IsLineStart(s, x)
  {
  }

  lemma {:induction false} NoNewlineNoCount(s: string, a: nat, b: nat)
    requires a <= b <= |s| && forall x :: a <= x < b ==> s[x] != '\n'
    ensures NewlinesBefore(s, a) == NewlinesBefore(s, b)
    decreases b
  {
    if a < b { NoNewlineNoCount(s, a, b - 1); }
  }

  lemma {:induction false} StartsCountNewlines(s: string, starts: seq<nat>, k: nat)
    requires StartsUpTo(s, |s|, starts) && k < |starts|
    ensures NewlinesBefore(s, starts[k]) == k
  {
    FirstStart(s, starts);
    if k > 0 {
      StartsCountNewlines(s, starts, k - 1);
      var end := starts[k] - 1;
      assert IsLineStart(s, starts[k]);
      forall x | starts[k - 1] <= x < end ensures s[x] != '\n' {
        NoStartBetween(s, starts, k - 1, x + 1);
      }
      NoNewlineNoCount(s, starts[k - 1], end);
    }
  }

  // ----- reading the mutants

  // the finders

  /** The operators and words that have one replacement. */
  const FIXED: seq<(Token, string, string)> := [
    (Token("===", Listed("=!<>"), Listed("=")), "!==", "equality"),
    (Token("!==", ANY, ANY), "===", "inequality"),
    (Token(">=", Listed("=!<>"), ANY), ">", "at-least"),
    (Token(">", Listed("=!<>-"), Listed(">=")), ">=", "greater"),
    (Token("<=", Listed("<"), ANY), "<", "at-most"),
    (Token("<", Listed("<="), Listed("<=")), "<=", "less"),
    (Token("&&", ANY, ANY), "||", "and"),
    (Token("||", ANY, ANY), "&&", "or"),
    (Token("??", ANY, Listed("=")), "||", "nullish"),
    (Token("?.", ANY, Listed("0123456789")), ".", "optional-chain"),
    (Token("true", WORD, WORD), "false", "truthy"),
    (Token("false", WORD, WORD), "true", "falsy"),
    (Token("!", CharClass(true, "$)]"), Listed("=")), "", "negation")
  ]

  function Listed(chars: string): CharClass {
    CharClass(false, chars)
  }

  function Fixed(entry: (Token, string, string)): Finder {
    Pattern(Named(entry.2), Tokens([entry.0]), (text: string) => entry.1)
  }

  const CALL_TOKENS: seq<Token> := [
    Token("Math.min", WORD, WORD), Token("Math.max", WORD, WORD), Token("Math.floor", WORD, WORD),
    Token("Math.ceil", WORD, WORD), Token(".some", ANY, WORD), Token(".every", ANY, WORD)
  ]

  function CallSwap(text: string): string {
    if text == "Math.min" then "Math.max"
    else if text == "Math.max" then "Math.min"
    else if text == "Math.floor" then "Math.ceil"
    else if text == "Math.ceil" then "Math.floor"
    else if text == ".some" then ".every"
    else if text == ".every" then ".some"
    else text
  }

  /** `String(Number(text) + 1)`; the pattern matches runs of digits only. */
  function NextNumber(text: string): string {
    if Digits(text) then CountedUp(text) else text
  }

  const SITE_FINDERS: seq<Finder> :=
    seq(|FIXED|, i requires 0 <= i < |FIXED| => Fixed(FIXED[i]))
      + [Pattern(NumberLiteral, DigitRun, NextNumber), Pattern(Named("call-swap"), Tokens(CALL_TOKENS), CallSwap), Condition]

  predicate ByIndex(left: Mutant, right: Mutant) {
    left.site.index <= right.site.index
  }

  lemma ConditionsOpenParens(masked: string)
    ensures forall m :: m in MatchAll(IfParen, masked) ==> OpensParen(masked, m)
  {
    forall m | m in MatchAll(IfParen, masked) ensures OpensParen(masked, m) {
      MatchOpensParen(masked, m);
    }
  }

  function SitesOf(finder: Finder, masked: string, source: string): seq<Site> {
    match finder
    case Pattern(kind, shape, replacement) => PatternSitesOf(source, kind, MatchAll(shape, masked), replacement)
    case Condition =>
      ConditionsOpenParens(masked);
      ConditionSitesOf(masked, source, MatchAll(IfParen, masked))
  }

  method FindSites(finder: Finder, masked: string, source: string) returns (sites: seq<Site>)
    ensures sites == SitesOf(finder, masked, source)
  {
    match finder
    case Pattern(kind, shape, replacement) => sites := PatternSites(source, kind, MatchAll(shape, masked), replacement);
    case Condition =>
      ConditionsOpenParens(masked);
      sites := ConditionSites(masked, source, MatchAll(IfParen, masked));
  }

  lemma SitesAreReal(finder: Finder, masked: string, source: string)
    requires |masked| == |source|
    ensures forall site :: site in SitesOf(finder, masked, source) ==> Real(source, site)
  {
    match finder
    case Pattern(kind, shape, replacement) =>
      MatchesAreGenuine(shape, masked, 0);
      PatternSitesAreReal(source, kind, MatchAll(shape, masked), replacement);
    case Condition =>
      ConditionsOpenParens(masked);
      forall site | site in ConditionSitesOf(masked, source, MatchAll(IfParen, masked)) ensures Real(source, site) {
        ConditionSitesAreExact(masked, source, MatchAll(IfParen, masked), site);
      }
  }

  /** A mutant with the one-based line of its index. */
  function Numbered(source: string, site: Site): Mutant {
    Mutant(site, 1 + NewlinesBefore(source, site.index))
  }

  function AllMutants(finders: seq<Finder>, masked: string, source: string): seq<Mutant> {
    if finders == [] then []
    else
      var sites := SitesOf(finders[|finders| - 1], masked, source);
      AllMutants(finders[..|finders| - 1], masked, source)
        + seq(|sites|, k requires 0 <= k < |sites| => Numbered(source, sites[k]))
  }

  function MutantsOf(source: string): seq<Mutant> {
    Ordering.ToSorted(ByIndex, AllMutants(SITE_FINDERS, CodeMask.Masked(source, true), source))
  }

  /** Every site of every finder, with the newlines before it counted, sorted by index. */
  method ReadMutants(source: string) returns (mutants: seq<Mutant>)
    ensures mutants == MutantsOf(source)
  {
    mutants := ReadWith(source, SITE_FINDERS);
  }

  method ReadWith(source: string, finders: seq<Finder>) returns (mutants: seq<Mutant>)
    ensures mutants == Ordering.ToSorted(ByIndex, AllMutants(finders, CodeMask.Masked(source, true), source))
  {
    var masked := CodeMask.MaskCode(source, true);
    CodeMask.MaskedKeepsPositions(source, true);
    var starts := LineStarts(source);
    FirstStart(source, starts);
    var found: seq<Mutant> := [];
    for i := 0 to |finders|
      invariant found == AllMutants(finders[..i], masked, source)
    {
      assert finders[..i + 1][..i] == finders[..i];
      var sites := FindSites(finders[i], masked, source);
      SitesAreReal(finders[i], masked, source);
      var more := NumberSites(source, starts, sites);
      found := found + more;
    }
    assert finders[..|finders|] == finders;
    mutants := Ordering.ToSorted(ByIndex, found);
  }

  method NumberSites(source: string, starts: seq<nat>, sites: seq<Site>) returns (mutants: seq<Mutant>)
    requires StartsUpTo(source, |source|, starts) && starts[0] == 0
    requires forall site :: site in sites ==> Real(source, site)
    ensures mutants == seq(|sites|, k requires 0 <= k < |sites| => Numbered(source, sites[k]))
  {
    mutants := [];
    for i := 0 to |sites|
      invariant |mutants| == i && forall k :: 0 <= k < i ==> mutants[k] == Numbered(source, sites[k])
    {
      assert Real(source, sites[i]) && sites[i].index <= |source|;
      var line := LineIndexOf(starts, sites[i].index);
      LineIsNewlineCount(source, starts, sites[i].index, line);
      mutants := mutants + [Mutant(sites[i], line + 1)];
    }
  }

  lemma {:induction false} AllMutantsAreReal(finders: seq<Finder>, masked: string, source: string)
    requires |masked| == |source|
    ensures forall mutant :: mutant in AllMutants(finders, masked, source) ==>
      Real(source, mutant.site) && mutant == Numbered(source, mutant.site)
  {
    if finders != [] {
      AllMutantsAreReal(finders[..|finders| - 1], masked, source);
      SitesAreReal(finders[|finders| - 1], masked, source);
    }
  }

  /** Every mutant read is the source's own text at its index, can be taken out again, and comes in source order. */
  lemma MutantsAreReversible(source: string, mutant: Mutant)
    requires mutant in MutantsOf(source)
    ensures Real(source, mutant.site)
    ensures mutant.line == 1 + NewlinesBefore(source, mutant.site.index)
    ensures ApplyMutant(ApplyMutant(source, mutant.site), Swapped(mutant.site)) == source
    ensures forall j, k :: 0 <= j < k < |MutantsOf(source)| ==> MutantsOf(source)[j].site.index <= MutantsOf(source)[k].site.index
  {
    var masked := CodeMask.Masked(source, true);
    CodeMask.MaskedKeepsPositions(source, true);
    var all := AllMutants(SITE_FINDERS, masked, source);
    AllMutantsAreReal(SITE_FINDERS, masked, source);
    Ordering.SortKeepsEntries(ByIndex, all);
    Ordering.SortSorts(ByIndex, all);
    SwapUndoesMutant(source, mutant.site);
  }

  // ----- every mutant is a change, up to rounding

  /** A number that prints as it stands and loses the one added to it. */
  predicate RoundsBack(kind: Kind, text: string) {
    kind == NumberLiteral && Digits(text) && PrintsItself(text) && LosesOne(Read(text))
  }

  /** A finder replaces a match by itself only when a number rounds back. */
  ghost predicate Changes(finder: Finder) {
    finder.Pattern? ==> forall s, m :: m in MatchAll(finder.shape, s) ==>
      (finder.replacement(m.text) == m.text <==> RoundsBack(finder.kind, m.text))
  }

  lemma TokensChange(kind: Kind, alternatives: seq<Token>, replacement: string -> string)
    requires kind != NumberLiteral && forall token :: token in alternatives ==> replacement(token.text) != token.text
    ensures Changes(Pattern(kind, Tokens(alternatives), replacement))
  {
    forall s, m | m in MatchAll(Tokens(alternatives), s) ensures replacement(m.text) != m.text {
      MatchIsToken(alternatives, s, m);
    }
  }

  lemma NumbersChange()
    ensures Changes(Pattern(NumberLiteral, DigitRun, NextNumber))
  {
    forall s, m | m in MatchAll(DigitRun, s) ensures NextNumber(m.text) == m.text <==> RoundsBack(NumberLiteral, m.text) {
      MatchIsNumber(s, m);
      CountedUpIsSameIff(m.text);
    }
  }

  lemma SwapsChange(token: Token)
    requires token in CALL_TOKENS
    ensures CallSwap(token.text) != token.text
  {
  }

  lemma FinderChanges(i: nat)
    requires i < |SITE_FINDERS|
    ensures Changes(SITE_FINDERS[i])
  {
    var finder := SITE_FINDERS[i];
    if i == 13 {
      NumbersChange();
    } else if i == 14 {
      forall token | token in CALL_TOKENS ensures CallSwap(token.text) != token.text {
        SwapsChange(token);
      }
      TokensChange(finder.kind, CALL_TOKENS, CallSwap);
    } else if i < 13 {
      var token, after := FIXED[i].0, FIXED[i].1;
      assert finder == Fixed(FIXED[i]);
      TokensChange(finder.kind, [token], finder.replacement);
    }
  }

  /** The site puts something else in place of its text, unless that is a number that rounds back. */
  predicate Puts(site: Site) {
    site.after == site.before <==> RoundsBack(site.kind, site.before)
  }

  lemma {:induction false} PatternSitesChange(
      source: string, kind: Kind, matches: seq<Match>, replacement: string -> string)
    requires forall m :: m in matches ==> (replacement(m.text) == m.text <==> RoundsBack(kind, m.text))
    ensures forall site :: site in PatternSitesOf(source, kind, matches, replacement) ==> Puts(site)
  {
    if matches != [] { PatternSitesChange(source, kind, matches[..|matches| - 1], replacement); }
  }

  lemma SitesChange(finder: Finder, masked: string, source: string)
    requires |masked| == |source| && Changes(finder)
    ensures forall site :: site in SitesOf(finder, masked, source) ==> Puts(site)
  {
    match finder
    case Pattern(kind, shape, replacement) =>
      PatternSitesChange(source, kind, MatchAll(shape, masked), replacement);
    case Condition =>
      ConditionsOpenParens(masked);
      forall site | site in ConditionSitesOf(masked, source, MatchAll(IfParen, masked)) ensures Puts(site) {
        ConditionSitesAreExact(masked, source, MatchAll(IfParen, masked), site);
        assert |site.after| == |site.before| + 3;
      }
  }

  lemma {:induction false} MutantsChange(finders: seq<Finder>, masked: string, source: string)
    requires |masked| == |source| && forall i :: 0 <= i < |finders| ==> Changes(finders[i])
    ensures forall mutant :: mutant in AllMutants(finders, masked, source) ==> Puts(mutant.site)
  {
    if finders != [] {
      MutantsChange(finders[..|finders| - 1], masked, source);
      SitesChange(finders[|finders| - 1], masked, source);
    }
  }

  /** A mutant leaves the module as it is exactly when it is a number that rounds back. */
  lemma MutantIsAChangeIff(source: string, mutant: Mutant)
    requires mutant in MutantsOf(source)
    ensures ApplyMutant(source, mutant.site) == source <==> RoundsBack(mutant.site.kind, mutant.site.before)
  {
    var masked := CodeMask.Masked(source, true);
    CodeMask.MaskedKeepsPositions(source, true);
    forall i | 0 <= i < |SITE_FINDERS| ensures Changes(SITE_FINDERS[i]) {
      FinderChanges(i);
    }
    MutantsChange(SITE_FINDERS, masked, source);
    Ordering.SortKeepsEntries(ByIndex, AllMutants(SITE_FINDERS, masked, source));
    MutantsAreReversible(source, mutant);
    MutantChangesText(source, mutant.site);
  }

  // ----- mutants lie in code

  predicate NoBlank(text: string) {
    ' ' !in text && '\n' !in text
  }

  /** What a pattern matches holds no blank. */
  ghost predicate SeesNoBlank(finder: Finder) {
    finder.Pattern? ==> finder.kind != IfNegation && forall s, m :: m in MatchAll(finder.shape, s) ==> NoBlank(m.text)
  }

  lemma TokensSeeNoBlank(alternatives: seq<Token>)
    requires forall token :: token in alternatives ==> NoBlank(token.text)
    ensures forall s, m :: m in MatchAll(Tokens(alternatives), s) ==> NoBlank(m.text)
  {
    forall s, m | m in MatchAll(Tokens(alternatives), s) ensures NoBlank(m.text) {
      MatchIsToken(alternatives, s, m);
    }
  }

  lemma NumbersSeeNoBlank()
    ensures forall s, m :: m in MatchAll(DigitRun, s) ==> NoBlank(m.text)
  {
    forall s, m | m in MatchAll(DigitRun, s) ensures NoBlank(m.text) {
      MatchIsNumber(s, m);
    }
  }

  lemma FinderSeesNoBlank(i: nat)
    requires i < |SITE_FINDERS|
    ensures SeesNoBlank(SITE_FINDERS[i])
  {
    if i == 13 {
      NumbersSeeNoBlank();
    } else if i == 14 {
      CallsHaveNoBlank();
      TokensSeeNoBlank(CALL_TOKENS);
    } else if i < 13 {
      FixedHasNoBlank(i);
      assert SITE_FINDERS[i] == Fixed(FIXED[i]);
      TokensSeeNoBlank([FIXED[i].0]);
    }
  }

  lemma FixedHasNoBlank(i: nat)
    requires i < |FIXED|
    ensures NoBlank(FIXED[i].0.text)
  {
  }

  lemma CallHasNoBlank(i: nat)
    requires i < |CALL_TOKENS|
    ensures NoBlank(CALL_TOKENS[i].text)
  {
  }

  lemma CallsHaveNoBlank()
    ensures forall token :: token in CALL_TOKENS ==> NoBlank(token.text)
  {
    forall i | 0 <= i < |CALL_TOKENS| ensures NoBlank(CALL_TOKENS[i].text) {
      CallHasNoBlank(i);
    }
  }

  /** What the site replaces stands visibly in the masked text; of a condition, the parenthesis before it. */
  predicate StaysVisible(masked: string, site: Site) {
    if site.kind == IfNegation then site.index > 0 && At(masked, site.index - 1, "(")
    else At(masked, site.index, site.before) && NoBlank(site.before)
  }

  lemma {:induction false} PatternSitesStay(source: string, masked: string, kind: Kind, matches: seq<Match>, replacement: string -> string)
    requires kind != IfNegation && forall m :: m in matches ==> At(masked, m.index, m.text) && NoBlank(m.text)
    ensures forall site :: site in PatternSitesOf(source, kind, matches, replacement) ==> StaysVisible(masked, site)
  {
    if matches != [] { PatternSitesStay(source, masked, kind, matches[..|matches| - 1], replacement); }
  }

  lemma SitesStayVisible(finder: Finder, masked: string, source: string)
    requires |masked| == |source| && SeesNoBlank(finder)
    ensures forall site :: site in SitesOf(finder, masked, source) ==> StaysVisible(masked, site)
  {
    match finder
    case Pattern(kind, shape, replacement) =>
      MatchesAreGenuine(shape, masked, 0);
      PatternSitesStay(source, masked, kind, MatchAll(shape, masked), replacement);
    case Condition =>
      ConditionsOpenParens(masked);
      forall site | site in ConditionSitesOf(masked, source, MatchAll(IfParen, masked)) ensures StaysVisible(masked, site) {
        ConditionSitesAreExact(masked, source, MatchAll(IfParen, masked), site);
      }
  }

  lemma {:induction false} MutantsStayVisible(finders: seq<Finder>, masked: string, source: string)
    requires |masked| == |source| && forall i :: 0 <= i < |finders| ==> SeesNoBlank(finders[i])
    ensures forall mutant :: mutant in AllMutants(finders, masked, source) ==> StaysVisible(masked, mutant.site)
  {
    if finders != [] {
      MutantsStayVisible(finders[..|finders| - 1], masked, source);
      SitesStayVisible(finders[|finders| - 1], masked, source);
    }
  }

  predicate LiesInCode(spans: seq<CodeMask.Span>, site: Site) {
    if site.kind == IfNegation then site.index > 0 && !CodeMask.InSpan(spans, site.index - 1)
    else forall k: nat :: site.index <= k < site.index + |site.before| ==> !CodeMask.InSpan(spans, k)
  }

  /** What a mutant replaces lies in no comment and no literal; of a condition, the parenthesis that opens it. */
  lemma MutantsLieInCode(source: string, mutant: Mutant)
    requires mutant in MutantsOf(source)
    ensures LiesInCode(CodeMask.ScanCode(source, 0, 0, "", false).spans, mutant.site)
  {
    var masked, site := CodeMask.Masked(source, true), mutant.site;
    CodeMask.MaskedKeepsPositions(source, true);
    forall i | 0 <= i < |SITE_FINDERS| ensures SeesNoBlank(SITE_FINDERS[i]) {
      FinderSeesNoBlank(i);
    }
    MutantsStayVisible(SITE_FINDERS, masked, source);
    Ordering.SortKeepsEntries(ByIndex, AllMutants(SITE_FINDERS, masked, source));
    VisibleIsCode(source, site);
  }

  lemma VisibleIsCode(source: string, site: Site)
    requires StaysVisible(CodeMask.Masked(source, true), site)
    ensures LiesInCode(CodeMask.ScanCode(source, 0, 0, "", false).spans, site)
  {
    var masked := CodeMask.Masked(source, true);
    if site.kind == IfNegation {
      assert masked[site.index - 1..site.index][0] == '(';
      CodeMask.KeptIsInNoSpan(source, site.index - 1);
    } else {
      forall k | site.index <= k < site.index + |site.before|
        ensures !CodeMask.InSpan(CodeMask.ScanCode(source, 0, 0, "", false).spans, k)
      {
        assert masked[k] == site.before[k - site.index];
        CodeMask.KeptIsInNoSpan(source, k);
      }
    }
  }

  /** The masker's words are made of the patterns' word characters and dollar signs. */
  lemma WordsAgree(c: char)
    ensures CodeMask.IsWord(c) <==> WordChar(c) || c == '$'
  {
  }

  // ----- what replaces what

  /** Where the strict comparisons are found: not inside an arrow, a shift, or another comparison, whatever else stands beside. */
  lemma StrictComparisonsFitIff(s: string, i: nat)
    requires i < |s|
    ensures LengthAt(Tokens([FIXED[3].0]), s, i) > 0 <==> s[i] == '>' && Free(s, i - 1, false, "=!<>-") && Free(s, i + 1, false, ">=")
    ensures LengthAt(Tokens([FIXED[5].0]), s, i) > 0 <==> s[i] == '<' && Free(s, i - 1, false, "<=") && Free(s, i + 1, false, "<=")
  {
    TokenFitsIff(FIXED[3].0, s, i);
    TokenFitsIff(FIXED[5].0, s, i);
  }

  /** Neighbours in the lists of replacements. */
  function Partner(i: nat): nat {
    if i % 2 == 0 then i + 1 else i - 1
  }

  /** Comparisons, connectives and truth values are replaced in pairs: replaced twice, each is itself again. */
  lemma ReplacementsPairUp(i: nat)
    requires i < 8 || i == 10 || i == 11
    ensures FIXED[i].1 == FIXED[Partner(i)].0.text && FIXED[Partner(i)].1 == FIXED[i].0.text
  {
  }

  /** So are the calls. */
  lemma CallsPairUp(i: nat)
    requires i < |CALL_TOKENS|
    ensures CallSwap(CALL_TOKENS[i].text) == CALL_TOKENS[Partner(i)].text
    ensures CallSwap(CallSwap(CALL_TOKENS[i].text)) == CALL_TOKENS[i].text
  {
  }

  /** A site some finder proposes is among the mutants of all finders. */
  lemma {:induction false} FoundByOne(finders: seq<Finder>, masked: string, source: string, i: nat, site: Site)
    requires i < |finders| && site in SitesOf(finders[i], masked, source)
    ensures Numbered(source, site) in AllMutants(finders, masked, source)
  {
    var rest, sites := finders[..|finders| - 1], SitesOf(finders[|finders| - 1], masked, source);
    if i < |rest| {
      assert rest[i] == finders[i];
      FoundByOne(rest, masked, source, i, site);
    } else {
      var k :| 0 <= k < |sites| && sites[k] == site;
      assert seq(|sites|, n requires 0 <= n < |sites| => Numbered(source, sites[n]))[k] == Numbered(source, site);
    }
  }

  /** A source that is one number has the mutant that counts it up. */
  lemma OneNumber(source: string) returns (mutant: Mutant)
    requires source != "" && Digits(source)
    ensures mutant in MutantsOf(source)
    ensures mutant.site == Site(NumberLiteral, 0, source, NextNumber(source))
  {
    CodeMask.PlainCodeIsKept(source, true);
    assert DigitEnd(source, 0) == |source|;
    var m := NoMatchIsMissed(DigitRun, source, 0);
    MatchesAreGenuine(DigitRun, source, 0);
    assert m == Match(0, source);
    var finder := SITE_FINDERS[13];
    UnblankedMatchesAreSites(source, NumberLiteral, MatchAll(DigitRun, source), finder.replacement, m);
    mutant := Numbered(source, Site(NumberLiteral, 0, source, NextNumber(source)));
    FoundByOne(SITE_FINDERS, source, source, 13, mutant.site);
    Ordering.SortKeepsEntries(ByIndex, AllMutants(SITE_FINDERS, source, source));
  }

  /** 2^53 is such a number, since its successor rounds to the even neighbour: the module mutated there is the module. */
  lemma RoundedNumberStays() returns (mutant: Mutant)
    ensures mutant in MutantsOf(Decimal(TWO_53)) && ApplyMutant(Decimal(TWO_53), mutant.site) == Decimal(TWO_53)
  {
    FirstLostOne(TWO_53);
    mutant := OneNumber(Decimal(TWO_53));
    MutantChangesText(Decimal(TWO_53), mutant.site);
  }

  // ----- sampling

  /** The mutant taken for a slot. */
  function Pick(slot: nat, count: nat, limit: nat): nat
    requires limit > 0
  {
    slot * count / limit
  }

  lemma PickIsInside(slot: nat, count: nat, limit: nat)
    requires slot < limit && count > 0
    ensures Pick(slot, count, limit) < count
  {
    Quotient(slot * count, limit);
    FewerTimes(slot, limit, count);
    Cancel(limit, Pick(slot, count, limit), count);
  }

  lemma FewerTimes(slot: nat, limit: nat, count: nat)
    requires slot < limit && count > 0
    ensures slot * count < limit * count
  {
  }

  /** Neighbouring picks are `count / limit` or one more apart. */
  lemma PicksAreEven(slot: nat, count: nat, limit: nat)
    requires limit > 0
    ensures count / limit <= Pick(slot + 1, count, limit) - Pick(slot, count, limit) <= count / limit + 1
  {
    var a := slot * count;
    assert (slot + 1) * count == a + count;
    DividedSum(a, count, limit);
  }

  lemma DividedSum(a: nat, b: nat, limit: nat)
    requires limit > 0
    ensures a / limit + b / limit <= (a + b) / limit <= a / limit + b / limit + 1
  {
    Quotient(a, limit);
    Quotient(b, limit);
    Quotient(a + b, limit);
    QuotientOfSum(a, b, limit, a / limit, b / limit, (a + b) / limit);
  }

  lemma QuotientOfSum(a: nat, b: nat, limit: nat, p: nat, q: nat, d: nat)
    requires limit > 0 && limit * p <= a < limit * p + limit && limit * q <= b < limit * q + limit
    requires limit * d <= a + b < limit * d + limit
    ensures p + q <= d <= p + q + 1
  {
    assert limit * (p + q) == limit * p + limit * q;
    assert limit * (d + 1) == limit * d + limit;
    assert limit * (p + q + 2) == limit * (p + q) + 2 * limit;
    Cancel(limit, p + q, d + 1);
    Cancel(limit, d, p + q + 2);
  }

  /** The mutants picked for the first `n` slots. */
  function Picked(mutants: seq<Mutant>, limit: nat, n: nat): (r: seq<Mutant>)
    requires n <= limit < |mutants|
    ensures |r| == n
  {
    if n == 0 then []
    else
      PickIsInside(n - 1, |mutants|, limit);
      Picked(mutants, limit, n - 1) + [mutants[Pick(n - 1, |mutants|, limit)]]
  }

  method SampleEvenly(mutants: seq<Mutant>, limit: nat) returns (sample: seq<Mutant>)
    ensures |mutants| <= limit ==> sample == mutants
    ensures limit < |mutants| ==> sample == Picked(mutants, limit, limit)
  {
    if |mutants| <= limit { return mutants; }
    sample := [];
    for slot := 0 to limit
      invariant sample == Picked(mutants, limit, slot)
    {
      PickIsInside(slot, |mutants|, limit);
      sample := sample + [mutants[Pick(slot, |mutants|, limit)]];
    }
  }

  lemma {:induction false} PickedAt(mutants: seq<Mutant>, limit: nat, n: nat, slot: nat)
    requires slot < n <= limit < |mutants|
    ensures Pick(slot, |mutants|, limit) < |mutants|
    ensures Picked(mutants, limit, n)[slot] == mutants[Pick(slot, |mutants|, limit)]
    decreases n
  {
    PickIsInside(slot, |mutants|, limit);
    if slot < n - 1 { PickedAt(mutants, limit, n - 1, slot); }
  }

  /** A sample smaller than the module takes distinct mutants in source order, at least `count / limit` apart. */
  lemma {:induction false} PicksIncrease(a: nat, b: nat, count: nat, limit: nat)
    requires 0 < limit < count && a < b
    ensures Pick(a, count, limit) + (b - a) * (count / limit) <= Pick(b, count, limit)
    ensures Pick(a, count, limit) < Pick(b, count, limit)
    decreases b
  {
    PicksAreEven(b - 1, count, limit);
    Step(b - 1 - a, count / limit);
    AtLeastOne(count, limit);
    if a < b - 1 { PicksIncrease(a, b - 1, count, limit); }
  }

  lemma Step(n: nat, size: nat)
    ensures (n + 1) * size == n * size + size
  {
  }

  lemma AtLeastOne(count: nat, limit: nat)
    requires 0 < limit <= count
    ensures count / limit >= 1
  {
  }
}
