/**
 What the masker takes for a literal, said of the text alone: where a quoted text, a regular expression and a stretch of
 template text begin and end, where a regular expression may stand, and which brace closes a substitution.
 */
module MaskLiterals {
  import opened Text
  import opened CodeMask
  import opened Folding

  // ----- escapes

  /** How many backslashes stand right before `k`, counted back to `from`. */
  function Backslashes(s: string, from: nat, k: nat): nat
    requires k <= |s|
  {
    if k <= from || s[k - 1] != '\\' then 0 else 1 + Backslashes(s, from, k - 1)
  }

  /** An odd number of backslashes: the last of them takes the character at `k` along. */
  predicate Escaped(s: string, from: nat, k: nat)
    requires k <= |s|
  {
    Backslashes(s, from, k) % 2 == 1
  }

  lemma NextEscape(s: string, from: nat, k: nat)
    requires from <= k < |s| && !Escaped(s, from, k)
    ensures s[k] != '\\' ==> !Escaped(s, from, k + 1)
    ensures s[k] == '\\' ==> Escaped(s, from, k + 1)
    ensures s[k] == '\\' && k + 2 <= |s| ==> !Escaped(s, from, k + 2)
  {
  }

  // ----- quoted texts

  /** The quoted text that opens at `from` cannot go on past `k`: its own quote, or a line break, unescaped. */
  predicate QuoteStops(s: string, from: nat, k: nat)
    requires from < |s| && k < |s|
  {
    (s[k] == s[from] || s[k] == '\n') && !Escaped(s, from + 1, k)
  }

  predicate QuoteRunsTo(s: string, from: nat, k: nat)
    requires from < |s| && k <= |s|
  {
    forall j :: from < j < k ==> !QuoteStops(s, from, j)
  }

  /** From a quote past the first unescaped quote of its kind, or up to an unescaped line break or the end before that. */
  predicate IsQuoted(s: string, from: nat, to: nat) {
    && from < to <= |s| && (s[from] == '"' || s[from] == '\'')
    && if to - 1 > from && QuoteStops(s, from, to - 1)
       then s[to - 1] != '\n' && QuoteRunsTo(s, from, to - 1)
       else QuoteRunsTo(s, from, to) && (to == |s| || (s[to] == '\n' && QuoteStops(s, from, to)))
  }

  lemma QuotedEndsOnce(s: string, from: nat, a: nat, b: nat)
    requires IsQuoted(s, from, a) && IsQuoted(s, from, b)
    ensures a == b
  {
  }

  lemma {:induction false} QuotedEndIsExact(s: string, from: nat, i: nat)
    requires from < |s| && (s[from] == '"' || s[from] == '\'') && from < i
    requires i <= |s| ==> QuoteRunsTo(s, from, i) && !Escaped(s, from + 1, i)
    requires i > |s| ==> QuoteRunsTo(s, from, |s|)
    ensures IsQuoted(s, from, QuotedEnd(s, s[from], i))
    decreases |s| + 2 - i
  {
    if i < |s| {
      NextEscape(s, from + 1, i);
      if s[i] == '\\' {
        QuotedEndIsExact(s, from, i + 2);
      } else if s[i] != s[from] && s[i] != '\n' {
        QuotedEndIsExact(s, from, i + 1);
      }
    }
  }

  // ----- regular expressions

  /** A class is open at `k`: the last unescaped bracket since `from` is an opening one. */
  predicate InClass(s: string, from: nat, k: nat)
    requires k <= |s|
  {
    exists m: nat :: from <= m < k && s[m] == '[' && !Escaped(s, from, m)
      && forall j :: m < j < k && s[j] == ']' ==> Escaped(s, from, j)
  }

  /** The regular expression that opens at `from` cannot go on past `k`: a slash outside a class, or a line break, unescaped. */
  predicate RegexStops(s: string, from: nat, k: nat)
    requires k < |s|
  {
    !Escaped(s, from + 1, k) && (s[k] == '\n' || (s[k] == '/' && !InClass(s, from + 1, k)))
  }

  predicate RegexRunsTo(s: string, from: nat, k: nat)
    requires k <= |s|
  {
    forall j :: from < j < k ==> !RegexStops(s, from, j)
  }

  /** `[slash, to)` is the closing slash and all the flags after it. */
  predicate SlashAndFlags(s: string, slash: nat, to: nat) {
    && slash < to <= |s| && s[slash] == '/' && (forall k :: slash < k < to ==> IsWord(s[k]))
    && (to == |s| || !IsWord(s[to]))
  }

  /** From a slash past the first slash that closes it and its flags, or up to a line break or the end before that. */
  predicate IsRegex(s: string, from: nat, to: nat) {
    && from < to <= |s| && s[from] == '/'
    && (|| (exists slash: nat :: from < slash < to && RegexRunsTo(s, from, slash) && RegexStops(s, from, slash)
              && SlashAndFlags(s, slash, to))
        || (RegexRunsTo(s, from, to) && (to == |s| || (s[to] == '\n' && RegexStops(s, from, to)))))
  }

  lemma RegexEndsOnce(s: string, from: nat, a: nat, b: nat)
    requires IsRegex(s, from, a) && IsRegex(s, from, b)
    ensures a == b
  {
  }

  lemma NextClass(s: string, from: nat, k: nat)
    requires from <= k < |s| && !Escaped(s, from, k)
    ensures s[k] == '[' ==> InClass(s, from, k + 1)
    ensures s[k] == ']' ==> !InClass(s, from, k + 1)
    ensures s[k] != '[' && s[k] != ']' ==> (InClass(s, from, k + 1) <==> InClass(s, from, k))
  {
    if s[k] == '[' { assert from <= k < k + 1; }
    if s[k] != '[' && s[k] != ']' && InClass(s, from, k) {
      var m: nat :| from <= m < k && s[m] == '[' && !Escaped(s, from, m)
        && forall j :: m < j < k && s[j] == ']' ==> Escaped(s, from, j);
      assert m < k + 1;
    }
  }

  lemma ClassAfterEscape(s: string, from: nat, k: nat)
    requires from <= k && k + 2 <= |s| && !Escaped(s, from, k) && s[k] == '\\'
    ensures InClass(s, from, k + 2) <==> InClass(s, from, k)
  {
    NextEscape(s, from, k);
    if InClass(s, from, k) {
      var m: nat :| from <= m < k && s[m] == '[' && !Escaped(s, from, m)
        && forall j :: m < j < k && s[j] == ']' ==> Escaped(s, from, j);
      assert m < k + 2;
    }
  }

  predicate RegexState(s: string, from: nat, i: nat, inClass: bool)
    requires from < |s|
  {
    if i <= |s| then RegexRunsTo(s, from, i) && !Escaped(s, from + 1, i) && (inClass <==> InClass(s, from + 1, i))
    else RegexRunsTo(s, from, |s|)
  }

  lemma RegexGoesOn(s: string, from: nat, i: nat, inClass: bool)
    requires from < i < |s| && RegexState(s, from, i, inClass)
    ensures s[i] == '\\' ==> RegexState(s, from, i + 2, inClass)
    ensures s[i] == '[' ==> RegexState(s, from, i + 1, true)
    ensures s[i] == ']' ==> RegexState(s, from, i + 1, false)
    ensures s[i] !in "\\[]\n" && (s[i] == '/' ==> inClass) ==> RegexState(s, from, i + 1, inClass)
    ensures s[i] == '\n' || (s[i] == '/' && !inClass) ==> RegexStops(s, from, i)
  {
    NextEscape(s, from + 1, i);
    NextClass(s, from + 1, i);
    if s[i] == '\\' && i + 2 <= |s| { ClassAfterEscape(s, from + 1, i); }
  }

  lemma SlashCloses(s: string, from: nat, i: nat)
    requires from < i < |s| && s[from] == '/' && s[i] == '/' && RegexRunsTo(s, from, i) && RegexStops(s, from, i)
    ensures IsRegex(s, from, WordEnd(s, i + 1))
  {
    WordEndIsMaximal(s, i + 1);
    assert SlashAndFlags(s, i, WordEnd(s, i + 1));
  }

  lemma {:induction false} RegexEndIsExact(s: string, from: nat, i: nat, inClass: bool)
    requires from < |s| && s[from] == '/' && from < i && RegexState(s, from, i, inClass)
    ensures IsRegex(s, from, RegexEnd(s, i, inClass))
    decreases |s| + 2 - i
  {
    if i < |s| {
      RegexGoesOn(s, from, i, inClass);
      if s[i] == '/' && !inClass {
        SlashCloses(s, from, i);
      } else if s[i] != '\n' {
        var next: nat := if s[i] == '\\' then i + 2 else i + 1;
        RegexEndIsExact(s, from, next, if s[i] == '[' then true else if s[i] == ']' then false else inClass);
      }
    }
  }

  lemma {:induction false} WordEndIsMaximal(s: string, i: nat)
    requires i <= |s|
    ensures WordEnd(s, i) == |s| || !IsWord(s[WordEnd(s, i)])
    decreases |s| - i
  {
    if i < |s| && IsWord(s[i]) { WordEndIsMaximal(s, i + 1); }
  }

  // ----- template text

  /** Template text that is read from `start` cannot go on past `k`: a backtick, or a dollar and a brace, unescaped. */
  predicate TextStops(s: string, start: nat, k: nat)
    requires k < |s|
  {
    !Escaped(s, start, k) && (s[k] == '`' || StartsWith(s, k, '$', '{'))
  }

  predicate TextRunsTo(s: string, start: nat, k: nat)
    requires k <= |s|
  {
    forall j :: start <= j < k ==> !TextStops(s, start, j)
  }

  predicate ClosedByBacktick(s: string, start: nat, to: nat) {
    start < to <= |s| && s[to - 1] == '`' && !Escaped(s, start, to - 1) && TextRunsTo(s, start, to - 1)
  }

  predicate StoppedBySubstitution(s: string, start: nat, to: nat) {
    start <= to < |s| && StartsWith(s, to, '$', '{') && !Escaped(s, start, to) && TextRunsTo(s, start, to)
  }

  /** Text read from `start`: past the first backtick, or up to the first substitution, or to the end of the source. */
  predicate IsText(s: string, start: nat, to: nat) {
    ClosedByBacktick(s, start, to) || StoppedBySubstitution(s, start, to) || (start <= to == |s| && TextRunsTo(s, start, to))
  }

  lemma TextEndsOnce(s: string, start: nat, a: nat, b: nat)
    requires IsText(s, start, a) && IsText(s, start, b)
    ensures a == b
  {
    if ClosedByBacktick(s, start, a) { assert TextStops(s, start, a - 1); }
    if ClosedByBacktick(s, start, b) { assert TextStops(s, start, b - 1); }
    if StoppedBySubstitution(s, start, a) { assert TextStops(s, start, a); }
    if StoppedBySubstitution(s, start, b) { assert TextStops(s, start, b); }
  }

  /** A stretch of a template: after its backtick, or after the brace that closes a substitution. */
  predicate IsTemplateText(s: string, from: nat, to: nat) {
    || (from < |s| && s[from] == '`' && IsText(s, from + 1, to))
    || (0 < from <= |s| && s[from - 1] == '}' && IsText(s, from, to))
    || from == to == |s|
  }

  /** The template read from `start` is text, and after a substitution again text, from where the substitution ends. */
  ghost predicate IsTemplate(s: string, from: nat, start: nat, scan: Scan)
    requires from <= start
    decreases |s| + 1 - start
  {
    exists to: nat :: from <= to && IsText(s, start, to) &&
      if StoppedBySubstitution(s, start, to) then
        var code := ScanCode(s, to + 2, 0, "", true);
        exists rest :: IsTemplate(s, code.end, code.end, rest) && scan == After([Span(from, to, true)] + code.spans, rest)
      else scan == Scan([Span(from, to, true)], to)
  }

  lemma {:induction false} TemplateIsExact(s: string, from: nat, start: nat, i: nat)
    requires from <= start <= |s| && start <= i
    requires i <= |s| ==> TextRunsTo(s, start, i) && !Escaped(s, start, i)
    requires i > |s| ==> TextRunsTo(s, start, |s|)
    ensures IsTemplate(s, from, start, ScanTemplate(s, from, i))
    decreases |s| + 2 - i
  {
    var scan := ScanTemplate(s, from, i);
    if i >= |s| {
      assert IsText(s, start, |s|) && !StoppedBySubstitution(s, start, |s|);
    } else {
      NextEscape(s, start, i);
      if s[i] == '\\' {
        TemplateIsExact(s, from, start, i + 2);
      } else if s[i] == '`' {
        assert ClosedByBacktick(s, start, i + 1) && IsText(s, start, i + 1);
        assert TextStops(s, start, i) && !StoppedBySubstitution(s, start, i + 1);
      } else if StartsWith(s, i, '$', '{') {
        var code := ScanCode(s, i + 2, 0, "", true);
        var rest := ScanTemplate(s, code.end, code.end);
        assert StoppedBySubstitution(s, start, i) && IsText(s, start, i);
        TemplateIsExact(s, code.end, code.end, code.end);
        assert scan == After([Span(from, i, true)] + code.spans, rest);
      } else {
        TemplateIsExact(s, from, start, i + 1);
      }
    }
  }

  // ----- where a regular expression may stand

  predicate InComment(spans: seq<Span>, k: nat) {
    exists j :: 0 <= j < |spans| && !spans[j].isLiteral && spans[j].from <= k < spans[j].to
  }

  /** A comment, or white space in code. */
  predicate Skipped(s: string, spans: seq<Span>, k: nat)
    requires k < |s|
  {
    InComment(spans, k) || (!InSpan(spans, k) && IsSpace(s[k]))
  }

  /** What stands last before `i`, comments and white space aside. */
  predicate StandsLast(s: string, spans: seq<Span>, p: nat, i: nat)
    requires i <= |s|
  {
    p < i && !Skipped(s, spans, p) && forall k :: p < k < i ==> Skipped(s, spans, k)
  }

  /** A run of word characters that does not go on to the left. */
  predicate WholeWord(s: string, from: nat, to: nat) {
    from < to <= |s| && (forall k :: from <= k < to ==> IsWord(s[k])) && (from == 0 || !IsWord(s[from - 1]))
  }

  /** The whole word that ends at `e` is a keyword after which an expression starts. */
  predicate KeywordBefore(s: string, e: nat)
    requires e <= |s|
  {
    exists w :: 0 <= w < e && WholeWord(s, w, e) && s[w..e] in EXPRESSION_START_KEYWORDS
  }

  /** Code at `p` after which an expression starts: such a keyword, or such a punctuation mark; never a literal. */
  predicate OpensExpression(s: string, spans: seq<Span>, p: nat)
    requires p < |s|
  {
    !InSpan(spans, p) && if IsWord(s[p]) then KeywordBefore(s, p + 1) else [s[p]] in EXPRESSION_START_PUNCTUATION
  }

  /** Nothing stands before `i`, or something after which an expression starts. */
  predicate MayStartAt(s: string, spans: seq<Span>, i: nat)
    requires i <= |s|
  {
    forall p: nat :: p < i && StandsLast(s, spans, p, i) ==> OpensExpression(s, spans, p)
  }

  /** All spans end by `i`. */
  predicate Ahead(spans: seq<Span>, i: nat) {
    forall j :: 0 <= j < |spans| ==> spans[j].from <= spans[j].to <= i
  }

  /** The word the scan carries decides as the text before `i` does. */
  predicate PreviousFits(s: string, spans: seq<Span>, i: nat, previous: string) {
    i < |s| ==> (RegexMayStart(previous) <==> MayStartAt(s, spans, i))
  }

  /** No word is cut in two at `i`. */
  predicate AtBoundary(s: string, i: nat) {
    0 < i < |s| ==> !IsWord(s[i - 1]) || !IsWord(s[i])
  }

  lemma WordIsNoPunctuation(word: string)
    requires word != "" && IsWord(word[0])
    ensures word !in EXPRESSION_START_PUNCTUATION
  {
  }

  lemma MarkIsNoKeyword(c: char)
    requires !IsWord(c)
    ensures [c] !in EXPRESSION_START_KEYWORDS
  {
  }

  lemma NothingAhead(spans: seq<Span>, i: nat, k: nat)
    requires Ahead(spans, i) && i <= k
    ensures !InSpan(spans, k) && !InComment(spans, k)
  {
  }

  lemma SpanAdded(spans: seq<Span>, span: Span, k: nat)
    ensures InSpan(spans + [span], k) <==> InSpan(spans, k) || span.from <= k < span.to
    ensures InComment(spans + [span], k) <==> InComment(spans, k) || (!span.isLiteral && span.from <= k < span.to)
  {
    if InSpan(spans, k) {
      var j :| 0 <= j < |spans| && spans[j].from <= k < spans[j].to;
      assert (spans + [span])[j] == spans[j];
    }
    if InComment(spans, k) {
      var j :| 0 <= j < |spans| && !spans[j].isLiteral && spans[j].from <= k < spans[j].to;
      assert (spans + [span])[j] == spans[j];
    }
    assert (spans + [span])[|spans|] == span;
  }

  /** If nothing but skipped text lies between `i` and `e`, an expression may start at both or at neither. */
  lemma SkippingKeeps(s: string, spans: seq<Span>, now: seq<Span>, i: nat, e: nat)
    requires i <= e <= |s|
    requires forall k :: 0 <= k < i ==> (Skipped(s, now, k) <==> Skipped(s, spans, k)) && (InSpan(now, k) <==> InSpan(spans, k))
    requires forall k :: i <= k < e ==> Skipped(s, now, k)
    ensures MayStartAt(s, now, e) <==> MayStartAt(s, spans, i)
  {
    forall p: nat | p < i ensures StandsLast(s, now, p, e) <==> StandsLast(s, spans, p, i) {
      if StandsLast(s, now, p, e) {
        forall k | p < k < i ensures Skipped(s, spans, k) { assert Skipped(s, now, k); }
      }
      if StandsLast(s, spans, p, i) {
        forall k | p < k < e ensures Skipped(s, now, k) { assert k < i ==> Skipped(s, spans, k); }
      }
    }
  }

  /** What stands right before `e` decides. */
  lemma LastDecides(s: string, spans: seq<Span>, e: nat)
    requires 0 < e <= |s| && !Skipped(s, spans, e - 1)
    ensures MayStartAt(s, spans, e) <==> OpensExpression(s, spans, e - 1)
  {
    assert StandsLast(s, spans, e - 1, e);
  }

  /** A literal span is a quoted text, a regular expression where one may stand, or a stretch of a template. */
  predicate LiteralFits(s: string, spans: seq<Span>, j: nat)
    requires j < |spans|
  {
    spans[j].isLiteral ==>
      || IsQuoted(s, spans[j].from, spans[j].to)
      || (IsRegex(s, spans[j].from, spans[j].to) && MayStartAt(s, spans[..j], spans[j].from))
      || IsTemplateText(s, spans[j].from, spans[j].to)
  }

  predicate LiteralsFit(s: string, spans: seq<Span>) {
    forall j :: 0 <= j < |spans| ==> LiteralFits(s, spans, j)
  }

  /** The slash at `k` is left in place: no expression may start there, by what stands before it. */
  predicate SlashDivides(s: string, spans: seq<Span>, k: nat)
    requires k < |s|
  {
    exists j :: 0 <= j <= |spans| && Ahead(spans[..j], k) && (forall m :: j <= m < |spans| ==> k < spans[m].from)
      && !MayStartAt(s, spans[..j], k)
  }

  predicate SlashesDivide(s: string, spans: seq<Span>, i: nat) {
    forall k: nat :: k < i && k < |s| && s[k] == '/' && !InSpan(spans, k) ==> SlashDivides(s, spans, k)
  }

  /** The account of the text before `i`. Folded until `Key(true)` is mentioned. */
  ghost predicate Accounted(s: string, spans: seq<Span>, i: nat) {
    forall u {:trigger Key(u)} :: Key(u) ==>
      Ahead(spans, i) && LiteralsFit(s, spans) && SlashesDivide(s, spans, i)
  }

  lemma LiteralsFitAppend(s: string, spans: seq<Span>, span: Span)
    requires LiteralsFit(s, spans) && LiteralFits(s, spans + [span], |spans|)
    ensures LiteralsFit(s, spans + [span])
  {
    forall j | 0 <= j < |spans| ensures LiteralFits(s, spans + [span], j) {
      assert (spans + [span])[..j] == spans[..j] && LiteralFits(s, spans, j);
    }
  }

  lemma SlashesDivideAppend(s: string, spans: seq<Span>, span: Span, i: nat)
    requires Ahead(spans, i) && SlashesDivide(s, spans, i) && i == span.from <= span.to
    ensures SlashesDivide(s, spans + [span], span.to)
  {
    var now := spans + [span];
    forall k: nat | k < span.to && k < |s| && s[k] == '/' && !InSpan(now, k) ensures SlashDivides(s, now, k) {
      SpanAdded(spans, span, k);
      assert SlashDivides(s, spans, k);
      var j :| 0 <= j <= |spans| && Ahead(spans[..j], k) && (forall m :: j <= m < |spans| ==> k < spans[m].from)
        && !MayStartAt(s, spans[..j], k);
      assert now[..j] == spans[..j];
    }
  }

  lemma SpanAccounted(s: string, spans: seq<Span>, i: nat, span: Span)
    requires Accounted(s, spans, i) && span.from <= span.to
    requires i == span.from
    requires LiteralFits(s, spans + [span], |spans|)
    ensures Accounted(s, spans + [span], span.to)
  {
    assert Key(true);
    LiteralsFitAppend(s, spans, span);
    SlashesDivideAppend(s, spans, span, i);
  }

  /** On past text without a slash that stays in place. */
  lemma PlainAccounted(s: string, spans: seq<Span>, i: nat, e: nat)
    requires Accounted(s, spans, i) && i <= e <= |s|
    requires forall k :: i <= k < e ==> s[k] != '/'
    ensures Accounted(s, spans, e)
  {
    assert Key(true);
  }

  /** On past a slash where no expression may start. */
  lemma SlashAccounted(s: string, spans: seq<Span>, i: nat)
    requires Accounted(s, spans, i) && i < |s| && s[i] == '/' && !MayStartAt(s, spans, i)
    ensures Accounted(s, spans, i + 1)
  {
    assert Key(true);
    assert spans[..|spans|] == spans;
    forall k: nat | k < i + 1 && s[k] == '/' && !InSpan(spans, k) ensures SlashDivides(s, spans, k) {
      if k == i { assert Ahead(spans[..|spans|], i); }
    }
  }

  // ----- what the scan carries along

  /** Comments do not count. */
  lemma CommentKeepsPrevious(s: string, spans: seq<Span>, i: nat, e: nat, previous: string)
    requires Ahead(spans, i) && i < e <= |s| && PreviousFits(s, spans, i, previous)
    ensures PreviousFits(s, spans + [Span(i, e, false)], e, previous)
  {
    var now := spans + [Span(i, e, false)];
    forall k: nat ensures (InSpan(now, k) <==> InSpan(spans, k) || i <= k < e) && (InComment(now, k) <==> InComment(spans, k) || i <= k < e) {
      SpanAdded(spans, Span(i, e, false), k);
    }
    SkippingKeeps(s, spans, now, i, e);
  }

  lemma SpaceKeepsPrevious(s: string, spans: seq<Span>, i: nat, previous: string)
    requires Ahead(spans, i) && i < |s| && IsSpace(s[i]) && PreviousFits(s, spans, i, previous)
    ensures PreviousFits(s, spans, i + 1, previous)
  {
    NothingAhead(spans, i, i);
    SkippingKeeps(s, spans, spans, i, i + 1);
  }

  /** After a literal no expression starts. */
  lemma LiteralEndsExpression(s: string, spans: seq<Span>, from: nat, e: nat)
    requires Ahead(spans, from) && from < e <= |s|
    ensures PreviousFits(s, spans + [Span(from, e, true)], e, LITERAL_MARK)
  {
    var now := spans + [Span(from, e, true)];
    SpanAdded(spans, Span(from, e, true), e - 1);
    NothingAhead(spans, from, e - 1);
    LastDecides(s, now, e);
    assert !RegexMayStart(LITERAL_MARK);
  }

  lemma MarkFits(s: string, spans: seq<Span>, i: nat)
    requires Ahead(spans, i) && i < |s| && !IsWord(s[i]) && !IsSpace(s[i])
    ensures PreviousFits(s, spans, i + 1, [s[i]])
  {
    NothingAhead(spans, i, i);
    LastDecides(s, spans, i + 1);
    MarkIsNoKeyword(s[i]);
  }

  lemma WordIsNoSpace(c: char)
    requires IsWord(c)
    ensures !IsSpace(c)
  {
  }

  lemma WordFits(s: string, spans: seq<Span>, i: nat, e: nat)
    requires Ahead(spans, i) && i < e <= |s| && AtBoundary(s, i) && forall k :: i <= k < e ==> IsWord(s[k])
    ensures PreviousFits(s, spans, e, s[i..e])
  {
    NothingAhead(spans, i, e - 1);
    WordIsNoSpace(s[e - 1]);
    LastDecides(s, spans, e);
    WordIsNoPunctuation(s[i..e]);
    assert WholeWord(s, i, e);
    if w :| 0 <= w < e && WholeWord(s, w, e) && s[w..e] in EXPRESSION_START_KEYWORDS {
      assert w == i;
    }
  }

  lemma SubstitutionFits(s: string, spans: seq<Span>, i: nat)
    requires Ahead(spans, i) && StartsWith(s, i, '$', '{')
    ensures PreviousFits(s, spans, i + 2, "")
  {
    NothingAhead(spans, i, i + 1);
    LastDecides(s, spans, i + 2);
  }

  // ----- the brace that closes a substitution

  /** Opening braces less closing ones in the code of `[lo, hi)`. */
  function Net(s: string, spans: seq<Span>, lo: nat, hi: nat): int
    requires lo <= hi <= |s|
  {
    if lo == hi then 0
    else Net(s, spans, lo, hi - 1) + if InSpan(spans, hi - 1) then 0 else if s[hi - 1] == '{' then 1 else if s[hi - 1] == '}' then -1 else 0
  }

  predicate NeverBelow(s: string, spans: seq<Span>, lo: nat, hi: nat, depth: int)
    requires lo <= hi <= |s|
  {
    forall k :: lo <= k <= hi ==> depth + Net(s, spans, lo, k) >= 0
  }

  /** The first brace in code that closes more than was opened since `i`, `depth` braces being open there, ends at `end`. */
  predicate ClosesAt(s: string, spans: seq<Span>, i: nat, depth: int, end: nat) {
    && i < end <= |s| && s[end - 1] == '}' && !InSpan(spans, end - 1)
    && depth + Net(s, spans, i, end - 1) == 0 && NeverBelow(s, spans, i, end - 1, depth)
  }

  /** The code from `i` on ends past that brace, or with the source when there is none. */
  predicate BraceDecides(s: string, spans: seq<Span>, i: nat, depth: int, end: nat) {
    ClosesAt(s, spans, i, depth, end) || (i <= end == |s| && NeverBelow(s, spans, i, |s|, depth))
  }

  lemma {:induction false} NetSplit(s: string, spans: seq<Span>, lo: nat, mid: nat, hi: nat)
    requires lo <= mid <= hi <= |s|
    ensures Net(s, spans, lo, hi) == Net(s, spans, lo, mid) + Net(s, spans, mid, hi)
    decreases hi
  {
    if mid < hi { NetSplit(s, spans, lo, mid, hi - 1); }
  }

  lemma {:induction false} NetAgrees(s: string, a: seq<Span>, b: seq<Span>, lo: nat, hi: nat)
    requires lo <= hi <= |s| && forall k :: lo <= k < hi ==> (InSpan(a, k) <==> InSpan(b, k))
    ensures Net(s, a, lo, hi) == Net(s, b, lo, hi)
    decreases hi
  {
    if lo < hi { NetAgrees(s, a, b, lo, hi - 1); }
  }

  /** Covered text and text without braces count nothing. */
  lemma {:induction false} NetOfNothing(s: string, spans: seq<Span>, lo: nat, hi: nat)
    requires lo <= hi <= |s| && forall k :: lo <= k < hi ==> InSpan(spans, k) || (s[k] != '{' && s[k] != '}')
    ensures Net(s, spans, lo, hi) == 0
    decreases hi
  {
    if lo < hi { NetOfNothing(s, spans, lo, hi - 1); }
  }

  predicate Behind(spans: seq<Span>, e: nat) {
    forall j :: 0 <= j < |spans| ==> e <= spans[j].from <= spans[j].to
  }

  lemma InEither(a: seq<Span>, b: seq<Span>, k: nat)
    ensures InSpan(a + b, k) <==> InSpan(a, k) || InSpan(b, k)
  {
    if InSpan(a, k) {
      var j :| 0 <= j < |a| && a[j].from <= k < a[j].to;
      assert (a + b)[j] == a[j];
    }
    if InSpan(b, k) {
      var j :| 0 <= j < |b| && b[j].from <= k < b[j].to;
      assert (a + b)[|a| + j] == b[j];
    }
  }

  /** Up to `e` only `a` counts, from there on only `b`. */
  lemma NetJoined(s: string, a: seq<Span>, b: seq<Span>, i: nat, e: nat, k: nat)
    requires Ahead(a, e) && Behind(b, e) && i <= e <= |s| && i <= k <= |s|
    ensures k <= e ==> Net(s, a + b, i, k) == Net(s, a, i, k)
    ensures e <= k ==> Net(s, a + b, i, k) == Net(s, a, i, e) + Net(s, b, e, k)
  {
    forall m: nat ensures InSpan(a + b, m) <==> InSpan(a, m) || InSpan(b, m) {
      InEither(a, b, m);
    }
    if k <= e {
      NetAgrees(s, a + b, a, i, k);
    } else {
      NetSplit(s, a + b, i, e, k);
      NetAgrees(s, a + b, a, i, e);
      NetAgrees(s, a + b, b, e, k);
    }
  }

  /** Before code that ends at its brace, a stretch that opens as many braces as the code starts with. */
  lemma BraceBehind(s: string, head: seq<Span>, i: nat, e: nat, rest: Scan, depth: int)
    requires i <= e <= |s| && Ahead(head, e) && Behind(rest.spans, e) && NeverBelow(s, head, i, e, depth)
    requires BraceDecides(s, rest.spans, e, depth + Net(s, head, i, e), rest.end)
    ensures BraceDecides(s, head + rest.spans, i, depth, rest.end)
  {
    var spans := head + rest.spans;
    forall k | i <= k <= |s|
      ensures k <= e ==> Net(s, spans, i, k) == Net(s, head, i, k)
      ensures e <= k ==> Net(s, spans, i, k) == Net(s, head, i, e) + Net(s, rest.spans, e, k)
    {
      NetJoined(s, head, rest.spans, i, e, k);
    }
    InEither(head, rest.spans, if rest.end > 0 then rest.end - 1 else 0);
  }

  lemma CoveredByOne(span: Span)
    ensures forall k :: span.from <= k < span.to ==> InSpan([span], k)
  {
    forall k | span.from <= k < span.to ensures InSpan([span], k) {
      assert [span][0].from <= k < [span][0].to;
    }
  }

  lemma SpanBehind(s: string, i: nat, e: nat, isLiteral: bool, rest: Scan, depth: int)
    requires depth >= 0 && i <= e <= rest.end <= |s| && Covers(s, e, rest) && BraceDecides(s, rest.spans, e, depth, rest.end)
    ensures BraceDecides(s, [Span(i, e, isLiteral)] + rest.spans, i, depth, rest.end)
  {
    var head := [Span(i, e, isLiteral)];
    forall k | i <= k <= e ensures Net(s, head, i, k) == 0 {
      CoveredByOne(head[0]);
      NetOfNothing(s, head, i, k);
    }
    BraceBehind(s, head, i, e, rest, depth);
  }

  lemma PlainBehind(s: string, i: nat, e: nat, rest: Scan, depth: int)
    requires depth >= 0 && i <= e <= rest.end <= |s| && Covers(s, e, rest) && BraceDecides(s, rest.spans, e, depth, rest.end)
    requires forall k :: i <= k < e ==> s[k] != '{' && s[k] != '}'
    ensures BraceDecides(s, rest.spans, i, depth, rest.end)
  {
    forall k | i <= k <= e ensures Net(s, [], i, k) == 0 {
      NetOfNothing(s, [], i, k);
    }
    BraceBehind(s, [], i, e, rest, depth);
    NoneFirst(rest.spans);
  }

  lemma MarkBehind(s: string, i: nat, rest: Scan, depth: int, next: int)
    requires i < |s| && depth >= 0 && next >= 0
    requires next == if s[i] == '{' then depth + 1 else if s[i] == '}' then depth - 1 else depth
    requires i + 1 <= rest.end <= |s| && Covers(s, i + 1, rest) && BraceDecides(s, rest.spans, i + 1, next, rest.end)
    ensures BraceDecides(s, rest.spans, i, depth, rest.end)
  {
    assert Net(s, [], i, i) == 0 && !InSpan([], i);
    assert Net(s, [], i, i + 1) == next - depth;
    BraceBehind(s, [], i, i + 1, rest, depth);
    NoneFirst(rest.spans);
  }

  lemma {:induction false} CodeEndsAtBrace(s: string, i: nat, depth: int, previous: string)
    requires i <= |s| && depth >= 0
    ensures var scan := ScanCode(s, i, depth, previous, true); BraceDecides(s, scan.spans, i, depth, scan.end)
    decreases |s| + 2 - i, 3
  {
    if i == |s| {
    } else if CommentEndAt(s, i).Some? {
      var e := CommentEndAt(s, i).value;
      CodeEndsAtBrace(s, e, depth, previous);
      CodeIsCovered(s, e, depth, previous, true);
      SpanBehind(s, i, e, false, ScanCode(s, e, depth, previous, true), depth);
    } else if PlainLiteralEnd(s, i, previous).Some? {
      var e := PlainLiteralEnd(s, i, previous).value;
      CodeEndsAtBrace(s, e, depth, LITERAL_MARK);
      CodeIsCovered(s, e, depth, LITERAL_MARK, true);
      SpanBehind(s, i, e, true, ScanCode(s, e, depth, LITERAL_MARK, true), depth);
    } else if s[i] == '`' {
      TemplateBeforeBrace(s, i, depth, previous);
    } else {
      PlainBeforeBrace(s, i, depth, previous);
    }
  }

  lemma {:induction false} PlainBeforeBrace(s: string, i: nat, depth: int, previous: string)
    requires i < |s| && depth >= 0 && s[i] != '`' && CommentEndAt(s, i).None? && PlainLiteralEnd(s, i, previous).None?
    ensures var scan := ScanCode(s, i, depth, previous, true); BraceDecides(s, scan.spans, i, depth, scan.end)
    decreases |s| + 2 - i, 2
  {
    if IsWord(s[i]) {
      var e := WordEnd(s, i);
      CodeEndsAtBrace(s, e, depth, s[i..e]);
      CodeIsCovered(s, e, depth, s[i..e], true);
      PlainBehind(s, i, e, ScanCode(s, e, depth, s[i..e], true), depth);
    } else if s[i] == '}' && depth == 0 {
      assert ClosesAt(s, [], i, 0, i + 1);
    } else {
      var next := if s[i] == '{' then depth + 1 else if s[i] == '}' then depth - 1 else depth;
      CodeEndsAtBrace(s, i + 1, next, Previous(previous, s[i]));
      CodeIsCovered(s, i + 1, next, Previous(previous, s[i]), true);
      MarkBehind(s, i, ScanCode(s, i + 1, next, Previous(previous, s[i]), true), depth, next);
    }
  }

  lemma {:induction false} TemplateBeforeBrace(s: string, i: nat, depth: int, previous: string)
    requires i < |s| && depth >= 0 && s[i] == '`'
    ensures var scan := ScanCode(s, i, depth, previous, true); BraceDecides(s, scan.spans, i, depth, scan.end)
    decreases |s| + 2 - i, 2
  {
    var template := ScanTemplate(s, i, i + 1);
    var rest := ScanCode(s, template.end, depth, LITERAL_MARK, true);
    TemplateIsBalanced(s, i, i + 1);
    TemplateIsCovered(s, i, i + 1);
    CodeEndsAtBrace(s, template.end, depth, LITERAL_MARK);
    CodeIsCovered(s, template.end, depth, LITERAL_MARK, true);
    TemplateBehind(s, template, i, rest, depth);
  }

  /** Within a template no more braces close than open, and none is open behind it, unless it runs to the end. */
  predicate Balances(s: string, from: nat, scan: Scan) {
    from <= scan.end <= |s| && NeverBelow(s, scan.spans, from, scan.end, 0)
      && (scan.end < |s| ==> Net(s, scan.spans, from, scan.end) == 0)
  }

  lemma TemplateBehind(s: string, template: Scan, i: nat, rest: Scan, depth: int)
    requires depth >= 0 && Balances(s, i, template) && Covers(s, i, template)
    requires template.end <= rest.end <= |s| && Covers(s, template.end, rest)
    requires BraceDecides(s, rest.spans, template.end, depth, rest.end)
    ensures BraceDecides(s, template.spans + rest.spans, i, depth, rest.end)
  {
    var e := template.end;
    var spans := template.spans + rest.spans;
    forall k | i <= k <= |s|
      ensures k <= e ==> Net(s, spans, i, k) == Net(s, template.spans, i, k)
      ensures e <= k ==> Net(s, spans, i, k) == Net(s, template.spans, i, e) + Net(s, rest.spans, e, k)
    {
      NetJoined(s, template.spans, rest.spans, i, e, k);
    }
    InEither(template.spans, rest.spans, if rest.end > 0 then rest.end - 1 else 0);
  }

  lemma {:induction false} TemplateIsBalanced(s: string, textStart: nat, i: nat)
    requires textStart <= |s| && textStart <= i
    ensures Balances(s, textStart, ScanTemplate(s, textStart, i))
    decreases |s| + 2 - i, 1
  {
    if i >= |s| {
      TextBalances(s, textStart, |s|);
    } else if s[i] == '\\' {
      TemplateIsBalanced(s, textStart, i + 2);
    } else if s[i] == '`' {
      TextBalances(s, textStart, i + 1);
    } else if StartsWith(s, i, '$', '{') {
      SubstitutionBalances(s, textStart, i);
    } else {
      TemplateIsBalanced(s, textStart, i + 1);
    }
  }

  lemma TextBalances(s: string, from: nat, to: nat)
    requires from <= to <= |s|
    ensures Balances(s, from, Scan([Span(from, to, true)], to))
    ensures forall k :: from <= k <= to ==> Net(s, [Span(from, to, true)], from, k) == 0
  {
    var spans := [Span(from, to, true)];
    forall k | from <= k <= to ensures Net(s, spans, from, k) == 0 {
      CoveredByOne(spans[0]);
      NetOfNothing(s, spans, from, k);
    }
  }

  lemma {:induction false} SubstitutionBalances(s: string, textStart: nat, i: nat)
    requires textStart <= i && StartsWith(s, i, '$', '{')
    ensures Balances(s, textStart, ScanTemplate(s, textStart, i))
    decreases |s| + 2 - i, 0
  {
    var code := ScanCode(s, i + 2, 0, "", true);
    CodeEndsAtBrace(s, i + 2, 0, "");
    CodeIsCovered(s, i + 2, 0, "", true);
    TemplateIsBalanced(s, code.end, code.end);
    TemplateIsCovered(s, code.end, code.end);
    TemplateUnfolds(s, textStart, i);
    SubstitutionJoins(s, textStart, i, code, ScanTemplate(s, code.end, code.end));
  }

  lemma SubstitutionJoins(s: string, textStart: nat, i: nat, code: Scan, rest: Scan)
    requires textStart <= i && StartsWith(s, i, '$', '{') && i + 2 <= code.end <= rest.end <= |s|
    requires Covers(s, i + 2, code) && BraceDecides(s, code.spans, i + 2, 0, code.end)
    requires Covers(s, code.end, rest) && Balances(s, code.end, rest)
    ensures Balances(s, textStart, After([Span(textStart, i, true)] + code.spans, rest))
  {
    var text := Scan([Span(textStart, i, true)], i);
    TextBalances(s, textStart, i);
    BracesAround(s, i, code);
    BalancesJoin(s, textStart, text, code);
    BalancesJoin(s, textStart, Scan(text.spans + code.spans, code.end), rest);
  }

  /** The brace that opens a substitution and the one that closes it make up for each other. */
  lemma BracesAround(s: string, i: nat, code: Scan)
    requires StartsWith(s, i, '$', '{') && i + 2 <= code.end <= |s| && Covers(s, i + 2, code)
    requires BraceDecides(s, code.spans, i + 2, 0, code.end)
    ensures Balances(s, i, code)
  {
    assert !InSpan(code.spans, i) && !InSpan(code.spans, i + 1);
    assert Net(s, code.spans, i, i) == 0 && Net(s, code.spans, i, i + 1) == 0 && Net(s, code.spans, i, i + 2) == 1;
    forall k | i + 2 <= k <= |s| ensures Net(s, code.spans, i, k) == 1 + Net(s, code.spans, i + 2, k) {
      NetSplit(s, code.spans, i, i + 2, k);
    }
  }

  lemma BalancesJoin(s: string, from: nat, a: Scan, b: Scan)
    requires Balances(s, from, a) && Balances(s, a.end, b) && Ahead(a.spans, a.end) && Behind(b.spans, a.end)
    requires a.end <= b.end && (a.end < |s| || b.end == |s|)
    ensures Balances(s, from, Scan(a.spans + b.spans, b.end))
  {
    forall k | from <= k <= b.end
      ensures k <= a.end ==> Net(s, a.spans + b.spans, from, k) == Net(s, a.spans, from, k)
      ensures a.end <= k ==> Net(s, a.spans + b.spans, from, k) == Net(s, a.spans, from, a.end) + Net(s, b.spans, a.end, k)
    {
      NetJoined(s, a.spans, b.spans, from, a.end, k);
    }
  }

  /** The scan of a substitution ends past the first brace in its code that closes more than was opened, or with the source. */
  lemma SubstitutionCloses(s: string, i: nat)
    requires i <= |s|
    ensures var scan := ScanCode(s, i, 0, "", true); BraceDecides(s, scan.spans, i, 0, scan.end)
  {
    CodeEndsAtBrace(s, i, 0, "");
  }

  lemma NoneFirst(spans: seq<Span>)
    ensures [] + spans == spans
  {
  }

  // ----- the scan

  /** The scan goes on from `i` with an account of what lies before. */
  ghost predicate Underway(s: string, spans: seq<Span>, i: nat, previous: string) {
    Accounted(s, spans, i) && PreviousFits(s, spans, i, previous) && AtBoundary(s, i)
  }

  lemma AheadOf(s: string, spans: seq<Span>, i: nat)
    requires Accounted(s, spans, i)
    ensures Ahead(spans, i)
  {
    assert Key(true);
  }

  lemma OneMore(spans: seq<Span>, span: Span, rest: seq<Span>)
    ensures spans + ([span] + rest) == spans + [span] + rest
  {
  }

  lemma AfterComment(s: string, spans: seq<Span>, i: nat, e: nat, previous: string)
    requires i < |s| && Underway(s, spans, i, previous) && CommentEndAt(s, i) == Some(e)
    ensures Underway(s, spans + [Span(i, e, false)], e, previous)
  {
    AheadOf(s, spans, i);
    SpanAccounted(s, spans, i, Span(i, e, false));
    CommentKeepsPrevious(s, spans, i, e, previous);
  }

  lemma AfterLiteral(s: string, spans: seq<Span>, i: nat, e: nat, previous: string)
    requires i < |s| && Underway(s, spans, i, previous) && PlainLiteralEnd(s, i, previous) == Some(e)
    ensures Underway(s, spans + [Span(i, e, true)], e, LITERAL_MARK)
  {
    AheadOf(s, spans, i);
    assert (spans + [Span(i, e, true)])[..|spans|] == spans;
    if s[i] == '/' {
      RegexEndIsExact(s, i, i + 1, false);
      RegexEndsAtBoundary(s, i, e);
    } else {
      QuotedEndIsExact(s, i, i + 1);
      QuotedEndsAtBoundary(s, i, e);
    }
    SpanAccounted(s, spans, i, Span(i, e, true));
    LiteralEndsExpression(s, spans, i, e);
  }

  lemma QuotedEndsAtBoundary(s: string, from: nat, to: nat)
    requires IsQuoted(s, from, to)
    ensures AtBoundary(s, to)
  {
  }

  lemma RegexEndsAtBoundary(s: string, from: nat, to: nat)
    requires IsRegex(s, from, to)
    ensures AtBoundary(s, to)
  {
  }

  lemma AfterWord(s: string, spans: seq<Span>, i: nat, previous: string)
    requires i < |s| && Underway(s, spans, i, previous) && IsWord(s[i])
    ensures Underway(s, spans, WordEnd(s, i), s[i..WordEnd(s, i)])
  {
    AheadOf(s, spans, i);
    WordEndIsMaximal(s, i);
    PlainAccounted(s, spans, i, WordEnd(s, i));
    WordFits(s, spans, i, WordEnd(s, i));
  }

  lemma AfterMark(s: string, spans: seq<Span>, i: nat, previous: string)
    requires i < |s| && Underway(s, spans, i, previous) && !IsWord(s[i]) && s[i] != '`'
    requires CommentEndAt(s, i).None? && PlainLiteralEnd(s, i, previous).None?
    ensures Underway(s, spans, i + 1, Previous(previous, s[i]))
  {
    AheadOf(s, spans, i);
    if s[i] == '/' {
      SlashAccounted(s, spans, i);
    } else {
      PlainAccounted(s, spans, i, i + 1);
    }
    if IsSpace(s[i]) {
      SpaceKeepsPrevious(s, spans, i, previous);
    } else {
      MarkFits(s, spans, i);
    }
  }

  lemma {:induction false} CodeFits(
      s: string, spans: seq<Span>, i: nat, depth: int, previous: string, inSubstitution: bool)
    requires i <= |s| && Underway(s, spans, i, previous)
    ensures var scan := ScanCode(s, i, depth, previous, inSubstitution); Accounted(s, spans + scan.spans, scan.end)
    decreases |s| + 2 - i, 3
  {
    if i == |s| {
      assert spans + [] == spans;
    } else if CommentEndAt(s, i).Some? {
      var e := CommentEndAt(s, i).value;
      AfterComment(s, spans, i, e, previous);
      CodeFits(s, spans + [Span(i, e, false)], e, depth, previous, inSubstitution);
      OneMore(spans, Span(i, e, false), ScanCode(s, e, depth, previous, inSubstitution).spans);
    } else if PlainLiteralEnd(s, i, previous).Some? {
      var e := PlainLiteralEnd(s, i, previous).value;
      AfterLiteral(s, spans, i, e, previous);
      CodeFits(s, spans + [Span(i, e, true)], e, depth, LITERAL_MARK, inSubstitution);
      OneMore(spans, Span(i, e, true), ScanCode(s, e, depth, LITERAL_MARK, inSubstitution).spans);
    } else if s[i] == '`' {
      TemplateCodeFits(s, spans, i, depth, previous, inSubstitution);
    } else {
      PlainCodeFits(s, spans, i, depth, previous, inSubstitution);
    }
  }

  lemma {:induction false} TemplateCodeFits(
      s: string, spans: seq<Span>, i: nat, depth: int, previous: string, inSubstitution: bool)
    requires i < |s| && s[i] == '`' && Underway(s, spans, i, previous)
    ensures var scan := ScanCode(s, i, depth, previous, inSubstitution); Accounted(s, spans + scan.spans, scan.end)
    decreases |s| + 2 - i, 2
  {
    var template := ScanTemplate(s, i, i + 1);
    TemplateFits(s, spans, i, i + 1, i + 1);
    CodeFits(s, spans + template.spans, template.end, depth, LITERAL_MARK, inSubstitution);
    var rest := ScanCode(s, template.end, depth, LITERAL_MARK, inSubstitution);
    assert spans + (template.spans + rest.spans) == spans + template.spans + rest.spans;
  }

  lemma {:induction false} PlainCodeFits(
      s: string, spans: seq<Span>, i: nat, depth: int, previous: string, inSubstitution: bool)
    requires i < |s| && s[i] != '`' && Underway(s, spans, i, previous)
    requires CommentEndAt(s, i).None? && PlainLiteralEnd(s, i, previous).None?
    ensures var scan := ScanCode(s, i, depth, previous, inSubstitution); Accounted(s, spans + scan.spans, scan.end)
    decreases |s| + 2 - i, 2
  {
    if IsWord(s[i]) {
      AfterWord(s, spans, i, previous);
      CodeFits(s, spans, WordEnd(s, i), depth, s[i..WordEnd(s, i)], inSubstitution);
    } else {
      AfterMark(s, spans, i, previous);
      if s[i] == '}' && inSubstitution && depth == 0 {
        assert spans + [] == spans;
      } else {
        var next := if s[i] == '{' then depth + 1 else if s[i] == '}' then depth - 1 else depth;
        CodeFits(s, spans, i + 1, next, Previous(previous, s[i]), inSubstitution);
      }
    }
  }

  /** Where template text that is read from `start` may have begun. */
  predicate TextBegins(s: string, textStart: nat, start: nat) {
    && textStart <= start <= |s|
    && (|| (textStart < |s| && s[textStart] == '`' && start == textStart + 1)
        || (0 < textStart && s[textStart - 1] == '}' && start == textStart)
        || textStart == start == |s|)
  }

  lemma {:induction false} TemplateFits(s: string, spans: seq<Span>, textStart: nat, start: nat, i: nat)
    requires Accounted(s, spans, textStart) && TextBegins(s, textStart, start) && start <= i
    requires i <= |s| ==> TextRunsTo(s, start, i) && !Escaped(s, start, i)
    requires i > |s| ==> TextRunsTo(s, start, |s|)
    ensures var scan := ScanTemplate(s, textStart, i); Underway(s, spans + scan.spans, scan.end, LITERAL_MARK)
    decreases |s| + 2 - i, 1
  {
    if i >= |s| {
      TextPiece(s, spans, textStart, start, |s|);
    } else {
      NextEscape(s, start, i);
      if s[i] == '\\' {
        TemplateFits(s, spans, textStart, start, i + 2);
      } else if s[i] == '`' {
        assert ClosedByBacktick(s, start, i + 1) && TextStops(s, start, i);
        TextPiece(s, spans, textStart, start, i + 1);
      } else if StartsWith(s, i, '$', '{') {
        assert StoppedBySubstitution(s, start, i);
        TextPiece(s, spans, textStart, start, i);
        SubstitutionIsAccounted(s, spans, textStart, i);
      } else {
        TemplateFits(s, spans, textStart, start, i + 1);
      }
    }
  }

  lemma TextPiece(s: string, spans: seq<Span>, textStart: nat, start: nat, to: nat)
    requires Accounted(s, spans, textStart) && TextBegins(s, textStart, start) && IsText(s, start, to)
    ensures Accounted(s, spans + [Span(textStart, to, true)], to)
    ensures !StoppedBySubstitution(s, start, to) ==> Underway(s, spans + [Span(textStart, to, true)], to, LITERAL_MARK)
  {
    AheadOf(s, spans, textStart);
    SpanAccounted(s, spans, textStart, Span(textStart, to, true));
    if textStart < to { LiteralEndsExpression(s, spans, textStart, to); }
  }

  lemma SubstitutionOpens(s: string, spans: seq<Span>, i: nat)
    requires StartsWith(s, i, '$', '{') && Accounted(s, spans, i)
    ensures Underway(s, spans, i + 2, "")
  {
    AheadOf(s, spans, i);
    PlainAccounted(s, spans, i, i + 2);
    SubstitutionFits(s, spans, i);
  }

  lemma TemplateUnfolds(s: string, textStart: nat, i: nat)
    requires textStart <= i && StartsWith(s, i, '$', '{')
    ensures var code := ScanCode(s, i + 2, 0, "", true);
      ScanTemplate(s, textStart, i) == After([Span(textStart, i, true)] + code.spans, ScanTemplate(s, code.end, code.end))
  {
  }

  lemma Regrouped(spans: seq<Span>, text: seq<Span>, code: seq<Span>, rest: seq<Span>)
    ensures spans + (text + code + rest) == spans + text + code + rest
  {
  }

  lemma {:induction false} SubstitutionIsAccounted(s: string, spans: seq<Span>, textStart: nat, i: nat)
    requires textStart <= i && StartsWith(s, i, '$', '{') && Accounted(s, spans + [Span(textStart, i, true)], i)
    ensures var scan := ScanTemplate(s, textStart, i); Underway(s, spans + scan.spans, scan.end, LITERAL_MARK)
    decreases |s| + 2 - i, 0
  {
    var text, code := [Span(textStart, i, true)], ScanCode(s, i + 2, 0, "", true);
    SubstitutionOpens(s, spans + text, i);
    CodeFits(s, spans + text, i + 2, 0, "", true);
    SubstitutionCloses(s, i + 2);
    TemplateFits(s, spans + text + code.spans, code.end, code.end, code.end);
    TemplateUnfolds(s, textStart, i);
    Regrouped(spans, text, code.spans, ScanTemplate(s, code.end, code.end).spans);
  }

  // ----- what is blanked

  /**
   With literals blanked too, a position that changes lies inside a comment or inside a literal: a quoted text, a regular
   expression where one may stand, or a stretch of a template.
   */
  lemma OnlyCommentsAndLiteralsAreBlanked(s: string, k: nat) returns (j: nat)
    requires k < |s| && Masked(s, true)[k] != s[k]
    ensures var spans := ScanCode(s, 0, 0, "", false).spans;
      j < |spans| && spans[j].from <= k < spans[j].to && LiteralFits(s, spans, j) && (spans[j].isLiteral || IsComment(s, spans[j]))
  {
    var scan := ScanCode(s, 0, 0, "", false);
    var spans := scan.spans;
    WholeIsAccounted(s, scan);
    AccountedMeans(s, spans, |s|);
    CodeCommentsAreReal(s, 0, 0, "", false);
    j :| 0 <= j < |spans| && spans[j].from <= k < spans[j].to;
  }

  lemma StartOfSource(s: string)
    ensures Underway(s, [], 0, "")
  {
    assert MayStartAt(s, [], 0);
  }

  lemma AccountedMeans(s: string, spans: seq<Span>, i: nat)
    requires Accounted(s, spans, i)
    ensures LiteralsFit(s, spans) && SlashesDivide(s, spans, i)
  {
    assert Key(true);
  }

  lemma WholeIsAccounted(s: string, scan: Scan)
    requires scan == ScanCode(s, 0, 0, "", false)
    ensures Accounted(s, scan.spans, |s|)
  {
    StartOfSource(s);
    CodeFits(s, [], 0, 0, "", false);
    NoneFirst(scan.spans);
    CodeIsCovered(s, 0, 0, "", false);
  }

  lemma KeptIsUncovered(s: string, spans: seq<Span>, k: nat)
    requires k < |s| && s[k] == '/' && Overlay(s, spans, true)[k] == s[k]
    ensures !InSpan(spans, k)
  {
    if InSpan(spans, k) { assert Blanked(spans, true, k); }
  }

  /** A slash that stays in place stands where no regular expression may. */
  lemma KeptSlashDivides(s: string, k: nat) returns (spans: seq<Span>)
    requires k < |s| && Masked(s, true)[k] == s[k] == '/'
    ensures spans == ScanCode(s, 0, 0, "", false).spans && SlashDivides(s, spans, k)
  {
    var scan := ScanCode(s, 0, 0, "", false);
    spans := scan.spans;
    WholeIsAccounted(s, scan);
    AccountedMeans(s, spans, |s|);
    KeptIsUncovered(s, spans, k);
  }
}
