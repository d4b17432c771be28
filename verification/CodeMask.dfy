/**
 The masker of the mutation tester: an in-place scanner that blanks comments and, on request, literals. `ScanCode` and
 `ScanTemplate` call each other for `${...}` substitutions. The functions of the same name say which spans the scan
 blanks; the class overwrites the array; the lemmas state what the masked text is good for.
 */
module CodeMask {
  import opened Text

  // ----- lexical ends

  predicate IsWord(c: char) {
    'a' <= c <= 'z' || 'A' <= c <= 'Z' || '0' <= c <= '9' || c == '_' || c == '$'
  }

  predicate IsQuote(c: char) {
    c == '"' || c == '\'' || c == '`'
  }

  predicate StartsWith(s: string, i: nat, a: char, b: char) {
    i + 1 < |s| && s[i] == a && s[i + 1] == b
  }

  function LineEnd(s: string, i: nat): (r: nat)
    requires i <= |s|
    ensures i <= r <= |s|
    ensures i < |s| && s[i] != '\n' ==> i < r
    ensures (r == |s| || s[r] == '\n') && forall k :: i <= k < r ==> s[k] != '\n'
    decreases |s| - i
  {
    if i == |s| || s[i] == '\n' then i else LineEnd(s, i + 1)
  }

  /** One past the first close of a block comment at or after `i`. */
  function CommentClose(s: string, i: nat): (r: nat)
    requires i <= |s|
    ensures i <= r <= |s|
    ensures r == |s| || (i + 2 <= r && StartsWith(s, r - 2, '*', '/'))
    ensures forall k: nat :: i <= k < r - 2 ==> !StartsWith(s, k, '*', '/')
    decreases |s| - i
  {
    if i == |s| then |s| else if StartsWith(s, i, '*', '/') then i + 2 else CommentClose(s, i + 1)
  }

  function WordEnd(s: string, i: nat): (r: nat)
    requires i <= |s|
    ensures i <= r <= |s|
    ensures i < |s| && IsWord(s[i]) ==> i < r
    ensures forall k :: i <= k < r ==> IsWord(s[k])
    decreases |s| - i
  {
    if i < |s| && IsWord(s[i]) then WordEnd(s, i + 1) else i
  }

  /** The end of a quoted string whose text continues at `i`: past the quote, at a newline, or at the end of the source. */
  function QuotedEnd(s: string, quote: char, i: nat): (r: nat)
    ensures r <= |s|
    ensures i <= |s| ==> i <= r
    decreases |s| + 2 - i
  {
    if i >= |s| then |s|
    else if s[i] == '\\' then QuotedEnd(s, quote, i + 2)
    else if s[i] == quote then i + 1
    else if s[i] == '\n' then i
    else QuotedEnd(s, quote, i + 1)
  }

  /** The end of a regular expression whose body continues at `i`, flags included. */
  function RegexEnd(s: string, i: nat, inClass: bool): (r: nat)
    ensures r <= |s|
    ensures i <= |s| ==> i <= r
    decreases |s| + 2 - i
  {
    if i >= |s| then |s|
    else if s[i] == '\\' then RegexEnd(s, i + 2, inClass)
    else if s[i] == '\n' then i
    else if s[i] == '[' then RegexEnd(s, i + 1, true)
    else if s[i] == ']' then RegexEnd(s, i + 1, false)
    else if s[i] == '/' && !inClass then WordEnd(s, i + 1)
    else RegexEnd(s, i + 1, inClass)
  }

  const EXPRESSION_START_PUNCTUATION := {
    "(", ",", "=", ":", "[", "!", "&", "|", "?", "{", "}", ";", "+", "-", "*", "%", "<", ">", "~", "^"
  }

  const EXPRESSION_START_KEYWORDS := {
    "return", "typeof", "case", "do", "else", "in", "of", "new", "delete", "void", "throw", "instanceof"
  }

  const LITERAL_MARK := "literal"

  predicate RegexMayStart(previous: string) {
    previous == "" || previous in EXPRESSION_START_PUNCTUATION || previous in EXPRESSION_START_KEYWORDS
  }

  // ----- the scan, as the spans it blanks

  datatype Span = Span(from: nat, to: nat, isLiteral: bool)

  datatype Scan = Scan(spans: seq<Span>, end: nat)

  function After(spans: seq<Span>, rest: Scan): Scan {
    Scan(spans + rest.spans, rest.end)
  }

  /** `Some` exactly where two slashes, or a slash and a star, stand: one past what they comment out. */
  function CommentEndAt(s: string, i: nat): (r: Option<nat>)
    requires i < |s|
    ensures r.Some? ==> i < r.value <= |s|
    ensures r.Some? <==> StartsWith(s, i, '/', '/') || StartsWith(s, i, '/', '*')
  {
    if StartsWith(s, i, '/', '/') then Some(LineEnd(s, i))
    else if StartsWith(s, i, '/', '*') then Some(CommentClose(s, i + 2))
    else None
  }

  /** Where a quoted text ends, or a regex in a place where one may stand; `None` at any other character. */
  function PlainLiteralEnd(s: string, i: nat, previous: string): (r: Option<nat>)
    requires i < |s|
    ensures r.Some? ==> i < r.value <= |s|
  {
    if s[i] == '"' || s[i] == '\'' then Some(QuotedEnd(s, s[i], i + 1))
    else if s[i] == '/' && RegexMayStart(previous) then Some(RegexEnd(s, i + 1, false))
    else None
  }

  function Previous(previous: string, c: char): string {
    if IsSpace(c) then previous else [c]
  }

  function ScanCode(s: string, i: nat, depth: int, previous: string, inSubstitution: bool): (r: Scan)
    requires i <= |s|
    ensures i <= r.end <= |s|
    decreases |s| + 2 - i
  {
    if i == |s| then Scan([], i)
    else
      var comment := CommentEndAt(s, i);
      if comment.Some? then
        After([Span(i, comment.value, false)], ScanCode(s, comment.value, depth, previous, inSubstitution))
      else
        var literal := PlainLiteralEnd(s, i, previous);
        if literal.Some? then
          After([Span(i, literal.value, true)], ScanCode(s, literal.value, depth, LITERAL_MARK, inSubstitution))
        else if s[i] == '`' then
          var template := ScanTemplate(s, i, i + 1);
          After(template.spans, ScanCode(s, template.end, depth, LITERAL_MARK, inSubstitution))
        else if IsWord(s[i]) then
          ScanCode(s, WordEnd(s, i), depth, s[i..WordEnd(s, i)], inSubstitution)
        else if s[i] == '}' && inSubstitution && depth == 0 then
          Scan([], i + 1)
        else
          var next := if s[i] == '{' then depth + 1 else if s[i] == '}' then depth - 1 else depth;
          ScanCode(s, i + 1, next, Previous(previous, s[i]), inSubstitution)
  }

  /** The rest of a template literal: its text runs from `textStart`, the scan stands at `i`. */
  function ScanTemplate(s: string, textStart: nat, i: nat): (r: Scan)
    requires textStart <= |s| && textStart <= i
    ensures r.end <= |s|
    ensures i <= |s| ==> i <= r.end
    decreases |s| + 2 - i
  {
    if i >= |s| then Scan([Span(textStart, |s|, true)], |s|)
    else if s[i] == '\\' then ScanTemplate(s, textStart, i + 2)
    else if s[i] == '`' then Scan([Span(textStart, i + 1, true)], i + 1)
    else if StartsWith(s, i, '$', '{') then
      var code := ScanCode(s, i + 2, 0, "", true);
      After([Span(textStart, i, true)] + code.spans, ScanTemplate(s, code.end, code.end))
    else ScanTemplate(s, textStart, i + 1)
  }

  /** Scanning on from the literal at `i` blanks `spans` and resumes at `end`, whatever the nesting. */
  ghost predicate ResumesAfter(s: string, i: nat, previous: string, spans: seq<Span>, end: nat)
    requires i <= |s| && end <= |s|
  {
    forall depth, inSubstitution ::
      ScanCode(s, i, depth, previous, inSubstitution) == After(spans, ScanCode(s, end, depth, LITERAL_MARK, inSubstitution))
  }

  // ----- blanking

  predicate Blanked(spans: seq<Span>, blankLiterals: bool, k: nat) {
    exists j :: 0 <= j < |spans| && spans[j].from <= k < spans[j].to && (blankLiterals || !spans[j].isLiteral)
  }

  function Blank(c: char): char {
    if c == '\n' then c else ' '
  }

  function Overlay(text: string, spans: seq<Span>, blankLiterals: bool): (r: string)
    ensures |r| == |text|
    ensures forall k :: 0 <= k < |text| ==> r[k] == if Blanked(spans, blankLiterals, k) then Blank(text[k]) else text[k]
  {
    seq(|text|, k requires 0 <= k < |text| => if Blanked(spans, blankLiterals, k) then Blank(text[k]) else text[k])
  }

  /** What `maskCode` returns. */
  function Masked(s: string, blankLiterals: bool): string {
    Overlay(s, ScanCode(s, 0, 0, "", false).spans, blankLiterals)
  }

  lemma BlankedByEither(a: seq<Span>, b: seq<Span>, blankLiterals: bool, k: nat)
    ensures Blanked(a + b, blankLiterals, k) <==> Blanked(a, blankLiterals, k) || Blanked(b, blankLiterals, k)
  {
    if Blanked(a, blankLiterals, k) {
      var j :| 0 <= j < |a| && a[j].from <= k < a[j].to && (blankLiterals || !a[j].isLiteral);
      assert (a + b)[j] == a[j];
    }
    if Blanked(b, blankLiterals, k) {
      var j :| 0 <= j < |b| && b[j].from <= k < b[j].to && (blankLiterals || !b[j].isLiteral);
      assert (a + b)[|a| + j] == b[j];
    }
  }

  lemma OverlayAppend(text: string, a: seq<Span>, b: seq<Span>, blankLiterals: bool)
    ensures Overlay(Overlay(text, a, blankLiterals), b, blankLiterals) == Overlay(text, a + b, blankLiterals)
  {
    forall k | 0 <= k < |text|
      ensures Overlay(Overlay(text, a, blankLiterals), b, blankLiterals)[k] == Overlay(text, a + b, blankLiterals)[k]
    {
      BlankedByEither(a, b, blankLiterals, k);
    }
  }

  /** Blanking one more stretch after `done`, in the text and in the account of it. */
  lemma ScannedOn(text: string, done: seq<Span>, spans: seq<Span>, rest: Scan, blankLiterals: bool)
    ensures Overlay(Overlay(text, done, blankLiterals), spans, blankLiterals) == Overlay(text, done + spans, blankLiterals)
    ensures After(done, After(spans, rest)) == After(done + spans, rest)
  {
    OverlayAppend(text, done, spans, blankLiterals);
    assert done + (spans + rest.spans) == done + spans + rest.spans;
  }

  lemma OverlayNothing(text: string, blankLiterals: bool)
    ensures Overlay(text, [], blankLiterals) == text
  {
  }

  // ----- what the scan covers

  /** Code the scan may leave in place at `k`: no quote, and no start of a comment. */
  predicate PlainAt(s: string, k: nat)
    requires k < |s|
  {
    !IsQuote(s[k]) && !StartsWith(s, k, '/', '/') && !StartsWith(s, k, '/', '*')
  }

  /** The spans lie in `[from, end)`, in order, and whatever they leave uncovered there is plain code. */
  predicate Covers(s: string, from: nat, scan: Scan)
    requires scan.end <= |s|
  {
    && (forall j :: 0 <= j < |scan.spans| ==> from <= scan.spans[j].from <= scan.spans[j].to <= scan.end)
    && (forall j, m :: 0 <= j < m < |scan.spans| ==> scan.spans[j].to <= scan.spans[m].from)
    && (forall k :: from <= k < scan.end ==> Blanked(scan.spans, true, k) || PlainAt(s, k))
  }

  lemma Joined(s: string, from: nat, a: Scan, gap: nat, b: Scan)
    requires from <= a.end <= gap <= b.end <= |s|
    requires Covers(s, from, a) && Covers(s, gap, b)
    requires forall k :: a.end <= k < gap ==> PlainAt(s, k)
    ensures Covers(s, from, After(a.spans, b))
  {
    forall k | from <= k < b.end ensures Blanked(a.spans + b.spans, true, k) || PlainAt(s, k) {
      BlankedByEither(a.spans, b.spans, true, k);
    }
  }

  lemma OneSpan(s: string, from: nat, to: nat, isLiteral: bool)
    requires from <= to <= |s|
    ensures Covers(s, from, Scan([Span(from, to, isLiteral)], to))
  {
    var spans := [Span(from, to, isLiteral)];
    forall k | from <= k < to ensures Blanked(spans, true, k) {
      assert spans[0].from <= k < spans[0].to;
    }
  }

  lemma SpanFirst(s: string, from: nat, to: nat, isLiteral: bool, rest: Scan)
    requires from <= to <= rest.end <= |s| && Covers(s, to, rest)
    ensures Covers(s, from, After([Span(from, to, isLiteral)], rest))
  {
    OneSpan(s, from, to, isLiteral);
    Joined(s, from, Scan([Span(from, to, isLiteral)], to), to, rest);
  }

  lemma PlainFirst(s: string, from: nat, to: nat, rest: Scan)
    requires from <= to <= rest.end <= |s| && Covers(s, to, rest)
    requires forall k :: from <= k < to ==> PlainAt(s, k)
    ensures Covers(s, from, rest)
  {
    Joined(s, from, Scan([], from), to, rest);
    assert [] + rest.spans == rest.spans;
  }

  lemma {:induction false} CodeIsCovered(s: string, i: nat, depth: int, previous: string, inSubstitution: bool)
    requires i <= |s|
    ensures Covers(s, i, ScanCode(s, i, depth, previous, inSubstitution))
    ensures !inSubstitution ==> ScanCode(s, i, depth, previous, inSubstitution).end == |s|
    decreases |s| + 2 - i, 1
  {
    if i < |s| {
      var comment := CommentEndAt(s, i);
      if comment.Some? {
        var rest := ScanCode(s, comment.value, depth, previous, inSubstitution);
        CodeIsCovered(s, comment.value, depth, previous, inSubstitution);
        SpanFirst(s, i, comment.value, false, rest);
      } else if PlainLiteralEnd(s, i, previous).Some? || s[i] == '`' {
        LiteralIsCovered(s, i, depth, previous, inSubstitution);
      } else {
        PlainIsCovered(s, i, depth, previous, inSubstitution);
      }
    }
  }

  lemma {:induction false} LiteralIsCovered(s: string, i: nat, depth: int, previous: string, inSubstitution: bool)
    requires i < |s| && CommentEndAt(s, i).None?
    requires PlainLiteralEnd(s, i, previous).Some? || s[i] == '`'
    ensures Covers(s, i, ScanCode(s, i, depth, previous, inSubstitution))
    ensures !inSubstitution ==> ScanCode(s, i, depth, previous, inSubstitution).end == |s|
    decreases |s| + 2 - i, 0
  {
    var literal := PlainLiteralEnd(s, i, previous);
    if literal.Some? {
      CodeIsCovered(s, literal.value, depth, LITERAL_MARK, inSubstitution);
      SpanFirst(s, i, literal.value, true, ScanCode(s, literal.value, depth, LITERAL_MARK, inSubstitution));
    } else {
      TemplateIsCovered(s, i, i + 1);
      var template := ScanTemplate(s, i, i + 1);
      CodeIsCovered(s, template.end, depth, LITERAL_MARK, inSubstitution);
      Joined(s, i, template, template.end, ScanCode(s, template.end, depth, LITERAL_MARK, inSubstitution));
    }
  }

  lemma {:induction false} PlainIsCovered(s: string, i: nat, depth: int, previous: string, inSubstitution: bool)
    requires i < |s| && CommentEndAt(s, i).None?
    requires PlainLiteralEnd(s, i, previous).None? && s[i] != '`'
    ensures Covers(s, i, ScanCode(s, i, depth, previous, inSubstitution))
    ensures !inSubstitution ==> ScanCode(s, i, depth, previous, inSubstitution).end == |s|
    decreases |s| + 2 - i, 0
  {
    if IsWord(s[i]) {
      var end := WordEnd(s, i);
      CodeIsCovered(s, end, depth, s[i..end], inSubstitution);
      PlainFirst(s, i, end, ScanCode(s, end, depth, s[i..end], inSubstitution));
    } else if s[i] == '}' && inSubstitution && depth == 0 {
    } else {
      var next := if s[i] == '{' then depth + 1 else if s[i] == '}' then depth - 1 else depth;
      CodeIsCovered(s, i + 1, next, Previous(previous, s[i]), inSubstitution);
      PlainFirst(s, i, i + 1, ScanCode(s, i + 1, next, Previous(previous, s[i]), inSubstitution));
    }
  }

  lemma {:induction false} TemplateIsCovered(s: string, textStart: nat, i: nat)
    requires textStart <= |s| && textStart <= i
    ensures Covers(s, textStart, ScanTemplate(s, textStart, i))
    decreases |s| + 2 - i, 0
  {
    if i >= |s| {
      OneSpan(s, textStart, |s|, true);
    } else if s[i] == '\\' {
      TemplateIsCovered(s, textStart, i + 2);
    } else if s[i] == '`' {
      OneSpan(s, textStart, i + 1, true);
    } else if StartsWith(s, i, '$', '{') {
      var code := ScanCode(s, i + 2, 0, "", true);
      var rest := ScanTemplate(s, code.end, code.end);
      CodeIsCovered(s, i + 2, 0, "", true);
      TemplateIsCovered(s, code.end, code.end);
      SubstitutionIsCovered(s, textStart, i, code, rest);
    } else {
      TemplateIsCovered(s, textStart, i + 1);
    }
  }

  lemma SubstitutionIsCovered(s: string, textStart: nat, i: nat, code: Scan, rest: Scan)
    requires textStart <= i && i + 2 <= code.end <= rest.end <= |s| && StartsWith(s, i, '$', '{')
    requires Covers(s, i + 2, code) && Covers(s, code.end, rest)
    ensures Covers(s, textStart, After([Span(textStart, i, true)] + code.spans, rest))
  {
    var text := Scan([Span(textStart, i, true)], i);
    OneSpan(s, textStart, i, true);
    Joined(s, textStart, text, i + 2, code);
    Joined(s, textStart, After(text.spans, code), code.end, rest);
  }

  /** A span blanked as a comment is one comment: a line comment up to its line end, or a block up to its first close. */
  predicate IsComment(s: string, span: Span) {
    && span.from <= span.to <= |s|
    && (StartsWith(s, span.from, '/', '/')
        ==> (span.to == |s| || s[span.to] == '\n') && forall k :: span.from <= k < span.to ==> s[k] != '\n')
    && (StartsWith(s, span.from, '/', '*')
        ==> (span.to == |s| || (span.from + 4 <= span.to && StartsWith(s, span.to - 2, '*', '/')))
            && forall k: nat :: span.from + 2 <= k < span.to - 2 ==> !StartsWith(s, k, '*', '/'))
    && (StartsWith(s, span.from, '/', '/') || StartsWith(s, span.from, '/', '*'))
  }

  predicate CommentsAreReal(s: string, spans: seq<Span>) {
    forall j :: 0 <= j < |spans| && !spans[j].isLiteral ==> IsComment(s, spans[j])
  }

  lemma {:induction false} CodeCommentsAreReal(s: string, i: nat, depth: int, previous: string, inSubstitution: bool)
    requires i <= |s|
    ensures CommentsAreReal(s, ScanCode(s, i, depth, previous, inSubstitution).spans)
    decreases |s| + 2 - i
  {
    if i < |s| {
      var comment := CommentEndAt(s, i);
      var literal := PlainLiteralEnd(s, i, previous);
      if comment.Some? {
        CodeCommentsAreReal(s, comment.value, depth, previous, inSubstitution);
      } else if literal.Some? {
        CodeCommentsAreReal(s, literal.value, depth, LITERAL_MARK, inSubstitution);
      } else if s[i] == '`' {
        TemplateCommentsAreReal(s, i, i + 1);
        CodeCommentsAreReal(s, ScanTemplate(s, i, i + 1).end, depth, LITERAL_MARK, inSubstitution);
      } else if IsWord(s[i]) {
        CodeCommentsAreReal(s, WordEnd(s, i), depth, s[i..WordEnd(s, i)], inSubstitution);
      } else if !(s[i] == '}' && inSubstitution && depth == 0) {
        var next := if s[i] == '{' then depth + 1 else if s[i] == '}' then depth - 1 else depth;
        CodeCommentsAreReal(s, i + 1, next, Previous(previous, s[i]), inSubstitution);
      }
    }
  }

  lemma {:induction false} TemplateCommentsAreReal(s: string, textStart: nat, i: nat)
    requires textStart <= |s| && textStart <= i
    ensures CommentsAreReal(s, ScanTemplate(s, textStart, i).spans)
    decreases |s| + 2 - i
  {
    if i < |s| {
      if s[i] == '\\' {
        TemplateCommentsAreReal(s, textStart, i + 2);
      } else if s[i] == '`' {
      } else if StartsWith(s, i, '$', '{') {
        var code := ScanCode(s, i + 2, 0, "", true);
        CodeCommentsAreReal(s, i + 2, 0, "", true);
        TemplateCommentsAreReal(s, code.end, code.end);
      } else {
        TemplateCommentsAreReal(s, textStart, i + 1);
      }
    }
  }

  // ----- what the masked text is good for

  /** With literals blanked no quote, no backtick and no comment start is left, so brackets can be counted in it. */
  lemma MaskedCodeIsPlain(s: string)
    ensures forall k :: 0 <= k < |s| ==> PlainAt(Masked(s, true), k)
  {
    CodeIsCovered(s, 0, 0, "", false);
    var masked := Masked(s, true);
    forall k | 0 <= k < |s| ensures PlainAt(masked, k) {
      if masked[k] != ' ' && masked[k] != '\n' {
        assert !Blanked(ScanCode(s, 0, 0, "", false).spans, true, k);
        assert PlainAt(s, k);
      }
    }
  }

  /** Masking keeps the length and every line break, and leaves each position as it was or blank. */
  lemma MaskedKeepsPositions(s: string, blankLiterals: bool)
    ensures |Masked(s, blankLiterals)| == |s|
    ensures forall k :: 0 <= k < |s| ==>
      (Masked(s, blankLiterals)[k] == '\n' <==> s[k] == '\n') && Masked(s, blankLiterals)[k] in {s[k], ' '}
  {
  }

  /** The span at `j` is a comment where the scan meets code: the text of one, and no part of a string, template or regex. */
  predicate CommentInCode(s: string, spans: seq<Span>, j: nat)
    requires j < |spans|
  {
    && !spans[j].isLiteral && IsComment(s, spans[j])
    && forall m :: 0 <= m < |spans| && spans[m].isLiteral ==> spans[m].to <= spans[j].from || spans[j].to <= spans[m].from
  }

  /**
   With literals kept, only comments are lost: a position that changes lies inside one comment of the scan, and that
   comment overlaps no literal the scan found.
   */
  lemma OnlyCommentsAreBlanked(s: string, k: nat) returns (j: nat)
    requires k < |s| && Masked(s, false)[k] != s[k]
    ensures var spans := ScanCode(s, 0, 0, "", false).spans;
      j < |spans| && CommentInCode(s, spans, j) && spans[j].from <= k < spans[j].to
  {
    CodeCommentsAreReal(s, 0, 0, "", false);
    CodeIsCovered(s, 0, 0, "", false);
    var spans := ScanCode(s, 0, 0, "", false).spans;
    j :| 0 <= j < |spans| && spans[j].from <= k < spans[j].to && !spans[j].isLiteral;
  }

  /** Blanking literals only adds blanks: text kept with literals blanked is kept without, and comments go either way. */
  lemma BlankingLiteralsAddsBlanks(s: string, k: nat)
    requires k < |s|
    ensures Masked(s, true)[k] in {Masked(s, false)[k], ' '}
    ensures Masked(s, false)[k] != s[k] ==> Masked(s, true)[k] == ' '
  {
    var spans := ScanCode(s, 0, 0, "", false).spans;
    if Blanked(spans, false, k) {
      var j :| 0 <= j < |spans| && spans[j].from <= k < spans[j].to && !spans[j].isLiteral;
      assert Blanked(spans, true, k);
    }
  }

  /** A blank-free stretch of the masked text is the source itself at the same place. */
  lemma UnblankedMatchIsSource(s: string, from: nat, to: nat)
    requires from <= to <= |s| && ' ' !in Masked(s, true)[from..to]
    ensures Masked(s, true)[from..to] == s[from..to]
  {
    forall k | from <= k < to ensures Masked(s, true)[k] == s[k] {
      assert Masked(s, true)[from..to][k - from] == Masked(s, true)[k];
    }
  }

  predicate InSpan(spans: seq<Span>, k: nat) {
    exists j :: 0 <= j < |spans| && spans[j].from <= k < spans[j].to
  }

  /** With literals blanked, no visible text of a comment or a literal is left. */
  lemma KeptIsInNoSpan(s: string, k: nat)
    requires k < |s| && Masked(s, true)[k] !in " \n"
    ensures !InSpan(ScanCode(s, 0, 0, "", false).spans, k)
  {
    var spans := ScanCode(s, 0, 0, "", false).spans;
    assert InSpan(spans, k) ==> Blanked(spans, true, k);
  }

  /** Code without a quote, a backtick or a slash is not touched. */
  lemma PlainCodeIsKept(s: string, blankLiterals: bool)
    requires forall k :: 0 <= k < |s| ==> !IsQuote(s[k]) && s[k] != '/'
    ensures Masked(s, blankLiterals) == s
  {
    NothingToBlank(s, 0, 0, "", false);
    OverlayNothing(s, blankLiterals);
  }

  lemma {:induction false} NothingToBlank(s: string, i: nat, depth: int, previous: string, inSubstitution: bool)
    requires i <= |s|
    requires forall k :: i <= k < |s| ==> !IsQuote(s[k]) && s[k] != '/'
    ensures ScanCode(s, i, depth, previous, inSubstitution).spans == []
    decreases |s| - i
  {
    if i < |s| {
      if IsWord(s[i]) {
        NothingToBlank(s, WordEnd(s, i), depth, s[i..WordEnd(s, i)], inSubstitution);
      } else if !(s[i] == '}' && inSubstitution && depth == 0) {
        var next := if s[i] == '{' then depth + 1 else if s[i] == '}' then depth - 1 else depth;
        NothingToBlank(s, i + 1, next, Previous(previous, s[i]), inSubstitution);
      }
    }
  }

  // ----- the scanner

  class MaskState {
    const source: string
    const masked: array<char>
    const blankLiterals: bool

    constructor (source: string, blankLiterals: bool)
      ensures this.source == source && this.blankLiterals == blankLiterals
      ensures fresh(masked) && masked[..] == source
    {
      this.source := source;
      this.blankLiterals := blankLiterals;
      masked := new char[|source|](k requires 0 <= k < |source| => source[k]);
    }

    /** Lays one span over the array; with literals kept, a literal span changes nothing. */
    method BlankRange(from: nat, to: nat, isLiteral: bool) returns (end: nat)
      requires from <= to <= masked.Length
      modifies masked
      ensures end == to
      ensures masked[..] == Overlay(old(masked[..]), [Span(from, to, isLiteral)], blankLiterals)
    {
      ghost var span := [Span(from, to, isLiteral)];
      forall k: nat ensures Blanked(span, blankLiterals, k) <==> from <= k < to && (blankLiterals || !isLiteral) {
        if from <= k < to && (blankLiterals || !isLiteral) { assert span[0].from <= k < span[0].to; }
      }
      if !isLiteral || blankLiterals {
        for k := from to to
          invariant forall j :: 0 <= j < masked.Length ==>
            masked[j] == if from <= j < k then Blank(old(masked[j])) else old(masked[j])
        {
          if masked[k] != '\n' { masked[k] := ' '; }
        }
      }
      return to;
    }

    /** The code part of the scan, starting at `from`: it ends with the source, or past the brace of its substitution. */
    method ScanCodeFrom(from: nat, inSubstitution: bool) returns (index: nat)
      requires from <= |source| == masked.Length
      modifies masked
      ensures index == ScanCode(source, from, 0, "", inSubstitution).end
      ensures masked[..] == Overlay(old(masked[..]), ScanCode(source, from, 0, "", inSubstitution).spans, blankLiterals)
      decreases |source| + 2 - from, 2
    {
      var depth, previous := 0, "";
      index := from;
      ghost var text := masked[..];
      ghost var whole := ScanCode(source, from, 0, "", inSubstitution);
      ghost var done: seq<Span> := [];
      OverlayNothing(masked[..], blankLiterals);
      while index < |source|
        invariant from <= index <= |source|
        invariant whole == After(done, ScanCode(source, index, depth, previous, inSubstitution))
        invariant masked[..] == Overlay(text, done, blankLiterals)
        decreases |source| - index
      {
        var comment := CommentEndAt(source, index);
        if comment.Some? {
          ghost var span := [Span(index, comment.value, false)];
          ScannedOn(text, done, span, ScanCode(source, comment.value, depth, previous, inSubstitution), blankLiterals);
          index := BlankRange(index, comment.value, false);
          done := done + span;
          continue;
        }
        var literal, spans := ScanLiteral(index, previous);
        if literal.Some? {
          index := literal.value;
          previous := LITERAL_MARK;
          ScannedOn(text, done, spans, ScanCode(source, index, depth, previous, inSubstitution), blankLiterals);
          done := done + spans;
          continue;
        }
        var c := source[index];
        if IsWord(c) {
          var start := index;
          index := WordEnd(source, index);
          previous := source[start..index];
          continue;
        }
        if c == '{' {
          depth := depth + 1;
        } else if c == '}' {
          if inSubstitution && depth == 0 {
            assert done + [] == done;
            return index + 1;
          }
          depth := depth - 1;
        }
        if !IsSpace(c) { previous := [c]; }
        index := index + 1;
      }
      assert done + [] == done;
    }

    /** The end of the literal that starts at `from`, blanked on the way, or `None` with nothing changed. */
    method ScanLiteral(from: nat, previous: string) returns (end: Option<nat>, ghost spans: seq<Span>)
      requires from < |source| == masked.Length
      requires CommentEndAt(source, from).None?
      modifies masked
      ensures end.Some? ==> from < end.value <= |source|
      ensures end.Some? <==> PlainLiteralEnd(source, from, previous).Some? || source[from] == '`'
      ensures end.None? ==> masked[..] == old(masked[..])
      ensures end.Some? ==> masked[..] == Overlay(old(masked[..]), spans, blankLiterals)
      ensures end.Some? ==> ResumesAfter(source, from, previous, spans, end.value)
      decreases |source| + 2 - from, 1
    {
      end, spans := PlainLiteralEnd(source, from, previous), [];
      if end.Some? {
        spans := [Span(from, end.value, true)];
        var _ := BlankRange(from, end.value, true);
      } else if source[from] == '`' {
        spans := ScanTemplate(source, from, from + 1).spans;
        var index := ScanTemplateFrom(from);
        end := Some(index);
      }
    }

    /** The array after a backtick at `from`: the text spans laid over it, and the spans of every nested substitution. */
    method ScanTemplateFrom(from: nat) returns (index: nat)
      requires from < |source| == masked.Length
      modifies masked
      ensures index == ScanTemplate(source, from, from + 1).end
      ensures masked[..] == Overlay(old(masked[..]), ScanTemplate(source, from, from + 1).spans, blankLiterals)
      decreases |source| + 2 - from, 0
    {
      var textStart := from;
      index := from + 1;
      ghost var text := masked[..];
      ghost var whole := ScanTemplate(source, from, from + 1);
      ghost var done: seq<Span> := [];
      OverlayNothing(text, blankLiterals);
      while index < |source|
        invariant from <= textStart <= |source| && textStart <= index && from < index
        invariant whole == After(done, ScanTemplate(source, textStart, index))
        invariant masked[..] == Overlay(text, done, blankLiterals)
        decreases |source| + 2 - index
      {
        if source[index] == '\\' {
          index := index + 2;
        } else if source[index] == '`' {
          OverlayAppend(text, done, [Span(textStart, index + 1, true)], blankLiterals);
          index := BlankRange(textStart, index + 1, true);
          return;
        } else if StartsWith(source, index, '$', '{') {
          ghost var spans := [Span(textStart, index, true)] + ScanCode(source, index + 2, 0, "", true).spans;
          index := ScanSubstitution(textStart, index);
          textStart := index;
          ScannedOn(text, done, spans, ScanTemplate(source, index, index), blankLiterals);
          done := done + spans;
        } else {
          index := index + 1;
        }
      }
      OverlayAppend(text, done, [Span(textStart, |source|, true)], blankLiterals);
      var _ := BlankRange(textStart, |source|, true);
      return |source|;
    }

    /** Blanks the template text up to the substitution at `at` and scans the substitution as code. */
    method ScanSubstitution(textStart: nat, at: nat) returns (index: nat)
      requires textStart <= at && at + 2 <= |source| == masked.Length
      modifies masked
      ensures index == ScanCode(source, at + 2, 0, "", true).end
      ensures masked[..] == Overlay(old(masked[..]),
        [Span(textStart, at, true)] + ScanCode(source, at + 2, 0, "", true).spans, blankLiterals)
      decreases |source| + 2 - at, 0
    {
      OverlayAppend(masked[..], [Span(textStart, at, true)], ScanCode(source, at + 2, 0, "", true).spans, blankLiterals);
      var _ := BlankRange(textStart, at, true);
      index := ScanCodeFrom(at + 2, true);
    }
  }

  /** `maskCode`. */
  method MaskCode(source: string, blankLiterals: bool) returns (masked: string)
    ensures masked == Masked(source, blankLiterals)
  {
    var state := new MaskState(source, blankLiterals);
    var _ := state.ScanCodeFrom(0, false);
    masked := state.masked[..];
  }
}
