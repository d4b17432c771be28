/** Small shared vocabulary: optional values and the string operations the modelled code relies on. */
module Text {
  type Id = string

  datatype Option<+T> = None | Some(value: T)

  /** The JavaScript whitespace and line-terminator characters that `String.prototype.trim` removes. */
  predicate IsSpace(c: char) {
    || '\t' <= c <= '\r' || c == ' ' || c == '\U{A0}' || c == '\U{1680}' || '\U{2000}' <= c <= '\U{200A}'
    || c == '\U{2028}' || c == '\U{2029}' || c == '\U{202F}' || c == '\U{205F}' || c == '\U{3000}' || c == '\U{FEFF}'
  }

  predicate AllSpace(s: string, from: nat, to: nat)
    requires to <= |s|
  {
    forall k :: from <= k < to ==> IsSpace(s[k])
  }

  function FirstFull(s: string, i: nat): (n: nat)
    requires i <= |s|
    ensures i <= n <= |s| && AllSpace(s, i, n) && (n == |s| || !IsSpace(s[n]))
    decreases |s| - i
  {
    if i < |s| && IsSpace(s[i]) then FirstFull(s, i + 1) else i
  }

  function LastFull(s: string, from: nat, i: nat): (n: nat)
    requires from <= i <= |s|
    ensures from <= n <= i && AllSpace(s, n, i) && (n == from || !IsSpace(s[n - 1]))
  {
    if from < i && IsSpace(s[i - 1]) then LastFull(s, from, i - 1) else i
  }

  /** `String.prototype.trim`. */
  function Trim(s: string): (r: string)
    ensures r == [] || (!IsSpace(r[0]) && !IsSpace(r[|r| - 1]))
    ensures s == [] || (!IsSpace(s[0]) && !IsSpace(s[|s| - 1])) ==> r == s
  {
    var from := FirstFull(s, 0);
    s[from..LastFull(s, from, |s|)]
  }

  predicate IsBlank(s: string) {
    forall k :: 0 <= k < |s| ==> IsSpace(s[k])
  }

  /** Trimming takes blank text off both ends and nothing else. */
  lemma TrimParts(s: string) returns (before: string, after: string)
    ensures s == before + Trim(s) + after && IsBlank(before) && IsBlank(after)
  {
    var from := FirstFull(s, 0);
    var to := LastFull(s, from, |s|);
    before, after := s[..from], s[to..];
  }

  /** Exactly the blank strings trim to nothing. */
  lemma BlankTrimsAway(s: string)
    ensures Trim(s) == "" <==> IsBlank(s)
  {
    var before, after := TrimParts(s);
  }

  lemma TrimInventsNothing(s: string, c: char)
    requires c !in s
    ensures c !in Trim(s)
  {
  }

  /** Blank text around a text without blank ends is trimmed away. */
  lemma TrimOfPadded(before: string, text: string, after: string)
    requires IsBlank(before) && IsBlank(after) && text != [] && Trimmed(text)
    ensures Trim(before + text + after) == text
  {
    var s, from, to := before + text + after, |before|, |before + text|;
    assert s[from] == text[0] && s[to - 1] == text[|text| - 1];
    assert FirstFull(s, 0) == from by { assert forall k :: 0 <= k < from ==> s[k] == before[k]; }
    assert LastFull(s, from, |s|) == to by { assert forall k :: to <= k < |s| ==> s[k] == after[k - to]; }
  }

  /** The test `s.trim() === ""`. */
  method TrimsAway(s: string) returns (blank: bool)
    ensures blank <==> IsBlank(s)
  {
    BlankTrimsAway(s);
    blank := Trim(s) == "";
  }

  /** No space at either end. */
  predicate Trimmed(s: string) {
    s == [] || (!IsSpace(s[0]) && !IsSpace(s[|s| - 1]))
  }

  lemma TrimmedIff(s: string)
    ensures Trimmed(s) <==> Trim(s) == s
  {
  }

  /** `split` on a character. */
  function SplitOn(s: string, c: char): (parts: seq<string>)
    ensures parts != []
  {
    if s == [] then [[]]
    else
      var rest := SplitOn(s[1..], c);
      if s[0] == c then [[]] + rest else [[s[0]] + rest[0]] + rest[1..]
  }

  /** The items trimmed, without the ones that were blank. */
  function TrimAndFilter(items: seq<string>): seq<string> {
    if items == [] then []
    else
      var trimmed := Trim(items[|items| - 1]);
      TrimAndFilter(items[..|items| - 1]) + if trimmed == [] then [] else [trimmed]
  }

  predicate TrimmedAndFull(item: string) {
    Trimmed(item) && item != ""
  }

  lemma FilteredLast(items: seq<string>, trimmed: string)
    requires items != [] && Trim(items[|items| - 1]) == trimmed
    ensures TrimAndFilter(items) == TrimAndFilter(items[..|items| - 1]) + if trimmed == [] then [] else [trimmed]
  {
  }

  lemma {:induction false} FilteredAreTrimmed(items: seq<string>)
    ensures forall item :: item in TrimAndFilter(items) ==> TrimmedAndFull(item)
  {
    if items != [] {
      FilteredAreTrimmed(items[..|items| - 1]);
      FilteredLast(items, Trim(items[|items| - 1]));
      assert Trimmed(Trim(items[|items| - 1]));
    }
  }

  lemma FullTrimsToItself(item: string)
    requires TrimmedAndFull(item)
    ensures Trim(item) == item && item != []
  {
    TrimmedIff(item);
  }

  lemma {:induction false} TrimmedAreKept(items: seq<string>)
    requires forall i :: 0 <= i < |items| ==> TrimmedAndFull(items[i])
    ensures TrimAndFilter(items) == items
    decreases |items|
  {
    if |items| == 0 {
      assert items == [];
    } else {
      var rest, last := items[..|items| - 1], items[|items| - 1];
      assert items == rest + [last];
      TrimmedAreKept(rest);
      FullTrimsToItself(last);
      FilteredLast(items, last);
    }
  }

  lemma {:induction false} NothingToSplit(s: string, c: char)
    requires c !in s
    ensures SplitOn(s, c) == [s]
  {
    if s == [] {
      assert SplitOn(s, c) == [[]] == [s];
    } else {
      NothingToSplit(s[1..], c);
      assert [s[1..]][1..] == [];
      assert [s[0]] + s[1..] == s;
    }
  }

  /** Splitting two texts joined by the separator splits each. */
  lemma {:induction false} SplitBoth(left: string, c: char, right: string)
    ensures SplitOn(left + [c] + right, c) == SplitOn(left, c) + SplitOn(right, c)
  {
    var s := left + [c] + right;
    if left == [] {
      assert s[0] == c && s[1..] == right;
    } else {
      assert s[0] == left[0] && s[1..] == left[1..] + [c] + right;
      SplitBoth(left[1..], c, right);
    }
  }

  lemma {:induction false} FilterBoth(a: seq<string>, b: seq<string>)
    ensures TrimAndFilter(a + b) == TrimAndFilter(a) + TrimAndFilter(b)
  {
    if b == [] {
      assert a + b == a;
    } else {
      assert (a + b)[..|a + b| - 1] == a + b[..|b| - 1];
      FilterBoth(a, b[..|b| - 1]);
    }
  }

  /** The items between the commas of a text, trimmed, without blank ones. */
  function CommaItems(text: string): seq<string> {
    TrimAndFilter(SplitOn(text, ','))
  }

  lemma CommaItemsOfBoth(left: string, right: string)
    ensures CommaItems(left + [','] + right) == CommaItems(left) + CommaItems(right)
  {
    SplitBoth(left, ',', right);
    FilterBoth(SplitOn(left, ','), SplitOn(right, ','));
  }

  lemma CommaItemsOfOne(text: string)
    requires ',' !in text
    ensures CommaItems(text) == if Trim(text) == "" then [] else [Trim(text)]
  {
    NothingToSplit(text, ',');
    var items := [text];
    FilteredLast(items, Trim(text));
    assert items[..|items| - 1] == [];
  }

  predicate IsDigit(c: char) {
    '0' <= c <= '9'
  }

  predicate Digits(s: string) {
    forall i :: 0 <= i < |s| ==> '0' <= s[i] <= '9'
  }

  /** The digits `String(n)` prints for a non-negative integer. */
  function Decimal(n: nat): (s: string)
    ensures s != [] && Digits(s)
  {
    var last := [('0' as int + n % 10) as char];
    if n < 10 then last else Decimal(n / 10) + last
  }

  /** The number a run of digits denotes. */
  function DecimalValue(s: string): nat
    requires Digits(s)
  {
    if s == [] then 0 else DecimalValue(s[..|s| - 1]) * 10 + (s[|s| - 1] as int - '0' as int)
  }

  lemma {:induction false} DecimalRoundTrip(n: nat)
    ensures DecimalValue(Decimal(n)) == n
  {
    var s := Decimal(n);
    if n >= 10 {
      DecimalRoundTrip(n / 10);
      assert s[..|s| - 1] == Decimal(n / 10);
    } else {
      assert s[..|s| - 1] == [];
    }
  }
}
