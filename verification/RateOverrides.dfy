/**
 Overrides of route budgets: the override string, the map parsed from it once per settings revision, the first-match scan
 that map replaced, and the report of bad entries.
 */
module RateOverrides {
  import opened Text
  import SettingsMemo

  const RATE_LIMIT_OVERRIDE_CAP_MULTIPLIER := 10

  /** An entry cut at its equals signs, every part trimmed. `extra` says there were more than two parts. */
  datatype Entry = Entry(text: string, name: string, value: Option<string>, extra: bool)

  datatype Issues = Issues(malformed: seq<string>, untunable: seq<string>)

  // ----- the text

  function ReadEntry(text: string): Entry {
    var parts := SplitOn(text, '=');
    Entry(text, Trim(parts[0]), if |parts| > 1 then Some(Trim(parts[1])) else None, |parts| > 2)
  }

  function ReadAll(texts: seq<string>): seq<Entry> {
    seq(|texts|, i requires 0 <= i < |texts| => ReadEntry(texts[i]))
  }

  /** `splitEntries`, each entry cut. */
  function EntriesOf(raw: string): seq<Entry> {
    ReadAll(CommaItems(raw))
  }

  /** `/^[1-9][0-9]*$/`. */
  predicate WholeNumber(s: string) {
    s != [] && Digits(s) && s[0] != '0'
  }

  lemma {:induction false} WholeNumbersArePositive(s: string)
    requires WholeNumber(s)
    ensures DecimalValue(s) >= 1
  {
    if |s| > 1 {
      assert s[..|s| - 1][0] == s[0];
      WholeNumbersArePositive(s[..|s| - 1]);
    } else {
      assert s[..0] == [] && s[0] != '0';
    }
  }

  lemma {:induction false} NoLeadingZero(n: nat)
    requires n > 0
    ensures Decimal(n)[0] != '0'
  {
    if n >= 10 { NoLeadingZero(n / 10); }
  }

  lemma {:induction false} PrintedBack(s: string)
    requires WholeNumber(s)
    ensures s == Decimal(DecimalValue(s))
  {
    if |s| > 1 {
      var rest := s[..|s| - 1];
      assert rest[0] == s[0];
      PrintedBack(rest);
      WholeNumbersArePositive(rest);
    } else {
      assert s[..0] == [];
    }
  }

  /** The values accepted are exactly the positive whole numbers as they are printed. */
  lemma WholeNumberIff(s: string)
    ensures WholeNumber(s) <==> exists n: nat :: n > 0 && s == Decimal(n)
  {
    if WholeNumber(s) {
      WholeNumbersArePositive(s);
      PrintedBack(s);
    }
    if n: nat :| n > 0 && s == Decimal(n) { NoLeadingZero(n); }
  }

  /** A name with a positive whole number: what both lookups accept, more parts or not. */
  predicate Accepted(entry: Entry) {
    entry.name != [] && entry.value.Some? && WholeNumber(entry.value.value)
  }

  function Max(entry: Entry): nat
    requires Accepted(entry)
  {
    DecimalValue(entry.value.value)
  }

  // ----- the map and the scan

  /** The first accepted entry of a name. */
  function FirstMax(entries: seq<Entry>, name: string): Option<nat> {
    if entries == [] then None
    else if Accepted(entries[0]) && entries[0].name == name then Some(Max(entries[0]))
    else FirstMax(entries[1..], name)
  }

  lemma {:induction false} FirstMaxAppend(entries: seq<Entry>, last: Entry, name: string)
    ensures FirstMax(entries + [last], name)
      == if FirstMax(entries, name).Some? then FirstMax(entries, name)
         else if Accepted(last) && last.name == name then Some(Max(last)) else None
  {
    if entries == [] {
      assert entries + [last] == [last] && [last][1..] == [];
    } else {
      assert (entries + [last])[1..] == entries[1..] + [last];
      FirstMaxAppend(entries[1..], last, name);
    }
  }

  /** The map built at each revision holds the first accepted maximum of every name. */
  function Parsed(entries: seq<Entry>): map<string, nat> {
    if entries == [] then map[]
    else
      var before, last := Parsed(entries[..|entries| - 1]), entries[|entries| - 1];
      if Accepted(last) && last.name !in before then before[last.name := Max(last)] else before
  }

  lemma {:induction false} ParsedIsFirst(entries: seq<Entry>, name: string)
    ensures (if name in Parsed(entries) then Some(Parsed(entries)[name]) else None) == FirstMax(entries, name)
  {
    if entries != [] {
      var rest, last := entries[..|entries| - 1], entries[|entries| - 1];
      ParsedIsFirst(rest, name);
      assert entries == rest + [last];
      FirstMaxAppend(rest, last, name);
    }
  }

  lemma {:induction false} FirstMaxIsPositive(entries: seq<Entry>, name: string)
    requires FirstMax(entries, name).Some?
    ensures FirstMax(entries, name).value >= 1
  {
    if Accepted(entries[0]) && entries[0].name == name {
      WholeNumbersArePositive(entries[0].value.value);
    } else {
      FirstMaxIsPositive(entries[1..], name);
    }
  }

  method ParseOverrides(raw: string) returns (parsed: map<string, nat>)
    ensures parsed == Parsed(EntriesOf(raw))
  {
    var entries := EntriesOf(raw);
    parsed := CollectMax(entries);
  }

  method CollectMax(entries: seq<Entry>) returns (parsed: map<string, nat>)
    ensures parsed == Parsed(entries)
  {
    parsed := map[];
    for i := 0 to |entries|
      invariant parsed == Parsed(entries[..i])
    {
      assert entries[..i + 1][..i] == entries[..i];
      var entry := entries[i];
      if entry.name == [] || entry.value.None? || !WholeNumber(entry.value.value) || entry.name in parsed { continue; }
      parsed := parsed[entry.name := DecimalValue(entry.value.value)];
    }
    assert entries[..|entries|] == entries;
  }

  function Minimum(a: int, b: int): int {
    if a <= b then a else b
  }

  /** What a lookup comes to: nothing for a route that cannot be tuned, else the first maximum, capped. */
  function RouteMax(tunable: set<string>, raw: string, name: string, defaultMax: int): Option<int> {
    var first := FirstMax(EntriesOf(raw), name);
    if name !in tunable || first.None? then None
    else Some(Minimum(first.value, defaultMax * RATE_LIMIT_OVERRIDE_CAP_MULTIPLIER))
  }

  /** `tunedRouteMaxLegacy`: parses the string and scans for the first match on every call. */
  method TunedRouteMaxLegacy(tunable: set<string>, raw: string, name: string, defaultMax: int) returns (max: Option<int>)
    ensures max == RouteMax(tunable, raw, name, defaultMax)
  {
    if name !in tunable { return None; }
    var entries := EntriesOf(raw);
    for i := 0 to |entries|
      invariant FirstMax(entries, name) == FirstMax(entries[i..], name)
    {
      var entry := entries[i];
      assert entries[i..][0] == entry && entries[i..][1..] == entries[i + 1..];
      if entry.name != name || entry.name == [] || entry.value.None? || !WholeNumber(entry.value.value) { continue; }
      return Some(Minimum(DecimalValue(entry.value.value), defaultMax * RATE_LIMIT_OVERRIDE_CAP_MULTIPLIER));
    }
    return None;
  }

  /** The override string in a runtime layer; empty when it is not overridden. */
  const ROUTE_OVERRIDES := "network.rateLimit.routeOverrides"

  function RawIn(runtime: SettingsMemo.Runtime): string {
    if ROUTE_OVERRIDES in runtime && runtime[ROUTE_OVERRIDES].TextValue? then runtime[ROUTE_OVERRIDES].text else ""
  }

  function ParsedIn(runtime: SettingsMemo.Runtime): map<string, nat> {
    Parsed(EntriesOf(RawIn(runtime)))
  }

  /** `tunedRouteMax`: the memoized map answers as the scan of the current string would. */
  method TunedRouteMax(tunable: set<string>, memo: SettingsMemo.RevisionMemo<map<string, nat>>, name: string, defaultMax: int)
    returns (max: Option<int>)
    requires memo.Valid() && memo.compute == ParsedIn
    modifies memo
    ensures memo.Valid()
    ensures max == RouteMax(tunable, RawIn(memo.store.runtime), name, defaultMax)
  {
    if name !in tunable { return None; }
    var parsed := memo.Read();
    ParsedIsFirst(EntriesOf(RawIn(memo.store.runtime)), name);
    if name !in parsed { return None; }
    return Some(Minimum(parsed[name], defaultMax * RATE_LIMIT_OVERRIDE_CAP_MULTIPLIER));
  }

  /** A tuned budget is positive and at most ten times the built-in one. */
  lemma TunedBudgetIsBounded(tunable: set<string>, raw: string, name: string, defaultMax: int)
    requires RouteMax(tunable, raw, name, defaultMax).Some? && defaultMax >= 1
    ensures 1 <= RouteMax(tunable, raw, name, defaultMax).value <= 10 * defaultMax
  {
    FirstMaxIsPositive(EntriesOf(raw), name);
  }

  /** The first maximum given for the route is used as it is up to ten times the built-in budget, and cut to that beyond. */
  lemma TunedBudgetIsExact(tunable: set<string>, raw: string, name: string, defaultMax: int, first: nat)
    requires name in tunable && FirstMax(EntriesOf(raw), name) == Some(first)
    ensures first <= 10 * defaultMax ==> RouteMax(tunable, raw, name, defaultMax) == Some(first)
    ensures first > 10 * defaultMax ==> RouteMax(tunable, raw, name, defaultMax) == Some(10 * defaultMax)
  {
    CapIsExact(first, defaultMax);
    FirstIsCapped(tunable, raw, name, defaultMax, first);
  }

  lemma CapIsExact(first: nat, defaultMax: int)
    ensures Minimum(first, defaultMax * RATE_LIMIT_OVERRIDE_CAP_MULTIPLIER) == if first <= 10 * defaultMax then first else 10 * defaultMax
  {
  }

  lemma FirstIsCapped(tunable: set<string>, raw: string, name: string, defaultMax: int, first: nat)
    requires name in tunable && FirstMax(EntriesOf(raw), name) == Some(first)
    ensures RouteMax(tunable, raw, name, defaultMax) == Some(Minimum(first, defaultMax * RATE_LIMIT_OVERRIDE_CAP_MULTIPLIER))
  {
  }

  /** A route has a tuned budget exactly when it is tunable and an entry gives it a maximum. */
  lemma TunedIff(tunable: set<string>, raw: string, name: string, defaultMax: int)
    ensures RouteMax(tunable, raw, name, defaultMax).Some?
      <==> name in tunable && exists i :: 0 <= i < |EntriesOf(raw)| && Decides(EntriesOf(raw), name, i)
  {
    if RouteMax(tunable, raw, name, defaultMax).Some? {
      var i := SomeEntryDecides(EntriesOf(raw), name);
    }
    if i :| 0 <= i < |EntriesOf(raw)| && Decides(EntriesOf(raw), name, i) {
      FirstMaxIsDecided(EntriesOf(raw), name, i);
    }
  }

  // ----- the report

  predicate Malformed(entry: Entry) {
    !Accepted(entry) || entry.extra
  }

  function IssuesOf(tunable: set<string>, entries: seq<Entry>): Issues {
    if entries == [] then Issues([], [])
    else
      var before, last := IssuesOf(tunable, entries[..|entries| - 1]), entries[|entries| - 1];
      if Malformed(last) then before.(malformed := before.malformed + [last.text])
      else if last.name !in tunable then before.(untunable := before.untunable + [last.name])
      else before
  }

  method RateLimitOverrideIssues(tunable: set<string>, raw: string) returns (issues: Issues)
    ensures issues == IssuesOf(tunable, EntriesOf(raw))
  {
    var entries := EntriesOf(raw);
    issues := Issues([], []);
    for i := 0 to |entries|
      invariant issues == IssuesOf(tunable, entries[..i])
    {
      assert entries[..i + 1][..i] == entries[..i];
      var entry := entries[i];
      if entry.name == [] || entry.value.None? || entry.extra || !WholeNumber(entry.value.value) {
        issues := issues.(malformed := issues.malformed + [entry.text]);
      } else if entry.name !in tunable {
        issues := issues.(untunable := issues.untunable + [entry.name]);
      }
    }
    assert entries[..|entries|] == entries;
  }

  /** A string without issues is made of tunable pairs only, and every one of its names gets a budget. */
  lemma {:induction false} NoIssuesIff(tunable: set<string>, entries: seq<Entry>)
    ensures IssuesOf(tunable, entries) == Issues([], [])
      <==> forall i :: 0 <= i < |entries| ==> !Malformed(entries[i]) && entries[i].name in tunable
  {
    if entries != [] {
      NoIssuesIff(tunable, entries[..|entries| - 1]);
    }
  }

  lemma {:induction false} AcceptedNameHasMax(entries: seq<Entry>, i: nat)
    requires i < |entries| && Accepted(entries[i])
    ensures FirstMax(entries, entries[i].name).Some?
  {
    if i > 0 { AcceptedNameHasMax(entries[1..], i - 1); }
  }

  /** Every name of a saved string without issues is a route with a tuned budget. */
  lemma SavedNamesAreTuned(tunable: set<string>, raw: string, i: nat, defaultMax: int)
    requires IssuesOf(tunable, EntriesOf(raw)) == Issues([], []) && i < |EntriesOf(raw)|
    ensures RouteMax(tunable, raw, EntriesOf(raw)[i].name, defaultMax).Some?
  {
    NoIssuesIff(tunable, EntriesOf(raw));
    AcceptedNameHasMax(EntriesOf(raw), i);
  }

  // ----- where the report and the lookups part

  function Occurrences(s: string, c: char): nat {
    if s == [] then 0 else (if s[0] == c then 1 else 0) + Occurrences(s[1..], c)
  }

  lemma {:induction false} PartsAreCounted(s: string, c: char)
    ensures |SplitOn(s, c)| == Occurrences(s, c) + 1
  {
    if s != [] { PartsAreCounted(s[1..], c); }
  }

  /** An entry is its text, cut; it has extra parts exactly when the text holds a second equals sign. */
  lemma EntryIsItsText(raw: string, i: nat)
    requires i < |EntriesOf(raw)|
    ensures var entry := EntriesOf(raw)[i];
      && entry == ReadEntry(entry.text)
      && (entry.extra <==> Occurrences(entry.text, '=') >= 2)
      && (Accepted(entry) ==> Occurrences(entry.text, '=') >= 1)
  {
    PartsAreCounted(EntriesOf(raw)[i].text, '=');
  }

  lemma {:induction false} MalformedAreListed(tunable: set<string>, entries: seq<Entry>, text: string)
    ensures text in IssuesOf(tunable, entries).malformed
      <==> exists i :: 0 <= i < |entries| && entries[i].text == text && Malformed(entries[i])
  {
    if entries != [] {
      var rest, last := entries[..|entries| - 1], |entries| - 1;
      MalformedAreListed(tunable, rest, text);
      if i :| 0 <= i < |rest| && rest[i].text == text && Malformed(rest[i]) { assert entries[i] == rest[i]; }
      if i :| 0 <= i < |entries| && entries[i].text == text && Malformed(entries[i]) {
        assert i < last ==> rest[i] == entries[i];
      }
    }
  }

  /** The report lists the text of this entry. */
  predicate Reported(tunable: set<string>, raw: string, i: nat)
    requires i < |EntriesOf(raw)|
  {
    EntriesOf(raw)[i].text in IssuesOf(tunable, EntriesOf(raw)).malformed
  }

  lemma ReportedIff(tunable: set<string>, raw: string, i: nat)
    requires i < |EntriesOf(raw)|
    ensures Reported(tunable, raw, i) <==> Malformed(EntriesOf(raw)[i])
  {
    var entries := EntriesOf(raw);
    MalformedAreListed(tunable, entries, entries[i].text);
    EntryIsItsText(raw, i);
    if j :| 0 <= j < |entries| && entries[j].text == entries[i].text && Malformed(entries[j]) {
      EntryIsItsText(raw, j);
    }
  }

  /** The report lists exactly the entries the lookups ignore if and only if no entry they use holds a second equals sign. */
  lemma ReportAgreesIff(tunable: set<string>, raw: string)
    ensures (forall i :: 0 <= i < |EntriesOf(raw)| ==> (Reported(tunable, raw, i) <==> !Accepted(EntriesOf(raw)[i])))
      <==> forall i :: 0 <= i < |EntriesOf(raw)| && Accepted(EntriesOf(raw)[i]) ==> Occurrences(EntriesOf(raw)[i].text, '=') == 1
  {
    forall i | 0 <= i < |EntriesOf(raw)|
      ensures (Reported(tunable, raw, i) <==> !Accepted(EntriesOf(raw)[i]))
        <==> (Accepted(EntriesOf(raw)[i]) ==> Occurrences(EntriesOf(raw)[i].text, '=') == 1)
    {
      ReportedIff(tunable, raw, i);
      EntryIsItsText(raw, i);
    }
  }

  /** The entry a lookup of this name rests on: the first accepted one. */
  predicate Decides(entries: seq<Entry>, name: string, i: nat)
    requires i < |entries|
  {
    Accepted(entries[i]) && entries[i].name == name
      && forall j :: 0 <= j < i && Accepted(entries[j]) ==> entries[j].name != name
  }

  lemma {:induction false} FirstMaxIsDecided(entries: seq<Entry>, name: string, i: nat)
    requires i < |entries| && Decides(entries, name, i)
    ensures FirstMax(entries, name) == Some(Max(entries[i]))
  {
    if i > 0 {
      assert Decides(entries[1..], name, i - 1) by {
        forall j | 0 <= j < i - 1 && Accepted(entries[1..][j]) ensures entries[1..][j].name != name {
          assert entries[1..][j] == entries[j + 1];
        }
      }
      FirstMaxIsDecided(entries[1..], name, i - 1);
    }
  }

  lemma {:induction false} SomeEntryDecides(entries: seq<Entry>, name: string) returns (i: nat)
    requires FirstMax(entries, name).Some?
    ensures i < |entries| && Decides(entries, name, i)
  {
    if Accepted(entries[0]) && entries[0].name == name {
      i := 0;
    } else {
      var k := SomeEntryDecides(entries[1..], name);
      i := k + 1;
      forall j | 0 <= j < i && Accepted(entries[j]) ensures entries[j].name != name {
        if j > 0 { assert entries[1..][j - 1] == entries[j]; }
      }
    }
  }

  /** Every tuned budget rests on one entry, and that entry was reported as malformed exactly when it holds a second equals sign. */
  lemma BudgetIsReportedIff(tunable: set<string>, raw: string, name: string, defaultMax: int) returns (i: nat)
    requires RouteMax(tunable, raw, name, defaultMax).Some?
    ensures i < |EntriesOf(raw)| && Decides(EntriesOf(raw), name, i)
    ensures RouteMax(tunable, raw, name, defaultMax).value
      == Minimum(Max(EntriesOf(raw)[i]), defaultMax * RATE_LIMIT_OVERRIDE_CAP_MULTIPLIER)
    ensures Reported(tunable, raw, i) <==> Occurrences(EntriesOf(raw)[i].text, '=') >= 2
  {
    i := SomeEntryDecides(EntriesOf(raw), name);
    FirstMaxIsDecided(EntriesOf(raw), name, i);
    ReportedIff(tunable, raw, i);
    EntryIsItsText(raw, i);
  }

  lemma {:induction false} SplitFirst(left: string, c: char, right: string)
    requires c !in left
    ensures SplitOn(left + [c] + right, c) == [left] + SplitOn(right, c)
  {
    var s := left + [c] + right;
    if left == [] {
      assert s[0] == c && s[1..] == right;
    } else {
      assert s[0] == left[0] && s[1..] == left[1..] + [c] + right;
      SplitFirst(left[1..], c, right);
      assert [left[0]] + left[1..] == left;
    }
  }

  lemma OneEntry(text: string)
    requires ',' !in text && text != "" && Trim(text) == text
    ensures EntriesOf(text) == [ReadEntry(text)]
  {
    CommaItemsOfOne(text);
  }

  lemma OneReportedEntry(tunable: set<string>, entry: Entry)
    requires Accepted(entry) && entry.extra
    ensures IssuesOf(tunable, [entry]) == Issues([entry.text], [])
    ensures FirstMax([entry], entry.name) == Some(Max(entry))
  {
    assert [entry][..|[entry]| - 1] == [];
  }

  /** A part of an entry: no separator in it, and no space at either end. */
  predicate PlainPart(part: string) {
    part != [] && ',' !in part && '=' !in part && Trimmed(part)
  }

  lemma SplitInThree(name: string, first: string, second: string)
    requires '=' !in name && '=' !in first && '=' !in second
    ensures SplitOn(name + ['='] + (first + ['='] + second), '=') == [name, first, second]
  {
    SplitFirst(name, '=', first + ['='] + second);
    SplitFirst(first, '=', second);
    NothingToSplit(second, '=');
  }

  lemma CutEntry(text: string, parts: seq<string>)
    requires |parts| == 3 && SplitOn(text, '=') == parts && Trimmed(parts[0]) && Trimmed(parts[1])
    ensures ReadEntry(text) == Entry(text, parts[0], Some(parts[1]), true)
  {
    TrimmedIff(parts[0]);
    TrimmedIff(parts[1]);
  }

  lemma EndsDecide(left: string, middle: string, right: string)
    requires left != [] && right != [] && Trimmed(left) && Trimmed(right)
    ensures Trim(left + middle + right) == left + middle + right
  {
    var s := left + middle + right;
    assert s[0] == left[0] && s[|s| - 1] == right[|right| - 1];
    TrimmedIff(s);
  }

  lemma ThreeParts(name: string, first: string, second: string)
    requires PlainPart(name) && PlainPart(first) && PlainPart(second)
    ensures var raw := name + ['='] + (first + ['='] + second);
      EntriesOf(raw) == [Entry(raw, name, Some(first), true)]
  {
    var raw := name + ['='] + (first + ['='] + second);
    SplitInThree(name, first, second);
    CutEntry(raw, [name, first, second]);
    assert raw == name + (['='] + first + ['=']) + second;
    EndsDecide(name, ['='] + first + ['='], second);
    OneEntry(raw);
  }

  /** The whole string is reported as malformed, and the route runs with its first number. */
  lemma ThreePartsAreLookedUp(tunable: set<string>, name: string, first: string, second: string, defaultMax: int)
    requires PlainPart(name) && PlainPart(first) && PlainPart(second) && WholeNumber(first) && name in tunable
    ensures var raw := name + ['='] + (first + ['='] + second);
      && IssuesOf(tunable, EntriesOf(raw)) == Issues([raw], [])
      && RouteMax(tunable, raw, name, defaultMax)
        == Some(Minimum(DecimalValue(first), defaultMax * RATE_LIMIT_OVERRIDE_CAP_MULTIPLIER))
  {
    var raw := name + ['='] + (first + ['='] + second);
    ThreeParts(name, first, second);
    OneReportedEntry(tunable, Entry(raw, name, Some(first), true));
  }

  const SUBTITLES := "subtitle-content"
  const REPORTED := "subtitle-content=5=6"

  /** So with this string: it is reported, and the subtitle route runs with a budget of 5. */
  lemma ReportedBudgetApplies()
    ensures IssuesOf({SUBTITLES}, EntriesOf(REPORTED)) == Issues([REPORTED], [])
    ensures RouteMax({SUBTITLES}, REPORTED, SUBTITLES, 60) == Some(5)
  {
    var first, second := ['5'], ['6'];
    assert REPORTED == SUBTITLES + ['='] + (first + ['='] + second);
    assert first[..0] == [] && DecimalValue(first) == 5;
    ThreePartsAreLookedUp({SUBTITLES}, SUBTITLES, first, second, 60);
  }

  // ----- strings put together

  lemma {:induction false} FirstMaxOfBoth(a: seq<Entry>, b: seq<Entry>, name: string)
    ensures FirstMax(a + b, name) == if FirstMax(a, name).Some? then FirstMax(a, name) else FirstMax(b, name)
  {
    if a == [] {
      assert a + b == b;
    } else {
      assert (a + b)[1..] == a[1..] + b;
      FirstMaxOfBoth(a[1..], b, name);
    }
  }

  lemma EntriesOfBoth(left: string, right: string)
    ensures EntriesOf(left + [','] + right) == EntriesOf(left) + EntriesOf(right)
  {
    CommaItemsOfBoth(left, right);
    ReadBoth(CommaItems(left), CommaItems(right));
  }

  lemma ReadBoth(a: seq<string>, b: seq<string>)
    ensures ReadAll(a + b) == ReadAll(a) + ReadAll(b)
  {
  }

  /** Of two strings put together with a comma, the first that gives the route a budget decides. */
  lemma EarlierStringDecides(tunable: set<string>, left: string, right: string, name: string, defaultMax: int)
    ensures RouteMax(tunable, left + [','] + right, name, defaultMax)
      == if RouteMax(tunable, left, name, defaultMax).Some? then RouteMax(tunable, left, name, defaultMax)
         else RouteMax(tunable, right, name, defaultMax)
  {
    EntriesOfBoth(left, right);
    FirstMaxOfBoth(EntriesOf(left), EntriesOf(right), name);
  }

  lemma BlankHolds(blank: string)
    requires IsBlank(blank)
    ensures ',' !in blank && '=' !in blank
  {
  }

  lemma NumberIsPlain(n: nat)
    requires n > 0
    ensures PlainPart(Decimal(n)) && WholeNumber(Decimal(n))
  {
    NoLeadingZero(n);
    var s := Decimal(n);
    assert '0' <= s[0] <= '9' && '0' <= s[|s| - 1] <= '9';
  }

  /** A trimmed pair, with blank text on both sides of its equals sign. */
  lemma PairIsCut(name: string, b: string, c: string, value: string)
    requires PlainPart(name) && PlainPart(value) && IsBlank(b) && IsBlank(c)
    ensures var text := (name + b) + ['='] + (c + value); ReadEntry(text) == Entry(text, name, Some(value), false)
  {
    BlankHolds(b);
    BlankHolds(c);
    CutInTwo(name + b, c + value);
    TrimOfPadded("", name, b);
    TrimOfPadded(c, value, "");
    assert "" + name + b == name + b && c + value + "" == c + value;
  }

  lemma CutInTwo(left: string, right: string)
    requires '=' !in left && '=' !in right
    ensures ReadEntry(left + ['='] + right) == Entry(left + ['='] + right, Trim(left), Some(Trim(right)), false)
  {
    SplitFirst(left, '=', right);
    NothingToSplit(right, '=');
  }

  lemma PairIsTrimmed(name: string, b: string, c: string, value: string)
    requires PlainPart(name) && PlainPart(value) && IsBlank(b) && IsBlank(c)
    ensures var text := (name + b) + ['='] + (c + value); Trim(text) == text && text != [] && ',' !in text
  {
    BlankHolds(b);
    BlankHolds(c);
    EndsDecide(name, b + ['='] + c, value);
    assert name + (b + ['='] + c) + value == (name + b) + ['='] + (c + value);
  }

  /** A name and a positive whole number, with blank text anywhere around them, give the route that number without an issue. */
  lemma PaddedPairIsUsed(tunable: set<string>, a: string, name: string, b: string, c: string, n: nat, d: string, defaultMax: int)
    requires PlainPart(name) && name in tunable && n > 0 && IsBlank(a) && IsBlank(b) && IsBlank(c) && IsBlank(d)
    ensures var raw := a + ((name + b) + ['='] + (c + Decimal(n))) + d;
      && RouteMax(tunable, raw, name, defaultMax) == Some(if n <= 10 * defaultMax then n else 10 * defaultMax)
      && IssuesOf(tunable, EntriesOf(raw)) == Issues([], [])
  {
    var text := (name + b) + ['='] + (c + Decimal(n));
    var entry := Entry(text, name, Some(Decimal(n)), false);
    NumberIsPlain(n);
    PairIsCut(name, b, c, Decimal(n));
    PairIsTrimmed(name, b, c, Decimal(n));
    PaddedEntryIsRead(a, text, d);
    DecimalRoundTrip(n);
    OneGoodEntry(tunable, a + text + d, entry, defaultMax);
  }

  lemma PaddedEntryIsRead(a: string, text: string, d: string)
    requires IsBlank(a) && IsBlank(d) && text != [] && Trim(text) == text && ',' !in text
    ensures EntriesOf(a + text + d) == [ReadEntry(text)]
  {
    BlankHolds(a);
    BlankHolds(d);
    TrimmedIff(text);
    TrimOfPadded(a, text, d);
    CommaItemsOfOne(a + text + d);
  }

  lemma OneGoodEntry(tunable: set<string>, raw: string, entry: Entry, defaultMax: int)
    requires EntriesOf(raw) == [entry] && Accepted(entry) && !entry.extra && entry.name in tunable
    ensures IssuesOf(tunable, EntriesOf(raw)) == Issues([], [])
    ensures RouteMax(tunable, raw, entry.name, defaultMax)
      == Some(if Max(entry) <= 10 * defaultMax then Max(entry) else 10 * defaultMax)
  {
    assert [entry][..|[entry]| - 1] == [];
  }
}
