/**
 The lint that reports adjacent awaits: which pairs of a statement list it records, which marker explains each of them,
 and which markers explain nothing. What a statement is and whether it depends on the one before it come from the parser.
 */
module AwaitScan {
  import opened Text

  datatype Marker = Marker(line: nat, reason: string)

  /** A statement of a list: whether it awaits, the marker above it, and whether it reads a name the previous one binds. */
  datatype Statement = Statement(isAwait: bool, above: Option<Marker>, dependsOnPrevious: bool, line: nat)

  datatype Pair = Pair(line: nat, marker: Option<Marker>)

  datatype Report = Report(pairs: seq<Pair>, dependent: nat, inTransaction: nat, usedMarkers: set<nat>)

  /** Statements `i` and `i + 1` both await. */
  predicate IsPair(statements: seq<Statement>, i: nat) {
    i + 1 < |statements| && statements[i].isAwait && statements[i + 1].isAwait
  }

  /** The pairs that start before `n`. */
  function PairsBefore(statements: seq<Statement>, n: nat): set<nat> {
    set i: nat | i < n && IsPair(statements, i)
  }

  // ----- runs

  /** The awaits from `a` to `i` are consecutive. */
  predicate InRun(statements: seq<Statement>, a: nat, i: nat) {
    a <= i < |statements| && forall k :: a <= k <= i ==> statements[k].isAwait
  }

  /** The marker in force at an await: the first one above an await of its run, up to it. */
  ghost predicate ExplainedBy(statements: seq<Statement>, i: nat, marker: Marker) {
    exists a: nat :: InRun(statements, a, i) && statements[a].above == Some(marker) && FirstInRun(statements, a)
  }

  /** No await before `a` in its run has a marker above it. */
  ghost predicate FirstInRun(statements: seq<Statement>, a: nat)
    requires a < |statements|
  {
    forall b: nat :: b < a && InRun(statements, b, a) ==> statements[b].above == None
  }

  /** What `runMarker` holds after the statement at `i` was looked at. */
  function RunMarker(statements: seq<Statement>, i: nat): Option<Marker>
    requires i < |statements|
  {
    if !statements[i].isAwait then None
    else if i > 0 && RunMarker(statements, i - 1).Some? then RunMarker(statements, i - 1)
    else statements[i].above
  }

  /** A marker in force at the await before. */
  ghost predicate HeldBefore(statements: seq<Statement>, i: nat, marker: Marker)
    requires i < |statements|
  {
    i > 0 && ExplainedBy(statements, i - 1, marker)
  }

  lemma HeldStays(statements: seq<Statement>, i: nat, marker: Marker)
    requires i < |statements| && statements[i].isAwait && HeldBefore(statements, i, marker)
    ensures ExplainedBy(statements, i, marker)
  {
  }

  lemma HeldOrAbove(statements: seq<Statement>, i: nat, marker: Marker)
    requires i < |statements| && ExplainedBy(statements, i, marker)
    ensures HeldBefore(statements, i, marker) || (statements[i].above == Some(marker) && FirstInRun(statements, i))
  {
  }

  lemma FirstHoldsNone(statements: seq<Statement>, i: nat, marker: Marker)
    requires i < |statements| && statements[i].isAwait && FirstInRun(statements, i)
    ensures !HeldBefore(statements, i, marker)
  {
  }

  lemma FirstOrHeld(statements: seq<Statement>, i: nat)
    requires i < |statements| && statements[i].isAwait
    ensures FirstInRun(statements, i) || exists marker :: HeldBefore(statements, i, marker)
  {
    if !FirstInRun(statements, i) {
      var b: nat :| b < i && InRun(statements, b, i) && statements[b].above != None;
      var first := FirstMarked(statements, b);
      assert InRun(statements, first, i - 1);
      assert HeldBefore(statements, i, statements[first].above.value);
    }
  }

  /** The variable the loop carries is the first marker of the run. */
  lemma {:induction false} RunMarkerIsFirst(statements: seq<Statement>, i: nat, marker: Marker)
    requires i < |statements|
    ensures RunMarker(statements, i) == Some(marker) <==> ExplainedBy(statements, i, marker)
  {
    if statements[i].isAwait {
      FirstOrHeld(statements, i);
      if FirstInRun(statements, i) {
        FirstHoldsNone(statements, i, marker);
        NoneHeld(statements, i);
        assert statements[i].above == Some(marker) ==> InRun(statements, i, i);
        if ExplainedBy(statements, i, marker) { HeldOrAbove(statements, i, marker); }
      } else {
        var held :| HeldBefore(statements, i, held);
        RunMarkerIsFirst(statements, i - 1, held);
        RunMarkerIsFirst(statements, i - 1, marker);
        if HeldBefore(statements, i, marker) { HeldStays(statements, i, marker); }
        if ExplainedBy(statements, i, marker) { HeldOrAbove(statements, i, marker); }
      }
    }
  }

  /** At the first marked or unmarked await of a run no marker is carried over. */
  lemma {:induction false} NoneHeld(statements: seq<Statement>, i: nat)
    requires i < |statements| && statements[i].isAwait && FirstInRun(statements, i)
    ensures i > 0 ==> RunMarker(statements, i - 1) == None
  {
    if i > 0 && statements[i - 1].isAwait {
      assert InRun(statements, i - 1, i);
      forall b: nat | b < i - 1 && InRun(statements, b, i - 1) ensures statements[b].above == None {
        assert InRun(statements, b, i);
      }
      NoneHeld(statements, i - 1);
    }
  }

  /** The first marked await of the run that `b` is in, at or before `b`. */
  lemma {:induction false} FirstMarked(statements: seq<Statement>, b: nat) returns (first: nat)
    requires b < |statements| && statements[b].isAwait && statements[b].above.Some?
    ensures first <= b && InRun(statements, first, b) && statements[first].above.Some? && FirstInRun(statements, first)
    decreases b
  {
    if FirstInRun(statements, b) {
      first := b;
    } else {
      var c: nat :| c < b && InRun(statements, c, b) && statements[c].above != None;
      first := FirstMarked(statements, c);
    }
  }

  // ----- the scan

  function OrElse(first: Option<Marker>, second: Option<Marker>): Option<Marker> {
    if first.Some? then first else second
  }

  /** The pairs recorded among those that start before `n`, in order. */
  function Recorded(statements: seq<Statement>, header: Option<Marker>, n: nat): seq<Pair> {
    if n == 0 then []
    else
      var before, i := Recorded(statements, header, n - 1), n - 1;
      if IsPair(statements, i) && !statements[i + 1].dependsOnPrevious
      then before + [Pair(statements[i].line, OrElse(header, RunMarker(statements, i)))] else before
  }

  function DependentBefore(statements: seq<Statement>, n: nat): set<nat> {
    set i: nat | i < n && IsPair(statements, i) && statements[i + 1].dependsOnPrevious
  }

  function UsedBy(pairs: seq<Pair>): set<nat> {
    set pair | pair in pairs && pair.marker.Some? :: pair.marker.value.line
  }

  method ScanStatements(statements: seq<Statement>, header: Option<Marker>, inTransaction: bool) returns (report: Report)
    ensures inTransaction ==> report == Report([], 0, |PairsBefore(statements, |statements|)|, {})
    ensures !inTransaction ==> report == Report(
      Recorded(statements, header, |statements|), |DependentBefore(statements, |statements|)|, 0,
      UsedBy(Recorded(statements, header, |statements|)))
  {
    report := Report([], 0, 0, {});
    var index := 0;
    if inTransaction {
      while index + 1 < |statements|
        invariant index <= |statements| && report == Report([], 0, |PairsBefore(statements, index)|, {})
      {
        PairsNext(statements, index);
        if statements[index].isAwait && statements[index + 1].isAwait {
          report := report.(inTransaction := report.inTransaction + 1);
        }
        index := index + 1;
      }
      if index < |statements| { PairsNext(statements, index); }
      return;
    }
    var runMarker: Option<Marker> := None;
    while index + 1 < |statements|
      invariant index <= |statements| && runMarker == if index == 0 then None else RunMarker(statements, index - 1)
      invariant report.pairs == Recorded(statements, header, index) && report.inTransaction == 0
      invariant report.dependent == |DependentBefore(statements, index)| && report.usedMarkers == UsedBy(report.pairs)
    {
      DependentNext(statements, index);
      index := index + 1;
      var first, second := statements[index - 1], statements[index];
      if !first.isAwait {
        runMarker := None;
        continue;
      }
      runMarker := OrElse(runMarker, first.above);
      if !second.isAwait { continue; }
      if second.dependsOnPrevious {
        report := report.(dependent := report.dependent + 1);
        continue;
      }
      report := RecordPair(report, first, OrElse(header, runMarker));
    }
    if index < |statements| { DependentNext(statements, index); }
  }

  /** `recordPair`. */
  method RecordPair(before: Report, first: Statement, explained: Option<Marker>) returns (report: Report)
    ensures report == before.(
      pairs := before.pairs + [Pair(first.line, explained)], usedMarkers := report.usedMarkers)
    ensures before.usedMarkers == UsedBy(before.pairs) ==> report.usedMarkers == UsedBy(report.pairs)
  {
    UsedNext(before.pairs, Pair(first.line, explained));
    report := before.(
      pairs := before.pairs + [Pair(first.line, explained)],
      usedMarkers := before.usedMarkers + if explained.Some? then {explained.value.line} else {});
  }

  lemma PairsNext(statements: seq<Statement>, n: nat)
    ensures |PairsBefore(statements, n + 1)| == |PairsBefore(statements, n)| + if IsPair(statements, n) then 1 else 0
  {
    assert PairsBefore(statements, n + 1) == PairsBefore(statements, n) + if IsPair(statements, n) then {n} else {};
  }

  lemma DependentNext(statements: seq<Statement>, n: nat)
    ensures |DependentBefore(statements, n + 1)|
      == |DependentBefore(statements, n)| + if IsPair(statements, n) && statements[n + 1].dependsOnPrevious then 1 else 0
  {
    assert DependentBefore(statements, n + 1)
      == DependentBefore(statements, n) + if IsPair(statements, n) && statements[n + 1].dependsOnPrevious then {n} else {};
  }

  lemma UsedNext(pairs: seq<Pair>, pair: Pair)
    ensures UsedBy(pairs + [pair]) == UsedBy(pairs) + if pair.marker.Some? then {pair.marker.value.line} else {}
  {
  }

  /** Every adjacent pair of awaits is accounted for once: recorded or dependent. */
  lemma {:induction false} EveryPairIsCounted(statements: seq<Statement>, header: Option<Marker>, n: nat)
    ensures |Recorded(statements, header, n)| + |DependentBefore(statements, n)| == |PairsBefore(statements, n)|
  {
    if n == 0 {
      assert PairsBefore(statements, 0) == {} && DependentBefore(statements, 0) == {};
    } else {
      EveryPairIsCounted(statements, header, n - 1);
      DependentNext(statements, n - 1);
      PairsNext(statements, n - 1);
    }
  }

  /**
   `pair` is what is recorded of statement `i` and the next: both await, the next does not depend on it, and the marker is
   the file's, or else the one in force at `i`.
   */
  predicate RecordsPair(statements: seq<Statement>, header: Option<Marker>, i: nat, pair: Pair) {
    && i + 1 < |statements| && statements[i].isAwait && statements[i + 1].isAwait && !statements[i + 1].dependsOnPrevious
    && pair.line == statements[i].line
    && (header.Some? ==> pair.marker == header)
    && (header.None? ==> pair.marker == RunMarker(statements, i))
  }

  /** What is recorded is exactly the independent pairs, each with the file's marker or the first marker of its run. */
  lemma {:induction false} RecordedExactly(statements: seq<Statement>, header: Option<Marker>, n: nat, pair: Pair)
    ensures pair in Recorded(statements, header, n) <==> exists i: nat :: i < n && RecordsPair(statements, header, i, pair)
  {
    if n > 0 {
      var last: nat := n - 1;
      RecordedExactly(statements, header, last, pair);
      LastRecorded(statements, header, last, pair);
    }
  }

  lemma LastRecorded(statements: seq<Statement>, header: Option<Marker>, last: nat, pair: Pair)
    ensures pair in Recorded(statements, header, last + 1)
      <==> pair in Recorded(statements, header, last) || RecordsPair(statements, header, last, pair)
  {
  }

  /** Statement `i` and the next are recorded as a pair that the marker on `line` explains. */
  ghost predicate ExplainedFrom(statements: seq<Statement>, header: Option<Marker>, i: nat, line: nat) {
    exists pair :: RecordsPair(statements, header, i, pair) && pair.marker.Some? && pair.marker.value.line == line
  }

  /** A marker is used exactly when some recorded pair carries it; the others are reported as stale. */
  lemma UsedIffItExplains(statements: seq<Statement>, header: Option<Marker>, line: nat)
    ensures line in UsedBy(Recorded(statements, header, |statements|)) <==>
      exists i: nat :: ExplainedFrom(statements, header, i, line)
  {
    var pairs := Recorded(statements, header, |statements|);
    if line in UsedBy(pairs) {
      var pair :| pair in pairs && pair.marker.Some? && pair.marker.value.line == line;
      RecordedExactly(statements, header, |statements|, pair);
      var i: nat :| i < |statements| && RecordsPair(statements, header, i, pair);
      assert ExplainedFrom(statements, header, i, line);
    }
    if i: nat :| ExplainedFrom(statements, header, i, line) {
      var pair :| RecordsPair(statements, header, i, pair) && pair.marker.Some? && pair.marker.value.line == line;
      RecordedExactly(statements, header, |statements|, pair);
      assert pair in pairs;
    }
  }

  // ----- a whole file

  /** A statement list of the file, and whether a function around it takes or opens a transaction. */
  datatype StatementList = StatementList(statements: seq<Statement>, inTransaction: bool)

  function RecordedIn(list: StatementList, header: Option<Marker>): seq<Pair> {
    if list.inTransaction then [] else Recorded(list.statements, header, |list.statements|)
  }

  function AllRecorded(lists: seq<StatementList>, header: Option<Marker>): seq<Pair> {
    if lists == [] then [] else AllRecorded(lists[..|lists| - 1], header) + RecordedIn(lists[|lists| - 1], header)
  }

  function AllDependent(lists: seq<StatementList>): nat {
    if lists == [] then 0
    else
      var last := lists[|lists| - 1];
      AllDependent(lists[..|lists| - 1]) + if last.inTransaction then 0 else |DependentBefore(last.statements, |last.statements|)|
  }

  function AllInTransaction(lists: seq<StatementList>): nat {
    if lists == [] then 0
    else
      var last := lists[|lists| - 1];
      AllInTransaction(lists[..|lists| - 1]) + if last.inTransaction then |PairsBefore(last.statements, |last.statements|)| else 0
  }

  function AllPairs(lists: seq<StatementList>): nat {
    if lists == [] then 0
    else
      var last := lists[|lists| - 1];
      AllPairs(lists[..|lists| - 1]) + |PairsBefore(last.statements, |last.statements|)|
  }

  /** Every adjacent pair of awaits of the file is recorded, dependent or in a transaction, and counted once. */
  lemma {:induction false} EveryPairOfTheFile(lists: seq<StatementList>, header: Option<Marker>)
    ensures |AllRecorded(lists, header)| + AllDependent(lists) + AllInTransaction(lists) == AllPairs(lists)
  {
    if lists != [] {
      var last := lists[|lists| - 1];
      EveryPairOfTheFile(lists[..|lists| - 1], header);
      EveryPairIsCounted(last.statements, header, |last.statements|);
    }
  }

  /** The first `n` lines that hold a marker no pair carries. */
  function StaleBefore(hasMarker: seq<bool>, used: set<nat>, n: nat): seq<nat>
    requires n <= |hasMarker|
  {
    if n == 0 then []
    else StaleBefore(hasMarker, used, n - 1) + if hasMarker[n - 1] && n - 1 !in used then [n - 1] else []
  }

  /** The walk over the file: every statement list is scanned into one report. */
  method ScanLists(lists: seq<StatementList>, header: Option<Marker>) returns (report: Report)
    ensures report.pairs == AllRecorded(lists, header) && report.usedMarkers == UsedBy(report.pairs)
    ensures report.dependent == AllDependent(lists) && report.inTransaction == AllInTransaction(lists)
  {
    report := Report([], 0, 0, {});
    for i := 0 to |lists|
      invariant report.pairs == AllRecorded(lists[..i], header) && report.usedMarkers == UsedBy(report.pairs)
      invariant report.dependent == AllDependent(lists[..i]) && report.inTransaction == AllInTransaction(lists[..i])
    {
      assert lists[..i + 1][..i] == lists[..i];
      var one := ScanStatements(lists[i].statements, header, lists[i].inTransaction);
      UsedTogether(report.pairs, one.pairs);
      report := Report(report.pairs + one.pairs, report.dependent + one.dependent, report.inTransaction + one.inTransaction,
                       report.usedMarkers + one.usedMarkers);
    }
    assert lists[..|lists|] == lists;
  }

  /** `analyzeFile`: one report for the file, and the markers on lines no recorded pair carries. */
  method AnalyzeFile(lists: seq<StatementList>, header: Option<Marker>, hasMarker: seq<bool>)
    returns (report: Report, stale: seq<nat>)
    ensures report.pairs == AllRecorded(lists, header) && report.usedMarkers == UsedBy(report.pairs)
    ensures report.dependent == AllDependent(lists) && report.inTransaction == AllInTransaction(lists)
    ensures |report.pairs| + report.dependent + report.inTransaction == AllPairs(lists)
    ensures stale == StaleBefore(hasMarker, report.usedMarkers, |hasMarker|)
  {
    report := ScanLists(lists, header);
    EveryPairOfTheFile(lists, header);
    stale := [];
    for line := 0 to |hasMarker|
      invariant stale == StaleBefore(hasMarker, report.usedMarkers, line)
    {
      if hasMarker[line] && line !in report.usedMarkers { stale := stale + [line]; }
    }
  }

  lemma UsedTogether(a: seq<Pair>, b: seq<Pair>)
    ensures UsedBy(a + b) == UsedBy(a) + UsedBy(b)
  {
  }

  /** The pair at `i` of this list is recorded, and the marker on `line` explains it. */
  ghost predicate Explains(list: StatementList, header: Option<Marker>, i: nat, line: nat) {
    !list.inTransaction && ExplainedFrom(list.statements, header, i, line)
  }

  ghost predicate ExplainsIn(lists: seq<StatementList>, header: Option<Marker>, line: nat) {
    exists list, i :: list in lists && Explains(list, header, i, line)
  }

  lemma {:induction false} UsedInFile(lists: seq<StatementList>, header: Option<Marker>, line: nat)
    ensures line in UsedBy(AllRecorded(lists, header)) <==> ExplainsIn(lists, header, line)
  {
    if lists != [] {
      var rest, last := lists[..|lists| - 1], lists[|lists| - 1];
      assert lists == rest + [last];
      UsedInFile(rest, header, line);
      UsedTogether(AllRecorded(rest, header), RecordedIn(last, header));
      UsedIffItExplains(last.statements, header, line);
      if list, i :| list in lists && Explains(list, header, i, line) {
        assert list in rest || list == last;
      }
      if line in UsedBy(RecordedIn(last, header)) {
        var i: nat :| ExplainedFrom(last.statements, header, i, line);
        assert Explains(last, header, i, line);
      }
      if ExplainsIn(rest, header, line) {
        var list, i :| list in rest && Explains(list, header, i, line);
        assert list in lists;
      }
    }
  }

  lemma {:induction false} StaleAre(hasMarker: seq<bool>, used: set<nat>, n: nat, line: nat)
    requires n <= |hasMarker|
    ensures line in StaleBefore(hasMarker, used, n) <==> line < n && hasMarker[line] && line !in used
  {
    if n > 0 { StaleAre(hasMarker, used, n - 1, line); }
  }

  /** A marker is reported as stale exactly when it explains no recorded pair anywhere in the file. */
  lemma StaleIffItExplainsNothing(lists: seq<StatementList>, header: Option<Marker>, hasMarker: seq<bool>, line: nat)
    ensures line in StaleBefore(hasMarker, UsedBy(AllRecorded(lists, header)), |hasMarker|)
      <==> line < |hasMarker| && hasMarker[line] && !ExplainsIn(lists, header, line)
  {
    StaleAre(hasMarker, UsedBy(AllRecorded(lists, header)), |hasMarker|, line);
    UsedInFile(lists, header, line);
  }
}
