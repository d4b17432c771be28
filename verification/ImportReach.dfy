/**
 Reachability over an import graph: the breadth-first loop that reads its queue while appending to it, proved against
 walks and their lengths.
 */
module ImportReach {
  import opened Counting
  import opened Folding

  type Path = string

  type Imports = map<Path, seq<Path>>

  datatype Reached = Reached(file: Path, hops: nat)

  const SOURCE_ROOT := "src/"
  const TEST_SUFFIX := ".test.ts"

  predicate IsTestPath(path: Path) {
    |TEST_SUFFIX| <= |path| && path[|path| - |TEST_SUFFIX|..] == TEST_SUFFIX
  }

  predicate IsProductionPath(path: Path) {
    SOURCE_ROOT <= path && !IsTestPath(path)
  }

  predicate ImportsOf(graph: Imports, file: Path, target: Path) {
    file in graph && target in graph[file]
  }

  /** A chain of exactly `n` imports leads from `start` to `file`. */
  ghost predicate Walk(graph: Imports, start: Path, file: Path, n: nat)
    decreases n
  {
    if n == 0 then file == start
    else exists via :: Walk(graph, start, via, n - 1) && ImportsOf(graph, via, file)
  }

  ghost predicate Reachable(graph: Imports, start: Path, file: Path) {
    exists n: nat :: Walk(graph, start, file, n)
  }

  /** The shortest chain from `start` to `file` has `n` imports. */
  ghost predicate Distance(graph: Imports, start: Path, file: Path, n: nat) {
    Walk(graph, start, file, n) && forall m: nat :: Walk(graph, start, file, m) ==> n <= m
  }

  // ----- the state of the search

  ghost function Universe(graph: Imports, start: Path): set<Path> {
    {start} + set file, target | file in graph && target in graph[file] :: target
  }

  /** The queue lists the keys of `hops` once each. Folded until `Key(true)` is mentioned. */
  ghost predicate Listed(graph: Imports, start: Path, hops: map<Path, nat>, queue: seq<Path>) {
    forall u {:trigger Key(u)} :: Key(u) ==>
      && |queue| == |hops| && hops.Keys <= Universe(graph, start)
      && (forall file :: file in hops ==> file in queue)
      && (forall j, k :: 0 <= j < k < |queue| ==> queue[j] != queue[k])
  }

  /** `levels` are the hop counts of the queue, entry by entry. */
  ghost predicate Levelled(hops: map<Path, nat>, queue: seq<Path>, levels: seq<nat>) {
    && 0 < |queue| == |levels|
    && forall j :: 0 <= j < |queue| ==> queue[j] in hops && hops[queue[j]] == levels[j]
  }

  predicate Rising(levels: seq<nat>, bound: nat) {
    && (forall j :: 0 <= j < |levels| ==> levels[j] <= bound)
    && (forall j, k :: 0 <= j <= k < |levels| ==> levels[j] <= levels[k])
  }

  /** Every hop count is the length of a chain. */
  ghost predicate Walked(graph: Imports, start: Path, hops: map<Path, nat>) {
    && start in hops
    && forall file {:trigger Walk(graph, start, file, hops[file])} :: file in hops ==> Walk(graph, start, file, hops[file])
  }

  predicate Extends(hops0: map<Path, nat>, hops: map<Path, nat>) {
    forall file :: file in hops0 ==> file in hops && hops[file] == hops0[file]
  }

  predicate Close(hops: map<Path, nat>, file: Path, target: Path) {
    file in hops && target in hops && hops[target] <= hops[file] + 1
  }

  /** The imports of the first `n` files in the queue are listed, at most one hop further. */
  ghost predicate Expanded(graph: Imports, hops: map<Path, nat>, queue: seq<Path>, n: nat)
    requires n <= |queue|
  {
    forall j: nat, target :: j < n && ImportsOf(graph, queue[j], target) ==> Close(hops, queue[j], target)
  }

  lemma QueueFits(graph: Imports, start: Path, hops: map<Path, nat>, queue: seq<Path>)
    requires Listed(graph, start, hops, queue)
    ensures |queue| <= |Universe(graph, start)|
  {
    assert Key(true);
    SubsetIsSmaller(hops.Keys, Universe(graph, start));
    assert |hops| == |hops.Keys|;
  }

  lemma FirstListing(graph: Imports, start: Path)
    ensures Listed(graph, start, map[start := 0], [start]) && Walked(graph, start, map[start := 0])
  {
  }

  lemma ListingIsExact(graph: Imports, start: Path, hops: map<Path, nat>, queue: seq<Path>, levels: seq<nat>)
    requires Listed(graph, start, hops, queue) && Levelled(hops, queue, levels)
    ensures forall file :: file in queue <==> file in hops
    ensures forall j, k :: 0 <= j < k < |queue| ==> queue[j] != queue[k]
  {
    assert Key(true);
  }

  lemma ListedWithin(graph: Imports, start: Path, hops: map<Path, nat>, queue: seq<Path>, levels: seq<nat>, file: Path, bound: nat)
    requires Listed(graph, start, hops, queue) && Levelled(hops, queue, levels) && Rising(levels, bound)
    requires file in hops
    ensures hops[file] <= bound
  {
    assert Key(true);
    var j :| 0 <= j < |queue| && queue[j] == file;
  }

  lemma ListOneMore(graph: Imports, start: Path, hops: map<Path, nat>, queue: seq<Path>, levels: seq<nat>, target: Path, next: nat)
    requires Listed(graph, start, hops, queue) && Levelled(hops, queue, levels)
    requires target !in hops && target in Universe(graph, start)
    ensures Listed(graph, start, hops[target := next], queue + [target])
  {
  }

  lemma LevelOneMore(hops: map<Path, nat>, queue: seq<Path>, levels: seq<nat>, target: Path, next: nat)
    requires Levelled(hops, queue, levels) && target !in hops
    ensures Levelled(hops[target := next], queue + [target], levels + [next])
  {
  }

  lemma WalkOneMore(graph: Imports, start: Path, hops: map<Path, nat>, current: Path, target: Path)
    requires Walked(graph, start, hops) && current in hops && target !in hops && ImportsOf(graph, current, target)
    ensures Walked(graph, start, hops[target := hops[current] + 1]) && target in Universe(graph, start)
  {
    var hops1 := hops[target := hops[current] + 1];
    assert Walk(graph, start, current, hops[current]);
    assert Walk(graph, start, target, hops[current] + 1);
    forall file {:trigger Walk(graph, start, file, hops1[file])} | file in hops1 ensures Walk(graph, start, file, hops1[file]) {
      if file != target { assert Walk(graph, start, file, hops[file]); }
    }
  }

  /** With every listed file expanded, no chain is shorter than the recorded hops. */
  lemma {:induction false} NoShorterWalk(graph: Imports, start: Path, hops: map<Path, nat>, queue: seq<Path>, file: Path, n: nat)
    requires start in hops && hops[start] == 0 && Expanded(graph, hops, queue, |queue|)
    requires forall file :: file in hops ==> file in queue
    requires Walk(graph, start, file, n)
    ensures file in hops && hops[file] <= n
    decreases n
  {
    if n > 0 {
      var via :| Walk(graph, start, via, n - 1) && ImportsOf(graph, via, file);
      NoShorterWalk(graph, start, hops, queue, via, n - 1);
      var j: nat :| j < |queue| && queue[j] == via;
      assert Close(hops, queue[j], file);
    }
  }

  lemma HopsAreDistances(graph: Imports, start: Path, hops: map<Path, nat>, queue: seq<Path>)
    requires Walked(graph, start, hops) && hops[start] == 0 && Expanded(graph, hops, queue, |queue|)
    requires forall file :: file in hops ==> file in queue
    ensures forall file :: file in hops <==> Reachable(graph, start, file)
    ensures forall file :: file in hops ==> Distance(graph, start, file, hops[file])
  {
    forall file, n: nat | Walk(graph, start, file, n) ensures file in hops && hops[file] <= n {
      NoShorterWalk(graph, start, hops, queue, file, n);
    }
    forall file | file in hops ensures Walk(graph, start, file, hops[file]) {
    }
  }

  /** What was expanded stays expanded when hops are only added. */
  lemma StillExpanded(graph: Imports, hops0: map<Path, nat>, hops: map<Path, nat>, queue0: seq<Path>, queue: seq<Path>, n: nat)
    requires queue0 <= queue && n <= |queue0| && Extends(hops0, hops) && Expanded(graph, hops0, queue0, n)
    ensures Expanded(graph, hops, queue, n)
  {
  }

  lemma ExpandedOneMore(graph: Imports, hops: map<Path, nat>, queue: seq<Path>, n: nat, targets: seq<Path>)
    requires n < |queue| && Expanded(graph, hops, queue, n)
    requires targets == if queue[n] in graph then graph[queue[n]] else []
    requires forall m :: 0 <= m < |targets| ==> Close(hops, queue[n], targets[m])
    ensures Expanded(graph, hops, queue, n + 1)
  {
  }

  // ----- the modules reported

  predicate Subject(start: Path, file: Path) {
    file != start && IsProductionPath(file)
  }

  /** The entries of the hop map that are subjects, in the order they were set. */
  function Subjects(start: Path, hops: map<Path, nat>, files: seq<Path>): (r: seq<Reached>)
    requires forall j :: 0 <= j < |files| ==> files[j] in hops
  {
    if files == [] then []
    else
      var before := Subjects(start, hops, files[..|files| - 1]);
      var file := files[|files| - 1];
      if Subject(start, file) then before + [Reached(file, hops[file])] else before
  }

  predicate Reports(reached: seq<Reached>, file: Path) {
    exists j :: 0 <= j < |reached| && reached[j].file == file
  }

  lemma {:induction false} SubjectsAreReported(start: Path, hops: map<Path, nat>, files: seq<Path>)
    requires forall j :: 0 <= j < |files| ==> files[j] in hops
    ensures forall file :: Reports(Subjects(start, hops, files), file) <==> Subject(start, file) && file in files
    ensures forall e :: e in Subjects(start, hops, files) ==> e.file in hops && e.hops == hops[e.file]
  {
    if files != [] {
      var rest, last := files[..|files| - 1], files[|files| - 1];
      SubjectsAreReported(start, hops, rest);
      var before, after := Subjects(start, hops, rest), Subjects(start, hops, files);
      forall file ensures Reports(after, file) <==> Subject(start, file) && file in files {
        if Reports(before, file) {
          var j :| 0 <= j < |before| && before[j].file == file;
          assert after[j].file == file;
        }
        if file == last && Subject(start, file) { assert after[|before|].file == file; }
      }
    }
  }

  lemma {:induction false} SubjectsAreInOrder(start: Path, hops: map<Path, nat>, files: seq<Path>, levels: seq<nat>, bound: nat)
    requires |levels| == |files| && Rising(levels, bound)
    requires forall j :: 0 <= j < |files| ==> files[j] in hops && hops[files[j]] == levels[j]
    requires forall j, k :: 0 <= j < k < |files| ==> files[j] != files[k]
    ensures forall e :: e in Subjects(start, hops, files) ==> e.file in files && e.hops == hops[e.file]
    ensures NearestFirst(Subjects(start, hops, files))
  {
    if files != [] {
      SubjectsAreInOrder(start, hops, files[..|files| - 1], levels[..|files| - 1], bound);
    }
  }

  predicate NearestFirst(reached: seq<Reached>) {
    forall j, k :: 0 <= j < k < |reached| ==> reached[j].file != reached[k].file && reached[j].hops <= reached[k].hops
  }

  // ----- the search

  /** `reachedModules`: exactly the production modules other than the start that imports reach, nearest first. */
  method ReachedModules(start: Path, graph: Imports) returns (reached: seq<Reached>)
    ensures forall file :: Reports(reached, file) <==>
      Reachable(graph, start, file) && file != start && "src/" <= file && (|file| >= 8 ==> file[|file| - 8..] != ".test.ts")
    ensures forall e :: e in reached ==> Distance(graph, start, e.file, e.hops)
    ensures NearestFirst(reached)
  {
    var hops, queue, levels := Search(start, graph);
    ListingIsExact(graph, start, hops, queue, levels);
    HopsAreDistances(graph, start, hops, queue);
    reached := KeepSubjects(start, hops, queue);
    SubjectsAreReported(start, hops, queue);
    SubjectsAreInOrder(start, hops, queue, levels, levels[|levels| - 1]);
  }

  /** The loop over the entries of the hop map. */
  method KeepSubjects(start: Path, hops: map<Path, nat>, files: seq<Path>) returns (reached: seq<Reached>)
    requires forall j :: 0 <= j < |files| ==> files[j] in hops
    ensures reached == Subjects(start, hops, files)
  {
    reached := [];
    for i := 0 to |files|
      invariant reached == Subjects(start, hops, files[..i])
    {
      var file := files[i];
      assert files[..i + 1][..i] == files[..i];
      if file != start && IsProductionPath(file) {
        reached := reached + [Reached(file, hops[file])];
      }
    }
    assert files[..|files|] == files;
  }

  /** The loop that reads the queue while it grows; `levels` are the hop counts in queue order. */
  method Search(start: Path, graph: Imports) returns (hops: map<Path, nat>, queue: seq<Path>, ghost levels: seq<nat>)
    ensures Listed(graph, start, hops, queue) && Walked(graph, start, hops) && hops[start] == 0
    ensures Levelled(hops, queue, levels) && Rising(levels, levels[|levels| - 1])
    ensures Expanded(graph, hops, queue, |queue|)
  {
    hops, queue, levels := map[start := 0], [start], [0];
    var i := 0;
    FirstListing(graph, start);
    QueueFits(graph, start, hops, queue);
    while i < |queue|
      invariant i <= |queue| <= |Universe(graph, start)|
      invariant Listed(graph, start, hops, queue) && Walked(graph, start, hops) && hops[start] == 0
      invariant Levelled(hops, queue, levels) && Rising(levels, levels[|levels| - 1])
      invariant i < |queue| ==> Rising(levels, levels[i] + 1)
      invariant Expanded(graph, hops, queue, i)
      decreases |Universe(graph, start)| - i
    {
      hops, queue, levels := ListImports(start, graph, hops, queue, levels, i);
      QueueFits(graph, start, hops, queue);
      i := i + 1;
    }
  }

  /** One round of the outer loop: lists the imports of `queue[i]` that are not listed yet, one hop further. */
  method ListImports(start: Path, graph: Imports, hops0: map<Path, nat>, queue0: seq<Path>, ghost levels0: seq<nat>, i: nat)
    returns (hops: map<Path, nat>, queue: seq<Path>, ghost levels: seq<nat>)
    requires Listed(graph, start, hops0, queue0) && Walked(graph, start, hops0)
    requires Levelled(hops0, queue0, levels0) && i < |queue0| && Rising(levels0, levels0[i] + 1)
    requires Expanded(graph, hops0, queue0, i)
    ensures Listed(graph, start, hops, queue) && Walked(graph, start, hops) && Extends(hops0, hops)
    ensures queue0 <= queue && levels0 <= levels
    ensures Levelled(hops, queue, levels) && Rising(levels, levels[i] + 1)
    ensures Expanded(graph, hops, queue, i + 1)
  {
    hops, queue, levels := hops0, queue0, levels0;
    var current := queue[i];
    var next := hops[current] + 1;
    var targets := if current in graph then graph[current] else [];
    for k := 0 to |targets|
      invariant Listed(graph, start, hops, queue) && Walked(graph, start, hops) && Extends(hops0, hops)
      invariant queue0 <= queue && levels0 <= levels
      invariant Levelled(hops, queue, levels) && Rising(levels, next)
      invariant forall m :: 0 <= m < k ==> Close(hops, current, targets[m])
    {
      var target := targets[k];
      if target !in hops {
        WalkOneMore(graph, start, hops, current, target);
        ListOneMore(graph, start, hops, queue, levels, target, next);
        LevelOneMore(hops, queue, levels, target, next);
        hops := hops[target := next];
        queue := queue + [target];
        levels := levels + [next];
      } else {
        ListedWithin(graph, start, hops, queue, levels, target, next);
      }
    }
    StillExpanded(graph, hops0, hops, queue0, queue, i);
    ExpandedOneMore(graph, hops, queue, i, targets);
  }
}
