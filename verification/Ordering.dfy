/** `Array.prototype.toSorted`: a stable sort by a total preorder, with the facts its callers rely on. */
module Ordering {

  /** `AtMost(a, b)` stands for a comparator that returns at most zero. */
  ghost predicate TotalPreorder<T(!new)>(atMost: (T, T) -> bool) {
    && (forall a, b :: atMost(a, b) || atMost(b, a))
    && (forall a, b, c :: atMost(a, b) && atMost(b, c) ==> atMost(a, c))
  }

  predicate Sorted<T>(atMost: (T, T) -> bool, s: seq<T>) {
    forall j, k :: 0 <= j < k < |s| ==> atMost(s[j], s[k])
  }

  /** `x` goes after every entry that is at most `x`. */
  function Insert<T>(atMost: (T, T) -> bool, s: seq<T>, x: T): seq<T> {
    if s == [] || atMost(s[|s| - 1], x) then s + [x] else Insert(atMost, s[..|s| - 1], x) + [s[|s| - 1]]
  }

  function ToSorted<T>(atMost: (T, T) -> bool, s: seq<T>): seq<T> {
    if s == [] then [] else Insert(atMost, ToSorted(atMost, s[..|s| - 1]), s[|s| - 1])
  }

  lemma {:induction false} InsertKeepsEntries<T>(atMost: (T, T) -> bool, s: seq<T>, x: T)
    ensures multiset(Insert(atMost, s, x)) == multiset(s) + multiset{x}
  {
    if s != [] && !atMost(s[|s| - 1], x) {
      InsertKeepsEntries(atMost, s[..|s| - 1], x);
      assert s == s[..|s| - 1] + [s[|s| - 1]];
    }
  }

  /** Sorting loses and invents nothing. */
  lemma {:induction false} SortKeepsEntries<T>(atMost: (T, T) -> bool, s: seq<T>)
    ensures multiset(ToSorted(atMost, s)) == multiset(s)
    ensures |ToSorted(atMost, s)| == |s|
    ensures forall x :: x in ToSorted(atMost, s) <==> x in s
  {
    if s != [] {
      SortKeepsEntries(atMost, s[..|s| - 1]);
      InsertKeepsEntries(atMost, ToSorted(atMost, s[..|s| - 1]), s[|s| - 1]);
      assert s == s[..|s| - 1] + [s[|s| - 1]];
    }
    SameEntries(ToSorted(atMost, s), s);
  }

  lemma SameEntries<T>(a: seq<T>, b: seq<T>)
    requires multiset(a) == multiset(b)
    ensures |a| == |b|
    ensures forall x :: x in a <==> x in b
  {
    assert |a| == |multiset(a)| && |b| == |multiset(b)|;
    forall x ensures x in a <==> x in b {
      assert x in a <==> x in multiset(a);
      assert x in b <==> x in multiset(b);
    }
  }

  lemma {:induction false} InsertSorts<T(!new)>(atMost: (T, T) -> bool, s: seq<T>, x: T)
    requires TotalPreorder(atMost) && Sorted(atMost, s)
    ensures Sorted(atMost, Insert(atMost, s, x))
  {
    if s != [] {
      var rest, last := s[..|s| - 1], s[|s| - 1];
      if !atMost(last, x) {
        InsertSorts(atMost, rest, x);
        var inserted := Insert(atMost, rest, x);
        InsertKeepsEntries(atMost, rest, x);
        forall j | 0 <= j < |inserted| ensures atMost(inserted[j], last) {
          assert inserted[j] in multiset(inserted);
          assert inserted[j] == x || inserted[j] in rest;
        }
      }
    }
  }

  lemma {:induction false} SortSorts<T(!new)>(atMost: (T, T) -> bool, s: seq<T>)
    requires TotalPreorder(atMost)
    ensures Sorted(atMost, ToSorted(atMost, s))
  {
    if s != [] {
      SortSorts(atMost, s[..|s| - 1]);
      InsertSorts(atMost, ToSorted(atMost, s[..|s| - 1]), s[|s| - 1]);
    }
  }

  /** The entries equal to `x` in the order, in sequence order. */
  function Ties<T>(atMost: (T, T) -> bool, s: seq<T>, x: T): seq<T> {
    if s == [] then []
    else
      var last := s[|s| - 1];
      Ties(atMost, s[..|s| - 1], x) + if Tied(atMost, x, last) then [last] else []
  }

  predicate Tied<T>(atMost: (T, T) -> bool, x: T, y: T) {
    atMost(x, y) && atMost(y, x)
  }

  lemma {:induction false} InsertIsStable<T(!new)>(atMost: (T, T) -> bool, s: seq<T>, y: T, x: T)
    requires forall j :: 0 <= j < |s| && !atMost(s[j], y) ==> !Tied(atMost, x, y) || !Tied(atMost, x, s[j])
    ensures Ties(atMost, Insert(atMost, s, y), x) == Ties(atMost, s + [y], x)
  {
    assert (s + [y])[..|s|] == s;
    if s != [] && !atMost(s[|s| - 1], y) {
      var rest, last := s[..|s| - 1], s[|s| - 1];
      InsertIsStable(atMost, rest, y, x);
      var inserted := Insert(atMost, rest, y);
      assert (inserted + [last])[..|inserted|] == inserted;
      assert (rest + [y])[..|rest|] == rest;
    }
  }

  lemma NotBothTied<T(!new)>(atMost: (T, T) -> bool, x: T, y: T, z: T)
    requires TotalPreorder(atMost) && !atMost(z, y)
    ensures !Tied(atMost, x, y) || !Tied(atMost, x, z)
  {
  }

  /** Entries that compare equal keep their order. */
  lemma {:induction false} SortIsStable<T(!new)>(atMost: (T, T) -> bool, s: seq<T>, x: T)
    requires TotalPreorder(atMost)
    ensures Ties(atMost, ToSorted(atMost, s), x) == Ties(atMost, s, x)
  {
    if s != [] {
      var rest, last := s[..|s| - 1], s[|s| - 1];
      SortIsStable(atMost, rest, x);
      var sorted := ToSorted(atMost, rest);
      forall j | 0 <= j < |sorted| && !atMost(sorted[j], last)
        ensures !Tied(atMost, x, last) || !Tied(atMost, x, sorted[j])
      {
        NotBothTied(atMost, x, last, sorted[j]);
      }
      InsertIsStable(atMost, sorted, last, x);
      assert (sorted + [last])[..|sorted|] == sorted;
    }
  }

  /** `at` lists the positions of `s` in the order a stable sort puts them. */
  ghost predicate SortedAt<T>(atMost: (T, T) -> bool, s: seq<T>, sorted: seq<T>, at: seq<nat>) {
    && |at| == |sorted| == |s|
    && (forall k :: 0 <= k < |at| ==> at[k] < |s| && sorted[k] == s[at[k]])
    && (forall i: nat :: i < |s| ==> i in at)
    && (forall j, k :: 0 <= j < k < |at| ==> Precedes(atMost, s, at[j], at[k]))
  }

  /** Position `i` is sorted before position `j`: its entry is less, or they tie and it stands first. */
  predicate Precedes<T>(atMost: (T, T) -> bool, s: seq<T>, i: nat, j: nat) {
    i < |s| && j < |s| && atMost(s[i], s[j]) && (atMost(s[j], s[i]) ==> i < j)
  }

  lemma {:induction false} InsertGoesAt<T(!new)>(atMost: (T, T) -> bool, s: seq<T>, x: T) returns (p: nat)
    requires TotalPreorder(atMost) && Sorted(atMost, s)
    ensures p <= |s| && Insert(atMost, s, x) == s[..p] + [x] + s[p..]
    ensures forall k :: 0 <= k < p ==> atMost(s[k], x)
    ensures forall k :: p <= k < |s| ==> !atMost(s[k], x)
  {
    if s == [] || atMost(s[|s| - 1], x) {
      p := |s|;
    } else {
      var rest := s[..|s| - 1];
      p := InsertGoesAt(atMost, rest, x);
      assert s[..p] == rest[..p] && s[p..] == rest[p..] + [s[|s| - 1]];
      assert forall k :: p <= k < |rest| ==> s[k] == rest[k];
    }
  }

  /** Where the sorted entries stood: every position once, in the order of the entries and, where they tie, of the list. */
  lemma {:induction false} SortMoves<T(!new)>(atMost: (T, T) -> bool, s: seq<T>) returns (at: seq<nat>)
    requires TotalPreorder(atMost)
    ensures SortedAt(atMost, s, ToSorted(atMost, s), at)
  {
    at := [];
    if s != [] {
      var rest, last: nat := s[..|s| - 1], |s| - 1;
      var before := SortMoves(atMost, rest);
      SortSorts(atMost, rest);
      var p := InsertGoesAt(atMost, ToSorted(atMost, rest), s[last]);
      at := before[..p] + [last] + before[p..];
      OneMoreMoved(atMost, s, ToSorted(atMost, rest), before, p);
    }
  }

  lemma OneMoreMoved<T(!new)>(atMost: (T, T) -> bool, s: seq<T>, sorted: seq<T>, at: seq<nat>, p: nat)
    requires TotalPreorder(atMost) && s != [] && SortedAt(atMost, s[..|s| - 1], sorted, at) && p <= |sorted|
    requires forall k :: 0 <= k < p ==> atMost(sorted[k], s[|s| - 1])
    requires forall k :: p <= k < |sorted| ==> !atMost(sorted[k], s[|s| - 1])
    ensures SortedAt(atMost, s, sorted[..p] + [s[|s| - 1]] + sorted[p..], at[..p] + [|s| - 1] + at[p..])
  {
    var rest, last: nat := s[..|s| - 1], |s| - 1;
    var now := at[..p] + [last] + at[p..];
    forall i: nat | i < |s| ensures i in now {
      if i < last { assert i < |rest| && i in at && at == at[..p] + at[p..]; }
    }
    forall j, k | 0 <= j < k < |now| ensures Precedes(atMost, s, now[j], now[k]) {
      PairMoved(atMost, s, sorted, at, p, j, k);
    }
  }

  lemma PairMoved<T(!new)>(atMost: (T, T) -> bool, s: seq<T>, sorted: seq<T>, at: seq<nat>, p: nat, j: nat, k: nat)
    requires s != [] && SortedAt(atMost, s[..|s| - 1], sorted, at) && p <= |sorted| && j < k <= |sorted|
    requires TotalPreorder(atMost)
    requires forall k :: 0 <= k < p ==> atMost(sorted[k], s[|s| - 1])
    requires forall k :: p <= k < |sorted| ==> !atMost(sorted[k], s[|s| - 1])
    ensures var now: seq<nat> := at[..p] + [|s| - 1] + at[p..]; Precedes(atMost, s, now[j], now[k])
  {
    var before, after := if j > p then j - 1 else j, if k > p then k - 1 else k;
    if j == p {
      assert !atMost(sorted[after], s[|s| - 1]);
    } else if k == p {
      assert atMost(sorted[before], s[|s| - 1]);
    } else {
      assert Precedes(atMost, s[..|s| - 1], at[before], at[after]);
    }
  }

  lemma HeadIsLeast<T(!new)>(atMost: (T, T) -> bool, s: seq<T>, x: T)
    requires Sorted(atMost, s) && x in s && atMost(x, x)
    ensures atMost(s[0], x)
  {
  }

  /** The order tells any two entries of `s` apart. */
  ghost predicate Strict<T(!new)>(atMost: (T, T) -> bool, s: seq<T>) {
    && (forall x :: x in s ==> atMost(x, x))
    && (forall x, y :: x in s && y in s && Tied(atMost, x, y) ==> x == y)
  }

  lemma HeadsAgree<T(!new)>(atMost: (T, T) -> bool, a: seq<T>, b: seq<T>)
    requires a != [] && Sorted(atMost, a) && Sorted(atMost, b) && Strict(atMost, a)
    requires multiset(a) == multiset(b)
    ensures b != [] && a[0] == b[0] && multiset(a[1..]) == multiset(b[1..])
  {
    SameEntries(a, b);
    assert a[0] in b && b[0] in a;
    HeadIsLeast(atMost, a, b[0]);
    HeadIsLeast(atMost, b, a[0]);
    assert a[0] == b[0];
    TailEntries(a);
    TailEntries(b);
  }

  lemma TailEntries<T>(s: seq<T>)
    requires s != []
    ensures multiset(s[1..]) == multiset(s) - multiset{s[0]}
  {
    assert s == [s[0]] + s[1..];
  }

  /** A strict order sorts a list in one way only. */
  lemma {:induction false} SortedIsUnique<T(!new)>(atMost: (T, T) -> bool, a: seq<T>, b: seq<T>)
    requires Sorted(atMost, a) && Sorted(atMost, b) && Strict(atMost, a)
    requires multiset(a) == multiset(b)
    ensures a == b
  {
    if a == [] {
      SameEntries(a, b);
    } else {
      HeadsAgree(atMost, a, b);
      assert Strict(atMost, a[1..]) by {
        forall x | x in a[1..] ensures x in a && atMost(x, x) {
        }
      }
      SortedIsUnique(atMost, a[1..], b[1..]);
      assert a == [a[0]] + a[1..] && b == [b[0]] + b[1..];
    }
  }

  // ----- the order of text

  /** SQLite's binary collation on text. */
  predicate TextAtMost(a: string, b: string) {
    if a == [] then true else if b == [] then false else if a[0] != b[0] then a[0] < b[0] else TextAtMost(a[1..], b[1..])
  }

  /** The first character that differs decides, and a proper prefix comes first. */
  predicate TextBefore(a: string, b: string) {
    exists k :: 0 <= k <= |a| && k < |b| && a[..k] == b[..k] && (k == |a| || a[k] < b[k])
  }

  lemma {:induction false} TextOrderIsExact(a: string, b: string)
    ensures TextAtMost(a, b) <==> a == b || TextBefore(a, b)
    ensures !(TextBefore(a, b) && TextBefore(b, a)) && !TextBefore(a, a)
  {
    if a == [] {
      if b != [] { assert a[..0] == b[..0]; }
    } else if b != [] {
      if a[0] != b[0] {
        assert a[..0] == b[..0];
      } else {
        TextOrderIsExact(a[1..], b[1..]);
        assert a == [a[0]] + a[1..] && b == [b[0]] + b[1..];
        if TextBefore(a[1..], b[1..]) { BeforeWithHead(a, b); }
        if TextBefore(a, b) { BeforeWithoutHead(a, b); }
        if TextBefore(b, a) { BeforeWithoutHead(b, a); }
      }
    }
  }

  lemma BeforeWithHead(a: string, b: string)
    requires a != [] && b != [] && a[0] == b[0] && TextBefore(a[1..], b[1..])
    ensures TextBefore(a, b)
  {
    var k :| 0 <= k <= |a[1..]| && k < |b[1..]| && a[1..][..k] == b[1..][..k] && (k == |a[1..]| || a[1..][k] < b[1..][k]);
    assert a[..k + 1] == [a[0]] + a[1..][..k] && b[..k + 1] == [b[0]] + b[1..][..k];
    assert k + 1 < |b| && (k + 1 == |a| || a[k + 1] < b[k + 1]);
  }

  lemma BeforeWithoutHead(a: string, b: string)
    requires a != [] && b != [] && a[0] == b[0] && TextBefore(a, b)
    ensures TextBefore(a[1..], b[1..])
  {
    var k :| 0 <= k <= |a| && k < |b| && a[..k] == b[..k] && (k == |a| || a[k] < b[k]);
    assert k > 0;
    assert a[1..][..k - 1] == a[..k][1..] && b[1..][..k - 1] == b[..k][1..];
  }

  lemma {:induction false} TextIsTotal(a: string, b: string)
    ensures TextAtMost(a, b) || TextAtMost(b, a)
    ensures TextAtMost(a, b) && TextAtMost(b, a) <==> a == b
  {
    if a == [] || b == [] || a[0] != b[0] {
    } else {
      TextIsTotal(a[1..], b[1..]);
      assert a == [a[0]] + a[1..] && b == [b[0]] + b[1..];
    }
  }

  lemma {:induction false} TextIsTransitive(a: string, b: string, c: string)
    requires TextAtMost(a, b) && TextAtMost(b, c)
    ensures TextAtMost(a, c)
  {
    if a != [] && b != [] && c != [] && a[0] == b[0] && b[0] == c[0] {
      TextIsTransitive(a[1..], b[1..], c[1..]);
    }
  }
}
