/** Sums over the values of a finite map. */
module Sums {
  import opened Text

  ghost function Sum(m: map<Id, int>): int
    decreases |m|
  {
    if m == map[] then 0
    else
      var k :| k in m;
      m[k] + Sum(m - {k})
  }

  lemma {:induction false} SumAt(m: map<Id, int>, k: Id)
    requires k in m
    ensures Sum(m) == m[k] + Sum(m - {k})
    decreases |m|
  {
    var chosen :| chosen in m && Sum(m) == m[chosen] + Sum(m - {chosen});
    if chosen != k {
      SumAt(m - {chosen}, k);
      SumAt(m - {k}, chosen);
      assert m - {chosen} - {k} == m - {k} - {chosen};
    }
  }

  /** Adding to one entry adds to the sum. */
  lemma SumAdd(m: map<Id, int>, k: Id, v: int)
    ensures Sum(m[k := (if k in m then m[k] else 0) + v]) == Sum(m) + v
  {
    var after := m[k := (if k in m then m[k] else 0) + v];
    SumAt(after, k);
    assert after - {k} == m - {k};
    if k in m { SumAt(m, k); } else { assert m - {k} == m; }
  }

  predicate Grown(before: map<Id, int>, after: map<Id, int>, k: Id, v: int) {
    && after.Keys == before.Keys && k in before && after[k] == before[k] + v
    && forall other :: other in before && other != k ==> after[other] == before[other]
  }

  lemma SumGrown(before: map<Id, int>, after: map<Id, int>, k: Id, v: int)
    requires Grown(before, after, k, v)
    ensures Sum(after) == Sum(before) + v
  {
    SumAdd(before, k, v);
    assert after == before[k := before[k] + v];
  }

  lemma {:induction false} SumOfZeros(m: map<Id, int>)
    requires forall k :: k in m ==> m[k] == 0
    ensures Sum(m) == 0
    decreases |m|
  {
    if m != map[] {
      var k :| k in m;
      SumAt(m, k);
      SumOfZeros(m - {k});
    }
  }

  lemma SameWithout(a: map<Id, int>, b: map<Id, int>, k: Id)
    requires k in a && k in b
    ensures a == b <==> a[k] == b[k] && a - {k} == b - {k}
  {
    assert a == (a - {k})[k := a[k]] && b == (b - {k})[k := b[k]];
  }

  /** A sum of larger terms is larger, and equal only when all terms are. */
  lemma {:induction false} SumCompares(a: map<Id, int>, b: map<Id, int>)
    requires a.Keys == b.Keys && forall k :: k in a ==> a[k] <= b[k]
    ensures Sum(a) <= Sum(b)
    ensures Sum(a) == Sum(b) <==> a == b
    decreases |a|
  {
    if a == map[] {
      assert b == map[];
    } else {
      var k :| k in a;
      SumAt(a, k);
      SumAt(b, k);
      SumCompares(a - {k}, b - {k});
      SameWithout(a, b, k);
    }
  }

  lemma {:induction false} SumWithoutZeros(m: map<Id, int>, zeros: set<Id>)
    requires forall k :: k in zeros && k in m ==> m[k] == 0
    ensures Sum(m - zeros) == Sum(m)
    decreases |zeros|
  {
    if zeros == {} {
      assert m - zeros == m;
    } else {
      var k :| k in zeros;
      SumWithoutZeros(m, zeros - {k});
      var rest := m - (zeros - {k});
      if k in rest { SumAt(rest, k); } else { assert rest - {k} == rest; }
      assert rest - {k} == m - zeros;
    }
  }

  /** A sum of ones and zeros counts the ones. */
  lemma {:induction false} SumOfOnes(m: map<Id, int>, ones: set<Id>)
    requires ones <= m.Keys && forall k :: k in m ==> m[k] == if k in ones then 1 else 0
    ensures Sum(m) == |ones|
    decreases |m|
  {
    if m == map[] {
      assert ones == {};
    } else {
      var k :| k in m;
      SumAt(m, k);
      SumOfOnes(m - {k}, ones - {k});
    }
  }
}
