/** Facts about sizes, factors and multisets that several modules count with. */
module Counting {
  lemma SubsetIsSmaller<T>(a: set<T>, b: set<T>)
    requires a <= b
    ensures |a| <= |b|
  {
    assert b == a + (b - a);
  }

  lemma Cancel(factor: nat, a: int, b: int)
    requires factor > 0 && factor * a < factor * b
    ensures a < b
  {
  }

  lemma Quotient(n: nat, limit: nat)
    requires limit > 0
    ensures limit * (n / limit) <= n < limit * (n / limit) + limit
  {
  }

  lemma Remainder(n: nat, m: nat, q: nat, r: nat)
    requires r < m && n == m * q + r
    ensures n / m == q && n % m == r
  {
    var d := n / m;
    assert m * d <= n < m * d + m;
    assert m * (d + 1) == m * d + m && m * (q + 1) == m * q + m;
    Cancel(m, d, q + 1);
    Cancel(m, q, d + 1);
  }

  lemma WithoutEntry<T>(s: seq<T>, j: nat)
    requires j < |s|
    ensures multiset(s) == multiset(s[..j] + s[j + 1..]) + multiset{s[j]}
  {
    assert s == s[..j] + ([s[j]] + s[j + 1..]);
  }

  /** Where the last entry of a list sits in a permutation of it, and what is left of both. */
  lemma LastEntryIn<T>(a: seq<T>, b: seq<T>) returns (j: nat)
    requires a != [] && multiset(a) == multiset(b)
    ensures j < |b| && b[j] == a[|a| - 1]
    ensures multiset(a[..|a| - 1]) == multiset(b[..j] + b[j + 1..])
  {
    var last := |a| - 1;
    assert a[last] in multiset(b);
    j :| 0 <= j < |b| && b[j] == a[last];
    WithoutEntry(b, j);
    WithoutEntry(a, last);
    assert a[..last] + a[last + 1..] == a[..last];
    assert multiset(a[..last]) == multiset(a) - multiset{a[last]};
  }
}
