/**
 The open-addressing multiset behind the bigram Dice coefficient: typed arrays with linear probing, reused without
 clearing keys or counts. Keys are stored in 32-bit cells; `Stock` is what a reader of the table can still find in it.
 */
module OpenAddressing {
  import opened Counting
  import opened Folding

  // ----- 32-bit cells

  const TWO_31 := 0x8000_0000
  const TWO_32 := 0x1_0000_0000

  predicate InRange(code: int) {
    -TWO_31 <= code < TWO_31
  }

  /** What an `Int32Array` cell holds after `code` is assigned to it. */
  function ToInt32(code: int): (r: int)
    ensures InRange(r) && (r - code) % TWO_32 == 0
    ensures InRange(code) ==> r == code
  {
    var m := code % TWO_32;
    if m < TWO_31 then m else m - TWO_32
  }

  // ----- the multiset the table stands for

  /** The keys the table knows and how often each can still be consumed. */
  datatype Stock = Stock(known: set<int>, left: multiset<int>)

  const EMPTY := Stock({}, multiset{})

  /**
   Inserting a code that fits its cell counts it. A code that does not fit is never recognised again: it takes a slot of
   its own, and the cell's value can be consumed once if no earlier slot holds it.
   */
  function Inserted(stock: Stock, code: int): Stock {
    var key := ToInt32(code);
    if InRange(code) || key !in stock.known then Stock(stock.known + {key}, stock.left + multiset{key}) else stock
  }

  function StockOf(codes: seq<int>): Stock {
    if codes == [] then EMPTY else Inserted(StockOf(codes[..|codes| - 1]), codes[|codes| - 1])
  }

  /** How many of `codes` are found, each hit using one up. */
  function Taken(codes: seq<int>, left: multiset<int>): nat {
    if codes == [] then 0
    else if codes[0] in left then 1 + Taken(codes[1..], left - multiset{codes[0]})
    else Taken(codes[1..], left)
  }

  lemma {:induction false} TakenIsIntersection(codes: seq<int>, left: multiset<int>)
    ensures Taken(codes, left) == |multiset(codes) * left|
  {
    if codes == [] {
      assert multiset(codes) * left == multiset{};
    } else {
      var first, rest := codes[0], codes[1..];
      assert codes == [first] + rest;
      if first in left {
        TakenIsIntersection(rest, left - multiset{first});
        assert multiset(codes) * left == multiset{first} + multiset(rest) * (left - multiset{first});
      } else {
        TakenIsIntersection(rest, left);
        assert multiset(codes) * left == multiset(rest) * left;
      }
    }
  }

  predicate Fit(codes: seq<int>) {
    forall code :: code in codes ==> InRange(code)
  }

  /** Codes that fit are counted exactly. */
  lemma {:induction false} FittingStock(codes: seq<int>)
    requires Fit(codes)
    ensures StockOf(codes) == Stock(set code | code in codes, multiset(codes))
  {
    if codes != [] {
      var rest, last := codes[..|codes| - 1], codes[|codes| - 1];
      assert codes == rest + [last];
      FittingStock(rest);
      assert (set code | code in codes) == (set code | code in rest) + {last};
    }
  }

  /** No code of `b` that overflows its cell looks like a code of `a`. */
  predicate NoImpostor(a: seq<int>, b: seq<int>) {
    forall code :: code in b && !InRange(code) ==> ToInt32(code) !in a
  }

  lemma {:induction false} StockAt(a: seq<int>, b: seq<int>, code: int)
    requires NoImpostor(a, b) && code in a
    ensures StockOf(b).left[code] == if InRange(code) then multiset(b)[code] else 0
  {
    if b != [] {
      var rest, last := b[..|b| - 1], b[|b| - 1];
      assert b == rest + [last];
      StockAt(a, rest, code);
    }
  }

  /** The table and a plain frequency map count the same matches exactly when the titles share no overflowing code. */
  lemma SameMatchesIff(a: seq<int>, b: seq<int>)
    requires NoImpostor(a, b)
    ensures Taken(a, StockOf(b).left) == Taken(a, multiset(b)) <==> forall code :: code in a && code in b ==> InRange(code)
  {
    var found, shared := multiset(a) * StockOf(b).left, multiset(a) * multiset(b);
    TakenIsIntersection(a, StockOf(b).left);
    TakenIsIntersection(a, multiset(b));
    forall code | code in a ensures found[code] == if InRange(code) then shared[code] else 0 {
      StockAt(a, b, code);
    }
    assert found <= shared by {
      forall code ensures found[code] <= shared[code] {
        if code !in a { assert multiset(a)[code] == 0; }
      }
    }
    assert shared == found + (shared - found);
    if forall code :: code in a && code in b ==> InRange(code) {
      forall code ensures found[code] == shared[code] {
        if code !in a { assert multiset(a)[code] == 0; }
      }
      assert found == shared;
    } else {
      var code :| code in a && code in b && !InRange(code);
      assert code in multiset(a) && code in multiset(b);
      assert code in shared - found;
      assert |shared - found| > 0;
    }
  }

  // ----- the slots

  /** The slot `d` steps after `home`. */
  function Slot(home: nat, d: nat, capacity: nat): (r: nat)
    requires capacity > 0
    ensures r < capacity
  {
    (home + d) % capacity
  }

  lemma NextSlot(home: nat, d: nat, capacity: nat)
    requires capacity > 0
    ensures (Slot(home, d, capacity) + 1) % capacity == Slot(home, d + 1, capacity)
  {
    var n := home + d;
    NextRemainder(n, capacity, n / capacity, n % capacity);
  }

  lemma NextRemainder(n: nat, m: nat, q: nat, r: nat)
    requires r < m && n == m * q + r
    ensures (r + 1) % m == (n + 1) % m
  {
    assert m * (q + 1) == m * q + m;
    if r + 1 < m {
      Remainder(n + 1, m, q, r + 1);
      Remainder(r + 1, m, 0, r + 1);
    } else {
      Remainder(n + 1, m, q + 1, 0);
      Remainder(r + 1, m, 1, 0);
    }
  }

  /** Probing from any slot comes to any other. */
  lemma EverySlotIsReached(home: nat, slot: nat, capacity: nat) returns (d: nat)
    requires home < capacity && slot < capacity
    ensures d < capacity && Slot(home, d, capacity) == slot
  {
    d := if home <= slot then slot - home else slot + capacity - home;
  }

  /** Where probing for a code starts; the multiplication wraps its factor to 32 bits first. */
  function Home(hash: int -> nat, code: int): nat {
    hash(ToInt32(code))
  }

  datatype Cells = Cells(keys: seq<int>, counts: seq<int>, used: seq<bool>)

  predicate Shaped(cells: Cells, capacity: nat) {
    0 < capacity == |cells.keys| == |cells.counts| == |cells.used|
  }

  predicate Holds(cells: Cells, slot: nat, key: int) {
    slot < |cells.used| && slot < |cells.keys| && cells.used[slot] && cells.keys[slot] == key
  }

  /** Probing for `key` passes `d` used slots that do not hold it. */
  predicate Passes(cells: Cells, hash: int -> nat, key: int, d: nat)
    requires Shaped(cells, |cells.used|)
  {
    var capacity := |cells.used|;
    forall e {:trigger Slot(Home(hash, key), e, capacity)} :: 0 <= e < d ==>
      cells.used[Slot(Home(hash, key), e, capacity)] && cells.keys[Slot(Home(hash, key), e, capacity)] != key
  }

  /** `key` sits `distance` steps from its home, at the first slot that holds it, with its count. */
  predicate Sits(cells: Cells, hash: int -> nat, stock: Stock, key: int, distance: nat)
    requires Shaped(cells, |cells.used|)
  {
    var slot := Slot(Home(hash, key), distance, |cells.used|);
    Holds(cells, slot, key) && cells.counts[slot] == stock.left[key] && Passes(cells, hash, key, distance)
  }

  /**
   The cells stand for `stock`; `distance` says how far from home each known key is found. What that means is kept folded
   until `Key(true)` is mentioned.
   */
  ghost predicate Stands(cells: Cells, hash: int -> nat, stock: Stock, distance: map<int, nat>) {
    && Shaped(cells, |cells.used|) && distance.Keys == stock.known
    && forall u {:trigger Key(u)} :: Key(u) ==> StandsFor(cells, hash, stock, distance)
  }

  predicate StandsFor(cells: Cells, hash: int -> nat, stock: Stock, distance: map<int, nat>)
    requires Shaped(cells, |cells.used|)
  {
    && (forall key :: key in distance ==> InRange(key) && Sits(cells, hash, stock, key, distance[key]))
    && (forall slot :: 0 <= slot < |cells.used| && cells.used[slot] ==> cells.keys[slot] in stock.known)
    && (forall key :: key in stock.left ==> key in stock.known)
  }

  ghost function UsedSlots(used: seq<bool>): set<nat> {
    set slot: nat | slot < |used| && used[slot]
  }

  // ----- one probe

  lemma PassesOneMore(cells: Cells, hash: int -> nat, key: int, d: nat)
    requires Shaped(cells, |cells.used|) && Passes(cells, hash, key, d)
    requires cells.used[Slot(Home(hash, key), d, |cells.used|)] && cells.keys[Slot(Home(hash, key), d, |cells.used|)] != key
    ensures Passes(cells, hash, key, d + 1)
  {
  }

  /** The code is at its first slot when a probe that passed `d` others sees it. */
  lemma FoundWhereItSits(cells: Cells, hash: int -> nat, stock: Stock, distance: map<int, nat>, code: int, d: nat)
    requires Stands(cells, hash, stock, distance)
    requires Passes(cells, hash, code, d) && Holds(cells, Slot(Home(hash, code), d, |cells.used|), code)
    ensures code in distance && distance[code] == d && InRange(code)
    ensures cells.counts[Slot(Home(hash, code), d, |cells.used|)] == stock.left[code]
  {
    assert Key(true);
    assert cells.keys[Slot(Home(hash, code), d, |cells.used|)] in stock.known;
    assert Sits(cells, hash, stock, code, distance[code]);
  }

  /** A probe that comes to a free slot has shown that the code is not in the table. */
  lemma FreeMeansUnknown(cells: Cells, hash: int -> nat, stock: Stock, distance: map<int, nat>, code: int, d: nat)
    requires Stands(cells, hash, stock, distance)
    requires Passes(cells, hash, code, d) && !cells.used[Slot(Home(hash, code), d, |cells.used|)]
    ensures code !in distance && code !in stock.left
  {
    assert Key(true);
  }

  function Counted(cells: Cells, slot: nat, count: int): Cells
    requires slot < |cells.counts|
  {
    cells.(counts := cells.counts[slot := count])
  }

  function Placed(cells: Cells, slot: nat, key: int): Cells
    requires slot < |cells.used| && Shaped(cells, |cells.used|)
  {
    Cells(cells.keys[slot := key], cells.counts[slot := 1], cells.used[slot := true])
  }

  /** Changing the count of a key where it sits changes that key's stock and no other. */
  lemma CountChanges(cells: Cells, hash: int -> nat, stock: Stock, distance: map<int, nat>, code: int, count: nat)
    requires Stands(cells, hash, stock, distance) && code in distance
    ensures Stands(Counted(cells, Slot(Home(hash, code), distance[code], |cells.used|), count), hash,
                   Stock(stock.known, stock.left[code := count]), distance)
  {
  }

  /** Taking a free slot leaves every key where it was found. */
  lemma PlacingKeeps(cells: Cells, hash: int -> nat, stock: Stock, key: int, d: nat, slot: nat, placed: int)
    requires Shaped(cells, |cells.used|) && slot < |cells.used| && !cells.used[slot]
    requires Sits(cells, hash, stock, key, d)
    ensures Sits(Placed(cells, slot, placed), hash, stock, key, d)
  {
  }

  /** A new key sits where the probe found a free slot. */
  lemma NewKeySits(cells: Cells, hash: int -> nat, stock: Stock, distance: map<int, nat>, code: int, d: nat)
    requires Stands(cells, hash, stock, distance) && Passes(cells, hash, code, d)
    requires !cells.used[Slot(Home(hash, code), d, |cells.used|)] && ToInt32(code) !in stock.known
    ensures Sits(Placed(cells, Slot(Home(hash, code), d, |cells.used|), ToInt32(code)), hash, Inserted(stock, code), ToInt32(code), d)
  {
    assert Key(true);
    var key, capacity := ToInt32(code), |cells.used|;
    var slot := Slot(Home(hash, code), d, capacity);
    var after := Placed(cells, slot, key);
    forall e {:trigger Slot(Home(hash, key), e, capacity)} | 0 <= e < d
      ensures after.used[Slot(Home(hash, key), e, capacity)] && after.keys[Slot(Home(hash, key), e, capacity)] != key
    {
      assert Slot(Home(hash, code), e, capacity) == Slot(Home(hash, key), e, capacity);
    }
  }

  function Spotted(distance: map<int, nat>, key: int, d: nat): map<int, nat> {
    if key in distance then distance else distance[key := d]
  }

  lemma PlacedStands(cells: Cells, hash: int -> nat, stock: Stock, distance: map<int, nat>, code: int, d: nat)
    requires Stands(cells, hash, stock, distance) && Passes(cells, hash, code, d)
    requires !cells.used[Slot(Home(hash, code), d, |cells.used|)]
    ensures Stands(Placed(cells, Slot(Home(hash, code), d, |cells.used|), ToInt32(code)), hash, Inserted(stock, code),
                   Spotted(distance, ToInt32(code), d))
  {
    assert Key(true);
    var key := ToInt32(code);
    var slot := Slot(Home(hash, code), d, |cells.used|);
    var after, next, spotted := Placed(cells, slot, key), Inserted(stock, code), Spotted(distance, key, d);
    if InRange(code) { FreeMeansUnknown(cells, hash, stock, distance, code, d); }
    assert spotted.Keys == next.known;
    forall other | other in spotted ensures InRange(other) && Sits(after, hash, next, other, spotted[other]) {
      if other in distance {
        PlacingKeeps(cells, hash, stock, other, distance[other], slot, key);
        assert next.left[other] == stock.left[other];
      } else {
        NewKeySits(cells, hash, stock, distance, code, d);
      }
    }
  }

  /** As long as a slot is free, a probe meets it within one round. */
  lemma FreeSlotAhead(used: seq<bool>, home: nat) returns (d: nat)
    requires |UsedSlots(used)| < |used|
    ensures d < |used| && !used[Slot(home, d, |used|)]
  {
    AllUsed(used);
    var free: nat :| free < |used| && !used[free];
    d := EverySlotIsReached(home % |used|, free, |used|);
    SlotOfHome(home, d, |used|);
  }

  lemma {:induction false} AllUsed(used: seq<bool>)
    ensures (forall slot :: 0 <= slot < |used| ==> used[slot]) ==> |UsedSlots(used)| == |used|
  {
    if used != [] {
      var rest, last := used[..|used| - 1], |used| - 1;
      AllUsed(rest);
      if forall slot :: 0 <= slot < |used| ==> used[slot] {
        assert UsedSlots(used) == UsedSlots(rest) + {last};
      }
    }
  }

  lemma SlotOfHome(home: nat, d: nat, capacity: nat)
    requires capacity > 0
    ensures Slot(home % capacity, d, capacity) == Slot(home, d, capacity)
  {
    var q, n := home / capacity, home % capacity + d;
    assert home == capacity * q + home % capacity;
    assert capacity * (q + n / capacity) == capacity * q + capacity * (n / capacity);
    Remainder(home + d, capacity, q + n / capacity, n % capacity);
  }

  // ----- the table

  class BigramTable {
    const hash: int -> nat
    var keys: array<int>
    var counts: array<int>
    var used: array<bool>

    ghost predicate Valid()
      reads this
    {
      keys != counts && 0 < keys.Length == counts.Length == used.Length
    }

    function Contents(): Cells
      reads this, keys, counts, used
    {
      Cells(keys[..], counts[..], used[..])
    }

    constructor (hash: int -> nat)
      ensures Valid() && this.hash == hash && used.Length == 256 && fresh(keys) && fresh(counts) && fresh(used)
    {
      this.hash := hash;
      keys, counts, used := new int[256], new int[256], new bool[256];
    }

    /** Probes for `code`: the first slot that is free or holds it, and how far it is from home. */
    method Probe(code: int) returns (slot: nat, ghost d: nat)
      requires Valid() && |UsedSlots(used[..])| < used.Length
      ensures slot == Slot(Home(hash, code), d, used.Length) && Passes(Contents(), hash, code, d)
      ensures !used[slot] || keys[slot] == code
    {
      ghost var free := FreeSlotAhead(used[..], Home(hash, code));
      slot := Home(hash, code) % used.Length;
      d := 0;
      while used[slot] && keys[slot] != code
        invariant d <= free
        invariant slot == Slot(Home(hash, code), d, used.Length) && Passes(Contents(), hash, code, d)
        decreases free - d
      {
        NextSlot(Home(hash, code), d, used.Length);
        PassesOneMore(Contents(), hash, code, d);
        slot := (slot + 1) % used.Length;
        d := d + 1;
      }
    }

    /** `hashInsert`. */
    method Insert(code: int, ghost stock: Stock, ghost distance: map<int, nat>) returns (ghost spotted: map<int, nat>)
      requires Valid() && Stands(Contents(), hash, stock, distance) && |UsedSlots(used[..])| < used.Length
      modifies keys, counts, used
      ensures Stands(Contents(), hash, Inserted(stock, code), spotted)
      ensures |UsedSlots(used[..])| == old(|UsedSlots(used[..])|) + if InRange(code) && code in stock.known then 0 else 1
    {
      ghost var before := Contents();
      var slot, d := Probe(code);
      if !used[slot] {
        PlacedStands(before, hash, stock, distance, code, d);
        if InRange(code) { FreeMeansUnknown(before, hash, stock, distance, code, d); }
        spotted := Spotted(distance, ToInt32(code), d);
        used[slot] := true;
        keys[slot] := ToInt32(code);
        counts[slot] := 1;
        assert Contents() == Placed(before, slot, ToInt32(code));
        OneMoreUsed(before.used, slot);
      } else {
        FoundWhereItSits(before, hash, stock, distance, code, d);
        CountChanges(before, hash, stock, distance, code, stock.left[code] + 1);
        spotted := distance;
        counts[slot] := counts[slot] + 1;
        assert Contents() == Counted(before, slot, stock.left[code] + 1);
        assert stock.left[code := stock.left[code] + 1] == stock.left + multiset{code};
      }
    }

    /** `hashConsume`. */
    method Consume(code: int, ghost stock: Stock, ghost distance: map<int, nat>) returns (hit: bool)
      requires Valid() && Stands(Contents(), hash, stock, distance) && |UsedSlots(used[..])| < used.Length
      modifies counts
      ensures hit <==> code in stock.left
      ensures Stands(Contents(), hash, Stock(stock.known, stock.left - multiset{code}), distance)
    {
      ghost var before := Contents();
      var slot, d := Probe(code);
      if !used[slot] {
        FreeMeansUnknown(before, hash, stock, distance, code, d);
        assert stock.left - multiset{code} == stock.left;
        return false;
      }
      FoundWhereItSits(before, hash, stock, distance, code, d);
      assert before.counts[slot] == stock.left[code];
      if counts[slot] <= 0 {
        assert stock.left - multiset{code} == stock.left;
        return false;
      }
      CountChanges(before, hash, stock, distance, code, stock.left[code] - 1);
      counts[slot] := counts[slot] - 1;
      assert Contents() == Counted(before, slot, stock.left[code] - 1);
      assert stock.left[code := stock.left[code] - 1] == stock.left - multiset{code};
      return true;
    }

    /** `hashUsed.fill(0)`: whatever keys and counts are left behind, the table is empty. */
    method Clear()
      requires Valid()
      modifies used
      ensures Stands(Contents(), hash, EMPTY, map[]) && UsedSlots(used[..]) == {}
    {
      for i := 0 to used.Length
        invariant forall j :: 0 <= j < i ==> !used[j]
      {
        used[i] := false;
      }
      assert Key(true);
    }

    /** The first counting loop: every code of `b` goes in. */
    method Fill(b: seq<int>) returns (ghost distance: map<int, nat>)
      requires Valid() && SlotsFor(b) < used.Length
      modifies keys, counts, used
      ensures Stands(Contents(), hash, StockOf(b), distance) && |UsedSlots(used[..])| == SlotsFor(b)
    {
      Clear();
      distance := map[];
      for i := 0 to |b|
        invariant Stands(Contents(), hash, StockOf(b[..i]), distance)
        invariant |UsedSlots(used[..])| == SlotsFor(b[..i])
      {
        InsertStep(b, i);
        distance := Insert(b[i], StockOf(b[..i]), distance);
      }
      assert b[..|b|] == b;
    }

    /** The second counting loop: every code of `a` takes what it finds. */
    method Count(a: seq<int>, ghost stock: Stock, ghost distance: map<int, nat>) returns (matches: nat)
      requires Valid() && Stands(Contents(), hash, stock, distance) && |UsedSlots(used[..])| < used.Length
      modifies counts
      ensures matches == Taken(a, stock.left)
    {
      ghost var left := stock.left;
      matches := 0;
      for i := 0 to |a|
        invariant Stands(Contents(), hash, Stock(stock.known, left), distance)
        invariant matches + Taken(a[i..], left) == Taken(a, stock.left)
      {
        var hit := Consume(a[i], Stock(stock.known, left), distance);
        TakeFirst(a[i..], left);
        assert a[i..][1..] == a[i + 1..];
        left := left - multiset{a[i]};
        if hit { matches := matches + 1; }
      }
    }

    /** In a table with a slot to spare, what is found is what the stock of `b` offers to `a`. */
    method Matches(a: seq<int>, b: seq<int>) returns (matches: nat)
      requires Valid() && SlotsFor(b) < used.Length
      modifies keys, counts, used
      ensures matches == |multiset(a) * StockOf(b).left|
    {
      ghost var distance := Fill(b);
      matches := Count(a, StockOf(b), distance);
      TakenIsIntersection(a, StockOf(b).left);
    }

    /** `ensureHashCapacity`: doubles until the load stays below a quarter. */
    method EnsureCapacity(needed: nat)
      requires Valid()
      modifies this
      ensures Valid() && 4 * needed <= used.Length
      ensures 4 * needed <= old(used.Length) ==> keys == old(keys) && counts == old(counts) && used == old(used)
      ensures 4 * needed > old(used.Length) ==> fresh(keys) && fresh(counts) && fresh(used) && used.Length < 8 * needed
    {
      if needed * HASH_LOAD_FACTOR <= used.Length { return; }
      var capacity := used.Length;
      while capacity < needed * HASH_LOAD_FACTOR
        invariant capacity >= used.Length && (capacity > used.Length ==> capacity < 8 * needed)
      {
        capacity := capacity * 2;
      }
      keys, counts, used := new int[capacity], new int[capacity], new bool[capacity];
    }

    /** `bigramDice`. */
    method BigramDice(a: seq<int>, b: seq<int>) returns (score: real)
      requires Valid()
      modifies this, keys, counts, used
      ensures Valid()
      ensures score == Score(a, b)
    {
      if a == [] || b == [] { return 0.0; }
      EnsureCapacity(|a| + |b|);
      var matches := Matches(a, b);
      return Dice(matches, a, b);
    }
  }

  const HASH_LOAD_FACTOR := 4

  function Dice(matches: nat, a: seq<int>, b: seq<int>): real
    requires a != [] && b != []
  {
    (2 * matches) as real / (|a| + |b|) as real
  }

  function Score(a: seq<int>, b: seq<int>): real {
    if a == [] || b == [] then 0.0 else Dice(|multiset(a) * StockOf(b).left|, a, b)
  }

  lemma {:induction false} StockIsNoLarger(codes: seq<int>)
    ensures |StockOf(codes).left| <= |codes|
  {
    if codes != [] { StockIsNoLarger(codes[..|codes| - 1]); }
  }

  lemma SharedIsNoLarger(a: multiset<int>, b: multiset<int>)
    ensures |a * b| <= |a| && |a * b| <= |b|
    ensures |a * b| == |a| <==> a <= b
  {
    assert a == a * b + (a - b);
    assert b == a * b + (b - a);
    if a <= b { assert a * b == a; }
    if |a * b| == |a| {
      assert |a - b| == 0 && a - b == multiset{};
    }
  }

  lemma EmptySharesNothing(a: seq<int>, b: seq<int>)
    requires a == [] || b == []
    ensures multiset(a) * StockOf(b).left == multiset{}
  {
  }

  lemma SharedIsBounded(a: seq<int>, b: seq<int>)
    ensures 2 * |multiset(a) * StockOf(b).left| <= |a| + |b|
    ensures |multiset(a) * StockOf(b).left| == 0 <==> multiset(a) * StockOf(b).left == multiset{}
  {
    StockIsNoLarger(b);
    SharedIsNoLarger(multiset(a), StockOf(b).left);
  }

  predicate IsShare(score: real, matches: nat, total: nat) {
    && score * total as real == (2 * matches) as real
    && 0.0 <= score <= 1.0
    && (score == 0.0 <==> matches == 0)
  }

  lemma DiceIsShare(matches: nat, a: seq<int>, b: seq<int>)
    requires a != [] && b != [] && 2 * matches <= |a| + |b|
    ensures IsShare(Dice(matches, a, b), matches, |a| + |b|)
  {
    Proportion(2 * matches, |a| + |b|);
  }

  /** Twice the shared codes in proportion to all codes: between 0 and 1, and 0 exactly when no code is shared. */
  lemma ScoreIsAProportion(a: seq<int>, b: seq<int>)
    ensures IsShare(Score(a, b), |multiset(a) * StockOf(b).left|, |a| + |b|)
    ensures |multiset(a) * StockOf(b).left| == 0 <==> multiset(a) * StockOf(b).left == multiset{}
  {
    var shared := multiset(a) * StockOf(b).left;
    SharedIsBounded(a, b);
    if a == [] || b == [] {
      EmptySharesNothing(a, b);
      assert Score(a, b) == 0.0 && |shared| == 0;
    } else {
      DiceIsShare(|shared|, a, b);
    }
  }

  lemma Proportion(part: nat, whole: nat)
    requires part <= whole && whole > 0
    ensures 0.0 <= part as real / whole as real <= 1.0
    ensures (part as real / whole as real) * whole as real == part as real
    ensures part as real / whole as real == 0.0 <==> part == 0
    ensures part as real / whole as real == 1.0 <==> part == whole
  {
  }

  /** Codes that fit score 1 exactly when both lists hold the same codes equally often. */
  lemma FullScoreIff(a: seq<int>, b: seq<int>)
    requires a != [] && b != [] && Fit(b)
    ensures Score(a, b) == 1.0 <==> multiset(a) == multiset(b)
  {
    FittingStock(b);
    SharedIsNoLarger(multiset(a), multiset(b));
    SharedIsNoLarger(multiset(b), multiset(a));
    assert multiset(a) * multiset(b) == multiset(b) * multiset(a);
    Proportion(2 * |multiset(a) * multiset(b)|, |a| + |b|);
  }

  /** A title whose letters are below U+8000 scores 1 against itself, unless it has no letters. */
  lemma EqualTitlesScoreOne(title: seq<Unit>)
    requires forall u :: u in Letters(title) ==> u < 0x8000
    ensures Score(BigramCodes(title), BigramCodes(title)) == if Letters(title) == [] then 0.0 else 1.0
  {
    var codes := BigramCodes(title);
    if Letters(title) != [] {
      forall code | code in codes ensures InRange(code) {
        if |Letters(title)| != 1 { var x, y := PairsAre(Letters(title), code); }
      }
      FullScoreIff(codes, codes);
    }
  }

  lemma TakeFirst(codes: seq<int>, left: multiset<int>)
    requires codes != []
    ensures Taken(codes, left) == Taken(codes[1..], left - multiset{codes[0]}) + if codes[0] in left then 1 else 0
  {
    if codes[0] !in left { assert left - multiset{codes[0]} == left; }
  }

  lemma InsertStep(codes: seq<int>, i: nat)
    requires i < |codes|
    ensures StockOf(codes[..i + 1]) == Inserted(StockOf(codes[..i]), codes[i])
    ensures SlotsFor(codes[..i + 1])
      == SlotsFor(codes[..i]) + if InRange(codes[i]) && codes[i] in StockOf(codes[..i]).known then 0 else 1
    ensures SlotsFor(codes[..i]) <= SlotsFor(codes)
  {
    assert codes[..i + 1][..i] == codes[..i];
    SlotsGrow(codes, i);
  }

  lemma {:induction false} SlotsGrow(codes: seq<int>, i: nat)
    requires i < |codes|
    ensures SlotsFor(codes[..i]) <= SlotsFor(codes)
    decreases |codes|
  {
    var rest := codes[..|codes| - 1];
    if i < |codes| - 1 {
      SlotsGrow(rest, i);
      assert rest[..i] == codes[..i];
    }
  }

  /** The plain frequency map: `diceNumeric` counts the multiset intersection, whatever the codes. */
  method NumericMatches(a: seq<int>, b: seq<int>) returns (matches: nat)
    ensures matches == |multiset(a) * multiset(b)|
  {
    var frequency: map<int, nat> := map[];
    for i := 0 to |b|
      invariant forall code :: (if code in frequency then frequency[code] else 0) == multiset(b[..i])[code]
    {
      assert b[..i + 1] == b[..i] + [b[i]];
      frequency := frequency[b[i] := (if b[i] in frequency then frequency[b[i]] else 0) + 1];
    }
    assert b[..|b|] == b;
    ghost var left := multiset(b);
    matches := 0;
    for i := 0 to |a|
      invariant forall code :: (if code in frequency then frequency[code] else 0) == left[code]
      invariant matches + Taken(a[i..], left) == Taken(a, multiset(b))
    {
      TakeFirst(a[i..], left);
      assert a[i..][0] == a[i] && a[i..][1..] == a[i + 1..];
      var count := if a[i] in frequency then frequency[a[i]] else 0;
      if count > 0 {
        matches := matches + 1;
        frequency := frequency[a[i] := count - 1];
      }
      left := left - multiset{a[i]};
    }
    TakenIsIntersection(a, multiset(b));
  }

  // ----- the codes of a title

  /** A UTF-16 code unit. */
  type Unit = u: nat | u < 65536

  const SPACE: Unit := 32

  function Letters(title: seq<Unit>): seq<Unit> {
    if title == [] then []
    else if title[|title| - 1] == SPACE then Letters(title[..|title| - 1])
    else Letters(title[..|title| - 1]) + [title[|title| - 1]]
  }

  function PairCode(x: Unit, y: Unit): int {
    (x as int) * 65536 + (y as int)
  }

  function Pairs(letters: seq<Unit>): seq<int> {
    if |letters| < 2 then []
    else Pairs(letters[..|letters| - 1]) + [PairCode(letters[|letters| - 2], letters[|letters| - 1])]
  }

  /** The bigram codes of a title, or a marker of its own for a title of one letter. */
  function BigramCodes(title: seq<Unit>): seq<int> {
    var letters := Letters(title);
    if |letters| == 1 then [-1 - letters[0]] else Pairs(letters)
  }

  method WriteBigramCodes(title: seq<Unit>) returns (out: seq<int>)
    ensures out == BigramCodes(title)
  {
    out := [];
    var previous: int := -1;
    for index := 0 to |title|
      invariant out == Pairs(Letters(title[..index]))
      invariant previous == if Letters(title[..index]) == [] then -1 else Letters(title[..index])[|Letters(title[..index])| - 1]
    {
      assert title[..index + 1][..index] == title[..index];
      var code := title[index];
      if code == SPACE { continue; }
      ghost var letters := Letters(title[..index]);
      assert Letters(title[..index + 1]) == letters + [code];
      assert (letters + [code])[..|letters|] == letters;
      assert letters != [] ==> Pairs(letters + [code]) == Pairs(letters) + [PairCode(letters[|letters| - 1], code)];
      if previous >= 0 { out := out + [PairCode(previous, code)]; }
      previous := code;
    }
    assert title[..|title|] == title;
    if out == [] && previous >= 0 { out := [-1 - previous]; }
  }

  lemma {:induction false} PairsAre(letters: seq<Unit>, code: int) returns (x: Unit, y: Unit)
    requires code in Pairs(letters)
    ensures x in letters && y in letters && code == PairCode(x, y)
  {
    var rest := letters[..|letters| - 1];
    if code in Pairs(rest) {
      x, y := PairsAre(rest, code);
    } else {
      x, y := letters[|letters| - 2], letters[|letters| - 1];
    }
  }

  /** The slots that inserting `codes` into an empty table takes. */
  function SlotsFor(codes: seq<int>): (r: nat)
    ensures r <= |codes|
  {
    if codes == [] then 0
    else
      var rest, last := codes[..|codes| - 1], codes[|codes| - 1];
      SlotsFor(rest) + if InRange(last) && last in StockOf(rest).known then 0 else 1
  }

  /** Codes that fit take one slot for each distinct code. */
  lemma {:induction false} DistinctCodesTakeSlots(codes: seq<int>)
    requires Fit(codes)
    ensures SlotsFor(codes) == |set code | code in codes|
  {
    if codes != [] {
      var rest, last := codes[..|codes| - 1], codes[|codes| - 1];
      assert codes == rest + [last];
      DistinctCodesTakeSlots(rest);
      FittingStock(rest);
      var before := set code | code in rest;
      assert (set code | code in codes) == before + {last};
      if last in rest { assert before + {last} == before; }
    }
  }

  lemma OneMoreUsed(used: seq<bool>, slot: nat)
    requires slot < |used| && !used[slot]
    ensures |UsedSlots(used[slot := true])| == |UsedSlots(used)| + 1
  {
    assert UsedSlots(used[slot := true]) == UsedSlots(used) + {slot};
  }

  const NONCHARACTER: Unit := 65535

  lemma Overflows(code: int)
    requires TWO_31 <= code < TWO_32
    ensures ToInt32(code) == code - TWO_32
  {
  }

  /** `a` is one letter, and `b` holds U+FFFF followed by the unit that makes the pair wrap to the marker of that letter. */
  predicate TakenForMarker(a: seq<Unit>, b: seq<Unit>) {
    |Letters(a)| == 1 && Adjacent(Letters(b), NONCHARACTER, 65535 - Letters(a)[0])
  }

  predicate Adjacent(letters: seq<Unit>, x: Unit, y: Unit) {
    exists i :: 0 <= i < |letters| - 1 && letters[i] == x && letters[i + 1] == y
  }

  lemma {:induction false} PairsAreAdjacent(letters: seq<Unit>, x: Unit, y: Unit)
    ensures PairCode(x, y) in Pairs(letters) <==> Adjacent(letters, x, y)
  {
    if |letters| >= 2 {
      var rest, last := letters[..|letters| - 1], |letters| - 2;
      PairsAreAdjacent(rest, x, y);
      assert Pairs(letters) == Pairs(rest) + [PairCode(letters[last], letters[last + 1])];
      if Adjacent(letters, x, y) {
        var i :| 0 <= i < |letters| - 1 && letters[i] == x && letters[i + 1] == y;
        assert i < last ==> rest[i] == x && rest[i + 1] == y;
      }
      if Adjacent(rest, x, y) {
        var i :| 0 <= i < |rest| - 1 && rest[i] == x && rest[i + 1] == y;
        assert letters[i] == x && letters[i + 1] == y;
      }
    }
  }

  /** Only a one-letter title can hold the wrapped code of a pair, and only of a pair that starts with U+FFFF. */
  lemma ImpostorIff(a: seq<Unit>, b: seq<Unit>)
    ensures NoImpostor(BigramCodes(a), BigramCodes(b)) <==> !TakenForMarker(a, b)
  {
    var x, y := BigramCodes(a), BigramCodes(b);
    if TakenForMarker(a, b) {
      var code := PairCode(NONCHARACTER, 65535 - Letters(a)[0]);
      PairsAreAdjacent(Letters(b), NONCHARACTER, 65535 - Letters(a)[0]);
      assert code in y && !InRange(code) && ToInt32(code) == x[0];
    }
    if code :| code in y && !InRange(code) && ToInt32(code) in x {
      var u, v := OverflowIsPair(b, code);
      if |Letters(a)| != 1 {
        var p, q := PairsAre(Letters(a), ToInt32(code));
        assert false;
      }
      assert u == NONCHARACTER && v == 65535 - Letters(a)[0];
    }
  }

  lemma OverflowIsPair(b: seq<Unit>, code: int) returns (u: Unit, v: Unit)
    requires code in BigramCodes(b) && !InRange(code)
    ensures code == PairCode(u, v) && Adjacent(Letters(b), u, v) && ToInt32(code) == code - TWO_32
  {
    u, v := PairsAre(Letters(b), code);
    PairsAreAdjacent(Letters(b), u, v);
    Overflows(code);
  }

  /** Whatever a code wraps to is in stock once the code was inserted. */
  lemma {:induction false} WrappedIsStocked(codes: seq<int>, code: int)
    requires code in codes
    ensures ToInt32(code) in StockOf(codes).left && ToInt32(code) in StockOf(codes).known
  {
    var rest, last := codes[..|codes| - 1], codes[|codes| - 1];
    assert codes == rest + [last];
    KnownIsLeft(rest);
    if code != last { WrappedIsStocked(rest, code); }
  }

  lemma {:induction false} KnownIsLeft(codes: seq<int>)
    ensures forall key :: key in StockOf(codes).known ==> key in StockOf(codes).left
  {
    if codes != [] { KnownIsLeft(codes[..|codes| - 1]); }
  }

  lemma MistakenMarker(a: seq<Unit>, b: seq<Unit>)
    requires TakenForMarker(a, b)
    ensures var x, y := BigramCodes(a), BigramCodes(b);
      |multiset(x) * StockOf(y).left| == 1 && |multiset(x) * multiset(y)| == 0
  {
    var x, y := BigramCodes(a), BigramCodes(b);
    var mark := -1 - (Letters(a)[0] as int);
    ImpostorIff(a, b);
    var code :| code in y && !InRange(code) && ToInt32(code) in x;
    WrappedIsStocked(y, code);
    assert multiset(x) * StockOf(y).left == multiset{mark};
    assert |Letters(b)| != 1;
    if mark in y {
      var p, q := PairsAre(Letters(b), mark);
      assert false;
    }
    assert multiset(x) * multiset(y) == multiset{};
  }

  /**
   The table finds as many matches as the frequency map exactly when every pair the titles share starts below U+8000 and
   no pair of the second title is taken for the marker of a one-letter first title.
   */
  lemma TableRefinesMapIff(a: seq<Unit>, b: seq<Unit>)
    ensures var x, y := BigramCodes(a), BigramCodes(b);
      (|multiset(x) * StockOf(y).left| == |multiset(x) * multiset(y)|)
      <==> (forall code :: code in x && code in y ==> code < TWO_31) && !TakenForMarker(a, b)
  {
    var x, y := BigramCodes(a), BigramCodes(b);
    ImpostorIff(a, b);
    if TakenForMarker(a, b) {
      MistakenMarker(a, b);
    } else {
      SameMatchesIff(x, y);
      TakenIsIntersection(x, StockOf(y).left);
      TakenIsIntersection(x, multiset(y));
      forall code | code in x ensures InRange(code) <==> code < TWO_31 {
        CodesStartAt(a, code);
      }
    }
  }

  lemma CodesStartAt(title: seq<Unit>, code: int)
    requires code in BigramCodes(title)
    ensures -65536 <= code < TWO_32
  {
    if |Letters(title)| != 1 { var x, y := PairsAre(Letters(title), code); }
  }

  /** The title U+FF9E and the title U+FFFF "a" share no pair; the table finds a match all the same. */
  lemma UnlikeTitlesMayMatch()
    ensures var x, y := BigramCodes([0xFF9E]), BigramCodes([0xFFFF, 0x61]);
      |multiset(x) * StockOf(y).left| == 1 && |multiset(x) * multiset(y)| == 0
  {
    var a: seq<Unit>, b: seq<Unit> := [0xFF9E], [0xFFFF, 0x61];
    assert a[..0] == [] && Letters(a) == a;
    LettersOfTwo(0xFFFF, 0x61);
    assert b[0] == NONCHARACTER && b[1] == 65535 - a[0];
    MistakenMarker(a, b);
  }

  lemma LettersOfTwo(x: Unit, y: Unit)
    requires x != SPACE && y != SPACE
    ensures Letters([x, y]) == [x, y]
  {
    var title := [x, y];
    assert title[..1] == [x] && [x][..0] == [];
    assert Letters([x]) == [x];
  }

  lemma TwoLetters(x: Unit, y: Unit)
    requires x != SPACE && y != SPACE
    ensures BigramCodes([x, y]) == [PairCode(x, y)]
  {
    LettersOfTwo(x, y);
    assert [x, y][..1] == [x];
    assert Pairs([x]) == [];
  }

  lemma OverflowIsMissed(code: int)
    requires !InRange(code)
    ensures |multiset([code]) * StockOf([code]).left| == 0 && |multiset([code]) * multiset([code])| == 1
  {
    assert [code][..0] == [];
    assert StockOf([code]).left == multiset{ToInt32(code)};
    assert multiset([code]) * multiset{ToInt32(code)} == multiset{};
    assert multiset([code]) * multiset([code]) == multiset{code};
  }

  /** Two equal titles of two letters from U+8000 on share their pair, and the table does not find it. */
  lemma EqualTitlesMayNotMatch(x: Unit, y: Unit)
    requires 0x8000 <= x && y != SPACE
    ensures var codes := BigramCodes([x, y]);
      |multiset(codes) * StockOf(codes).left| == 0 && |multiset(codes) * multiset(codes)| == 1
  {
    TwoLetters(x, y);
    OverflowIsMissed(PairCode(x, y));
  }
}
