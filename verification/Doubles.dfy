/**
 Doubles as far as whole numbers go: which of them are doubles, how a sum rounds, and how JavaScript reads a run of digits
 and prints a number. Printing follows `Number::toString` of ECMAScript, with the choice of digits its note recommends.
 */
module Doubles {
  import opened Counting
  import opened Text

  const TWO_52: nat := 0x10_0000_0000_0000
  const TWO_53: nat := 0x20_0000_0000_0000
  const TWO_54: nat := 0x40_0000_0000_0000

  /** The distance between the doubles around `n`. */
  function Spacing(n: nat): (s: nat)
    ensures s >= 1
  {
    if n < TWO_53 then 1 else 2 * Spacing(n / 2)
  }

  /** Rounding to the nearest multiple of the spacing, ties to the even one. */
  function Nearest(n: nat): nat {
    var s := Spacing(n);
    var q, r := n / s, n % s;
    if 2 * r < s || (2 * r == s && q % 2 == 0) then s * q else s * (q + 1)
  }

  predicate IsDouble(n: nat) {
    Nearest(n) == n
  }

  // ----- rounding

  lemma SpacingBounds(n: nat)
    requires n >= TWO_52
    ensures TWO_52 * Spacing(n) <= n < TWO_53 * Spacing(n)
    ensures n >= TWO_53 ==> Spacing(n) == 2 * Spacing(n / 2)
  {
    if n >= TWO_53 { SpacingBounds(n / 2); }
  }

  lemma {:induction false} SameSpacing(a: nat, b: nat)
    requires b >= TWO_52 && TWO_52 * Spacing(b) <= a < TWO_53 * Spacing(b)
    ensures Spacing(a) == Spacing(b)
  {
    if b >= TWO_53 { SameSpacing(a / 2, b / 2); }
  }

  lemma NearestOf(n: nat, s: nat, q: nat, r: nat)
    requires s == Spacing(n) && n == s * q + r && r < s
    ensures Nearest(n) == if 2 * r < s || (2 * r == s && q % 2 == 0) then s * q else s * (q + 1)
  {
    Remainder(n, s, q, r);
  }

  /** How many spacings a number of this size holds. */
  lemma Cut(n: nat) returns (s: nat, q: nat, r: nat)
    requires n >= TWO_52
    ensures s == Spacing(n) && n == s * q + r && r < s && TWO_52 <= q < TWO_53
    ensures Nearest(n) == if 2 * r < s || (2 * r == s && q % 2 == 0) then s * q else s * (q + 1)
  {
    s := Spacing(n);
    Quotient(n, s);
    q, r := n / s, n - s * (n / s);
    NearestOf(n, s, q, r);
    InBounds(n, s, q, r);
  }

  lemma InBounds(n: nat, s: nat, q: nat, r: nat)
    requires n >= TWO_52 && s == Spacing(n) && n == s * q + r && r < s
    ensures TWO_52 <= q < TWO_53
  {
    SpacingBounds(n);
    assert s * (q + 1) == s * q + s;
    assert s * TWO_52 < s * (q + 1);
    assert s * q < s * TWO_53;
    Cancel(s, TWO_52, q + 1);
    Cancel(s, q, TWO_53);
  }

  lemma Times(s: nat, a: nat, b: nat)
    requires a <= b
    ensures s * a <= s * b
  {
  }

  lemma SmallIsDouble(n: nat)
    requires n < TWO_53
    ensures Nearest(n) == n
  {
  }

  /** Rounding gives a double. */
  lemma NearestIsDouble(n: nat)
    ensures IsDouble(Nearest(n))
  {
    if n >= TWO_53 {
      var s, q, r := Cut(n);
      var m := Nearest(n);
      var k := if m == s * q then q else q + 1;
      assert m == k * s;
      if k < TWO_53 {
        Times(s, TWO_52, k);
        Times(s, k + 1, TWO_53);
        SameSpacing(m, n);
        NearestOf(m, s, k, 0);
      } else {
        assert m == TWO_52 * (2 * s);
        SameSpacing(m / 2, n);
        NearestOf(m, 2 * s, TWO_52, 0);
      }
    } else {
      SmallIsDouble(n);
    }
  }

  lemma NoDoubleBetween(n: nat, s: nat, q: nat, k: nat)
    requires n >= TWO_53 && s == Spacing(n) && TWO_52 <= q < TWO_53 && IsDouble(k)
    ensures k <= s * q || k >= s * (q + 1)
  {
    if s * q < k < s * (q + 1) {
      Times(s, TWO_52, q);
      Times(s, q + 1, TWO_53);
      SameSpacing(k, n);
      var s', q', r := Cut(k);
      Cancel(s, q, q');
      Cancel(s, q', q + 1);
    }
  }

  function Distance(a: int, b: int): nat {
    if a < b then b - a else a - b
  }

  /** No double is closer. */
  lemma NearestIsClosest(n: nat, k: nat)
    requires IsDouble(k)
    ensures Distance(Nearest(n), n) <= Distance(k, n)
  {
    if n >= TWO_53 {
      var s, q, r := Cut(n);
      NoDoubleBetween(n, s, q, k);
      assert s * (q + 1) == s * q + s;
    } else {
      SmallIsDouble(n);
    }
  }

  /** Adding one to a double gives it back exactly from 2^54 on, and from 2^53 on at the multiples of four. */
  lemma OneIsLostIff(d: nat)
    requires IsDouble(d) && d >= TWO_53
    ensures Nearest(d + 1) == d <==> d >= TWO_54 || d % 4 == 0
  {
    var s, q, r := Cut(d);
    SpacingBounds(d);
    assert d == s * q;
    Times(s, q + 1, TWO_53);
    SameSpacing(d + 1, d);
    NearestOf(d + 1, s, q, 1);
  }

  lemma SmallIsExact(m: nat, d: nat)
    requires Nearest(m) == d && d <= TWO_53
    ensures m == d || (d == TWO_53 && m == TWO_53 + 1)
  {
    if m >= TWO_53 {
      var s, q, r := Cut(m);
      SpacingBounds(m);
      Times(s, TWO_52, q);
      Times(s, TWO_52, q + 1);
      assert s == 2;
    }
  }

  // ----- numbers

  datatype Number = Finite(n: nat) | Infinity

  const TWO_256: nat := 0x1_0000_0000_0000_0000_0000_0000_0000_0000_0000_0000_0000_0000_0000_0000_0000_0000

  /** 2^1024: what rounds to it or beyond is infinite. */
  const LIMIT: nat := TWO_256 * TWO_256 * TWO_256 * TWO_256

  /** 10^21: from here on numbers are printed with an exponent. */
  const SCIENTIFIC: nat := 1_000_000_000_000_000_000_000

  function ToNumber(n: nat): Number {
    if Nearest(n) < LIMIT then Finite(Nearest(n)) else Infinity
  }

  predicate IsNumber(x: Number) {
    x.Finite? ==> IsDouble(x.n) && x.n < LIMIT
  }

  function PlusOne(x: Number): Number {
    if x.Infinity? then Infinity else ToNumber(x.n + 1)
  }

  /** `Number(text)` of a run of digits. */
  function Read(text: string): Number
    requires Digits(text)
  {
    ToNumber(DecimalValue(text))
  }

  // ----- printing

  function PowerOfTen(exponent: nat): (p: nat)
    ensures p > 0
  {
    if exponent == 0 then 1 else 10 * PowerOfTen(exponent - 1)
  }

  /** The largest multiple of `p` up to `n`. */
  function Down(n: nat, p: nat): (m: nat)
    requires p > 0
    ensures m <= n < m + p
  {
    Quotient(n, p);
    p * (n / p)
  }

  /** The multiple of `p` that reads as `d`; of two such multiples the closer one, then the one with an even factor. */
  function Candidate(d: nat, p: nat): (m: Option<nat>)
    requires p > 0
    ensures m.Some? ==> Nearest(m.value) == d
  {
    var lower, upper := Down(d, p), Down(d, p) + p;
    if Nearest(lower) == d then
      if Nearest(upper) == d && (upper - d < d - lower || (upper - d == d - lower && d / p % 2 == 1)) then Some(upper)
      else Some(lower)
    else if Nearest(upper) == d then Some(upper)
    else None
  }

  /** The candidate for the largest power of ten up to 10^j that has one. */
  function ShortestFrom(d: nat, j: nat): (m: nat)
    requires IsDouble(d)
    ensures Nearest(m) == d
  {
    var m := Candidate(d, PowerOfTen(j));
    if m.Some? then m.value else if j == 0 then d else ShortestFrom(d, j - 1)
  }

  function Shortest(d: nat): (m: nat)
    requires IsDouble(d)
    ensures Nearest(m) == d
  {
    ShortestFrom(d, |Decimal(d)|)
  }

  function WithoutZeros(digits: string): (r: string)
    ensures r != [] ==> r <= digits
    ensures digits != [] ==> r != []
  {
    if |digits| > 1 && digits[|digits| - 1] == '0' then WithoutZeros(digits[..|digits| - 1]) else digits
  }

  /** The digits with a point after the first. */
  function Mantissa(digits: string): string
    requires digits != []
  {
    if |digits| == 1 then digits else [digits[0]] + "." + digits[1..]
  }

  function Scientific(m: nat): string {
    Mantissa(WithoutZeros(Decimal(m))) + ("e" + ("+" + Decimal(|Decimal(m)| - 1)))
  }

  /** `String(x)`. */
  function Print(x: Number): string
    requires IsNumber(x)
  {
    if x.Infinity? then "Infinity"
    else if Shortest(x.n) < SCIENTIFIC then Decimal(Shortest(x.n))
    else Scientific(Shortest(x.n))
  }

  /** A whole number that is a double. */
  predicate IsWhole(n: int) {
    IsNumber(Finite(Distance(n, 0)))
  }

  /** The whole numbers JavaScript has. */
  type Whole = n: int | IsWhole(n) witness 0

  /** `String(n)` of a whole number. */
  function PrintWhole(n: Whole): string {
    assert IsWhole(n);
    (if n < 0 then "-" else "") + Print(Finite(Distance(n, 0)))
  }

  /** Up to 2^53 the number printed is the number itself. */
  lemma {:induction false} ShortestIsExact(d: nat, j: nat)
    requires IsDouble(d) && d <= TWO_53
    ensures ShortestFrom(d, j) == d
  {
    var p := PowerOfTen(j);
    var m := Candidate(d, p);
    if m.Some? {
      CandidateIsExact(d, j, m.value);
    } else if j > 0 {
      ShortestIsExact(d, j - 1);
    }
  }

  lemma DownByTens(n: nat, tenth: nat)
    requires tenth > 0
    ensures Down(n, 10 * tenth) % 10 == 0
  {
    var k := n / (10 * tenth);
    assert Down(n, 10 * tenth) == 10 * (tenth * k);
  }

  /** An odd neighbour of 2^53 is no multiple of ten, so no power of ten brings it up. */
  lemma CandidateIsExact(d: nat, j: nat, m: nat)
    requires d <= TWO_53 && Candidate(d, PowerOfTen(j)) == Some(m)
    ensures m == d
  {
    SmallIsExact(m, d);
    if j > 0 { DownByTens(d, PowerOfTen(j - 1)); }
  }

  lemma SmallIsFinite(d: nat)
    requires d <= TWO_53
    ensures IsDouble(d) && d < LIMIT && d < SCIENTIFIC
  {
  }

  lemma PrintsExactly(d: nat)
    requires d <= TWO_53
    ensures IsNumber(Finite(d)) && Print(Finite(d)) == Decimal(d)
  {
    SmallIsFinite(d);
    ShortestIsExact(d, |Decimal(d)|);
  }

  predicate HasDigitEnds(s: string) {
    s != [] && IsDigit(s[0]) && IsDigit(s[|s| - 1])
  }

  /** A finite number is printed with a digit at either end. */
  lemma PrintedEnds(n: nat)
    requires IsNumber(Finite(n))
    ensures HasDigitEnds(Print(Finite(n)))
  {
    var m := Shortest(n);
    var digits := WithoutZeros(Decimal(m));
    assert Mantissa(digits)[0] == Decimal(m)[0];
  }

  lemma WholeEnds(n: Whole)
    ensures var s := PrintWhole(n); s != "" && (s[0] == '-' || IsDigit(s[0])) && IsDigit(s[|s| - 1])
  {
    assert IsWhole(n);
    PrintedEnds(Distance(n, 0));
    EndsAfterSign(if n < 0 then "-" else "", Print(Finite(Distance(n, 0))));
  }

  lemma EndsAfterSign(sign: string, s: string)
    requires HasDigitEnds(s) && (sign == "" || sign == "-")
    ensures (sign + s) != "" && ((sign + s)[0] == '-' || IsDigit((sign + s)[0])) && IsDigit((sign + s)[|sign + s| - 1])
  {
  }

  lemma EIsNoDigit(head: string, tail: string)
    ensures !Digits(head + ("e" + tail))
  {
    assert (head + ("e" + tail))[|head|] == 'e';
  }

  lemma ScientificIsNoRun(m: nat)
    ensures !Digits(Scientific(m))
  {
    EIsNoDigit(Mantissa(WithoutZeros(Decimal(m))), "+" + Decimal(|Decimal(m)| - 1));
  }

  /** Whatever is printed in digits reads as the number printed. */
  lemma PrintedReads(x: Number)
    requires IsNumber(x) && Digits(Print(x))
    ensures Read(Print(x)) == x
  {
    if x.Finite? {
      ScientificIsNoRun(Shortest(x.n));
      DecimalRoundTrip(Shortest(x.n));
    }
  }

  // ----- counting up

  lemma ReadIsNumber(text: string)
    requires Digits(text)
    ensures IsNumber(Read(text)) && IsNumber(PlusOne(Read(text)))
  {
    NearestIsDouble(DecimalValue(text));
    if Read(text).Finite? { NearestIsDouble(Read(text).n + 1); }
  }

  /** `String(Number(text) + 1)` of a run of digits. */
  function CountedUp(text: string): string
    requires Digits(text)
  {
    ReadIsNumber(text);
    Print(PlusOne(Read(text)))
  }

  /** The text is how its own number prints. */
  predicate PrintsItself(text: string)
    requires Digits(text)
  {
    ReadIsNumber(text);
    Print(Read(text)) == text
  }

  /** Every double from 2^54 on, and the multiples of four from 2^53 on. */
  predicate LosesOne(x: Number) {
    x.Finite? && x.n >= TWO_53 && (x.n >= TWO_54 || x.n % 4 == 0)
  }

  /** Adding one leaves a number as it is exactly when it loses the one. */
  lemma PlusOneStaysIff(x: Number)
    requires IsNumber(x) && x.Finite?
    ensures PlusOne(x) == x <==> LosesOne(x)
  {
    if x.n >= TWO_53 {
      OneIsLostIff(x.n);
    } else {
      SmallIsFinite(x.n + 1);
    }
  }

  /** A run of digits is counted up to itself exactly when it is how its number prints, and the number loses the one. */
  lemma CountedUpIsSameIff(text: string)
    requires Digits(text)
    ensures CountedUp(text) == text <==> PrintsItself(text) && LosesOne(Read(text))
  {
    ReadIsNumber(text);
    var x, y := Read(text), PlusOne(Read(text));
    if Print(y) == text { PrintedReads(y); }
    if Print(x) == text { PrintedReads(x); }
    if x.Finite? { PlusOneStaysIff(x); }
  }

  lemma CountedUpPrints(text: string, y: Number)
    requires Digits(text) && PlusOne(Read(text)) == y
    ensures IsNumber(y) && CountedUp(text) == Print(y)
  {
    ReadIsNumber(text);
  }

  lemma SmallReadsExactly(text: string)
    requires Digits(text) && DecimalValue(text) <= TWO_53
    ensures Read(text) == Finite(DecimalValue(text))
  {
    SmallIsFinite(DecimalValue(text));
  }

  lemma SmallPlusOne(n: nat)
    requires n < TWO_53
    ensures PlusOne(Finite(n)) == Finite(n + 1)
  {
    SmallIsFinite(n + 1);
  }

  /** Below 2^53 counting up is exact. */
  lemma CountedUpExactly(text: string)
    requires Digits(text) && DecimalValue(text) < TWO_53
    ensures CountedUp(text) == Decimal(DecimalValue(text) + 1)
  {
    var n := DecimalValue(text);
    SmallReadsExactly(text);
    SmallPlusOne(n);
    PrintsExactly(n + 1);
    CountedUpPrints(text, Finite(n + 1));
  }

  lemma SmallPrintsItself(d: nat)
    requires d <= TWO_53
    ensures PrintsItself(Decimal(d)) && Read(Decimal(d)) == Finite(d)
  {
    DecimalRoundTrip(d);
    SmallReadsExactly(Decimal(d));
    PrintsExactly(d);
  }

  lemma SmallLosesOne(d: nat)
    requires d <= TWO_53
    ensures LosesOne(Finite(d)) <==> d == TWO_53
  {
  }

  /** Of the numbers up to 2^53, written out, only the last is counted up to itself. */
  lemma FirstLostOne(d: nat)
    requires d <= TWO_53
    ensures CountedUp(Decimal(d)) == Decimal(d) <==> d == TWO_53
  {
    SmallPrintsItself(d);
    SmallLosesOne(d);
    CountedUpIsSameIff(Decimal(d));
  }
}
