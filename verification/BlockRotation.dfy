/**
  The in-place exchange of two adjacent blocks of the argument vector
  (librist-master/contrib/getopt-shim.c:138-188): gcd(a, b) cycles of equal
  length, each followed by swapping through its first position.
 */
module BlockRotation {
  // ----- divisibility -----

  predicate Divides(d: int, n: int) {
    d > 0 && n % d == 0
  }

  lemma Monotone(x: int, y: int, d: int)
    requires x <= y && d >= 0
    ensures x * d <= y * d
  {
  }

  /** Quotient and remainder are unique. */
  lemma QuotientIsUnique(n: int, d: int, q: int, r: int)
    requires d > 0 && n == q * d + r && 0 <= r < d
    ensures n / d == q && n % d == r
  {
    var q', r' := n / d, n % d;
    assert (q - q') * d == r' - r;
    if q - q' >= 1 {
      Monotone(1, q - q', d);
    } else if q - q' <= -1 {
      Monotone(q - q', -1, d);
    }
  }

  lemma MultipleIsDivisible(q: int, d: int)
    requires d > 0
    ensures (q * d) % d == 0 && (q * d) / d == q
  {
    QuotientIsUnique(q * d, d, q, 0);
  }

  lemma Factor(x: int, p: int, y: int, q: int, d: int)
    ensures x * (p * d) + y * (q * d) == (x * p + y * q) * d
  {
  }

  lemma CombinationIsDivisible(d: int, m: int, n: int, x: int, y: int)
    requires Divides(d, m) && Divides(d, n)
    ensures Divides(d, x * m + y * n)
  {
    var p, q := m / d, n / d;
    assert m == p * d && n == q * d;
    Factor(x, p, y, q, d);
    MultipleIsDivisible(x * p + y * q, d);
  }

  /** g is the greatest common divisor of a and b. */
  ghost predicate IsGcd(g: int, a: int, b: int) {
    && Divides(g, a)
    && Divides(g, b)
    && forall d: int :: Divides(d, a) && Divides(d, b) ==> d <= g
  }

  /** g divides both numbers and is the combination x * a + y * b of them. */
  ghost predicate Bezout(g: int, a: int, b: int, x: int, y: int) {
    Divides(g, a) && Divides(g, b) && g == x * a + y * b
  }

  lemma DivisorIsNotLarger(d: int, n: int)
    requires Divides(d, n) && n > 0
    ensures d <= n
  {
  }

  /** A common divisor that is a combination of both numbers is their greatest common divisor. */
  lemma CombinationIsGcd(g: int, a: int, b: int, x: int, y: int)
    requires Bezout(g, a, b, x, y)
    ensures IsGcd(g, a, b)
  {
    forall d: int | Divides(d, a) && Divides(d, b)
      ensures d <= g
    {
      CombinationIsDivisible(d, a, b, x, y);
      DivisorIsNotLarger(d, g);
    }
  }

  lemma EuclidAlgebra(a: int, b: int, q: int, r: int, x: int, y: int)
    requires a == q * b + r
    ensures x * b + y * r == y * a + (x - y * q) * b
  {
    assert y * a == y * (q * b) + y * r;
    assert y * (q * b) == (y * q) * b;
    assert (x - y * q) * b == x * b - (y * q) * b;
  }

  /** Common divisors and combinations carry over from (b, a % b) to (a, b). */
  lemma EuclidStep(g: int, a: int, b: int, x: int, y: int)
    requires b > 0
    requires Divides(g, b) && Divides(g, a % b) && g == x * b + y * (a % b)
    ensures Divides(g, a) && g == y * a + (x - y * (a / b)) * b
  {
    var q, r := a / b, a % b;
    CombinationIsDivisible(g, b, r, q, 1);
    assert a == q * b + 1 * r;
    EuclidAlgebra(a, b, q, r, x, y);
  }

  /** The coefficients x, y with x * a + y * b == gcd(a, b), by the same recursion as the loop. */
  ghost function Coefficients(a: nat, b: nat): (c: (int, int, int))
    requires b > 0
    ensures Bezout(c.0, a, b, c.1, c.2)
    decreases b
  {
    if a % b == 0 then (b, 0, 1)
    else
      var (g, x, y) := Coefficients(b, a % b);
      EuclidStep(g, a, b, x, y);
      (g, y, x - y * (a / b))
  }

  /** The greatest common divisor is unique, so it comes with coefficients. */
  lemma GcdIsCombination(g: int, a: nat, b: nat) returns (x: int, y: int)
    requires b > 0 && IsGcd(g, a, b)
    ensures Bezout(g, a, b, x, y)
  {
    var c := Coefficients(a, b);
    CombinationIsGcd(c.0, a, b, c.1, c.2);
    assert g == c.0;
    x, y := c.1, c.2;
  }

  /** Euclid's loop. */
  method Gcd(a0: nat, b0: nat) returns (g: nat)
    requires b0 > 0
    ensures g > 0 && IsGcd(g, a0, b0)
  {
    var a, b := a0, b0;
    var c := a % b;
    while c != 0
      invariant b > 0 && c == a % b
      invariant Coefficients(a, b).0 == Coefficients(a0, b0).0
      decreases c
    {
      a := b;
      b := c;
      c := a % b;
    }
    g := b;
    CombinationIsGcd(g, a0, b0, Coefficients(a0, b0).1, Coefficients(a0, b0).2);
  }

  // ----- the cycles -----

  /** Where k hops of b positions lead from c, round a segment of n positions. */
  ghost function Hop(n: int, b: int, c: int, k: int): int
    requires n > 0
  {
    (c + k * b) % n
  }

  lemma ModShift(x: int, t: int, n: int)
    requires n > 0
    ensures (x + t * n) % n == x % n
  {
    assert x + t * n == (x / n + t) * n + x % n by {
      assert x == (x / n) * n + x % n;
      assert (x / n + t) * n == (x / n) * n + t * n;
    }
    QuotientIsUnique(x + t * n, n, x / n + t, x % n);
  }

  lemma ModIsUnique(x: int, n: int, p: int, t: int)
    requires n > 0 && 0 <= p < n && x == p + t * n
    ensures x % n == p
  {
    QuotientIsUnique(x, n, t, p);
  }

  /** The loop's step: one more hop adds b, or takes a away when that stays inside the segment. */
  lemma HopStep(a: nat, b: nat, c: int, k: int)
    requires b > 0
    ensures var h := Hop(a + b, b, c, k);
            && 0 <= h < a + b
            && Hop(a + b, b, c, k + 1) == (if h >= a then h - a else h + b)
  {
    var n, x := a + b, c + k * b;
    var h, t := x % n, x / n;
    assert x == t * n + h;
    assert (k + 1) * b == k * b + b;
    if h >= a {
      assert (t + 1) * n == t * n + n;
      ModIsUnique(x + b, n, h - a, t + 1);
    } else {
      ModIsUnique(x + b, n, h + b, t);
    }
  }

  lemma DivModFact(z: int, d: int)
    requires d > 0
    ensures z == (z / d) * d + z % d
  {
  }

  lemma DivisibleDifference(u: int, v: int, g: int)
    requires Divides(g, v - u)
    ensures u % g == v % g
  {
    DivModFact(v - u, g);
    ModShift(u, (v - u) / g, g);
  }

  lemma HopAlgebra(a: int, b: int, k: int, t: int)
    ensures k * b - t * (a + b) == (k - t) * b + (-t) * a
  {
  }

  /** A hop stays in its residue class modulo a common divisor of both block lengths. */
  lemma HopKeepsResidue(a: nat, b: nat, g: int, c: int, k: int)
    requires b > 0 && Divides(g, a) && Divides(g, b)
    ensures Hop(a + b, b, c, k) % g == c % g
  {
    var t := (c + k * b) / (a + b);
    DivModFact(c + k * b, a + b);
    HopAlgebra(a, b, k, t);
    CombinationIsDivisible(g, b, a, k - t, -t);
    DivisibleDifference(c, Hop(a + b, b, c, k), g);
  }

  lemma CrossMultiply(x: int, y: int, z: int, n: int, b: int)
    requires n == x * z && b == y * z
    ensures x * b == y * n
  {
  }

  lemma ScaledHops(n: int, b: int, g: int)
    requires Divides(g, n) && Divides(g, b)
    ensures (n / g) * b == (b / g) * n
  {
    CrossMultiply(n / g, b / g, g, n, b);
  }

  /** All L = (a + b) / g hops bring the walk back to its start. */
  lemma HopReturns(a: nat, b: nat, g: int, c: nat)
    requires b > 0 && Divides(g, a) && Divides(g, b) && c < a + b
    ensures Hop(a + b, b, c, (a + b) / g) == c
  {
    CombinationIsDivisible(g, a, b, 1, 1);
    ScaledHops(a + b, b, g);
    ModIsUnique(c + ((a + b) / g) * b, a + b, c, b / g);
  }

  lemma SplitProduct(d: int, u: int, b: int, x: int, n: int)
    ensures d * (u * b + x * n) == (d * u) * b + (d * x) * n
  {
    assert d * (u * b) == (d * u) * b;
    assert d * (x * n) == (d * x) * n;
  }

  /** g as a combination of the hop b and the segment length. */
  lemma HopCombination(a: nat, b: nat, g: int, x: int, y: int, d: int)
    requires Bezout(g, a, b, x, y)
    ensures d * g == (d * (y - x)) * b + (d * x) * (a + b)
  {
    assert g == (y - x) * b + x * (a + b) by {
      assert (y - x) * b == y * b - x * b;
      assert x * (a + b) == x * a + x * b;
    }
    SplitProduct(d, y - x, b, x, a + b);
  }

  lemma SubtractMultiples(x: int, y: int, n: int)
    ensures (y - x) * n == y * n - x * n
  {
  }

  lemma EqualModIsDivisible(u: int, v: int, n: int)
    requires n > 0 && u % n == v % n
    ensures Divides(n, v - u) && v - u == (v / n - u / n) * n
  {
    SubtractMultiples(u / n, v / n, n);
    MultipleIsDivisible(v / n - u / n, n);
  }

  lemma SumIsDivisible(n: int, m: int, u: int, v: int, r: int)
    requires Divides(n, m) && r == u * m + v * n
    ensures Divides(n, r)
  {
    CombinationIsDivisible(n, m, n, u, v);
  }

  lemma Swap(d: int, u: int, b: int)
    ensures (d * u) * b == u * (d * b)
  {
  }

  /** If d hops move by a multiple of n, so does d times the greatest common divisor. */
  lemma DivisorOfHops(a: nat, b: nat, g: int, x: int, y: int, d: int)
    requires Bezout(g, a, b, x, y) && Divides(a + b, d * b)
    ensures Divides(a + b, d * g)
  {
    HopCombination(a, b, g, x, y, d);
    Swap(d, y - x, b);
    SumIsDivisible(a + b, d * b, y - x, d * x, d * g);
  }

  lemma LessThanWhole(d: int, g: int, n: int)
    requires Divides(g, n) && 0 < d < n / g
    ensures 0 < d * g < n
  {
    Monotone(d + 1, n / g, g);
  }

  lemma EqualHops(n: int, b: int, c: int, j: int, l: int)
    requires n > 0 && Hop(n, b, c, j) == Hop(n, b, c, l)
    ensures Divides(n, (l - j) * b)
  {
    EqualModIsDivisible(c + j * b, c + l * b, n);
    SubtractMultiples(j, l, b);
  }

  /** Fewer than L hops apart, two positions of a walk differ. */
  lemma HopsAreDistinct(a: nat, b: nat, g: int, x: int, y: int, c: int, j: int, l: int)
    requires Bezout(g, a, b, x, y) && a + b > 0 && 0 <= j < l < (a + b) / g
    ensures Hop(a + b, b, c, j) != Hop(a + b, b, c, l)
  {
    if Hop(a + b, b, c, j) == Hop(a + b, b, c, l) {
      EqualHops(a + b, b, c, j, l);
      DivisorOfHops(a, b, g, x, y, l - j);
      CombinationIsDivisible(g, a, b, 1, 1);
      LessThanWhole(l - j, g, a + b);
      DivisorIsNotLarger(a + b, (l - j) * g);
    }
  }

  lemma CoverAlgebra(c: int, p: int, n: int, b: int, mg: int, mx: int, z: int, len: int, q: int, t: int, k: int)
    requires p - c == mg && mg == z * b + mx * n && z == t * len + k && len * b == q * n
    ensures c + k * b == p + (-mx - t * q) * n
  {
    calc {
      z * b;
      (t * len) * b + k * b;
      { assert (t * len) * b == t * (len * b); }
      t * (q * n) + k * b;
      { assert t * (q * n) == (t * q) * n; }
      (t * q) * n + k * b;
    }
    SubtractMultiples(t * q, -mx, n);
  }

  lemma PositiveQuotient(n: int, g: int)
    requires n > 0 && Divides(g, n)
    ensures n / g > 0
  {
    assert n == (n / g) * g;
  }

  /** The walk from c reaches every position of its residue class within L hops. */
  lemma HopsCover(a: nat, b: nat, g: int, x: int, y: int, c: nat, p: nat) returns (k: nat)
    requires Bezout(g, a, b, x, y) && c < a + b && p < a + b
    requires p % g == c % g
    ensures k < (a + b) / g && Hop(a + b, b, c, k) == p
  {
    var n := a + b;
    EqualModIsDivisible(c, p, g);
    CombinationIsDivisible(g, a, b, 1, 1);
    PositiveQuotient(n, g);
    ScaledHops(n, b, g);
    var m, len := p / g - c / g, n / g;
    var z := m * (y - x);
    k := z % len;
    HopCombination(a, b, g, x, y, m);
    DivModFact(z, len);
    CoverAlgebra(c, p, n, b, m * g, m * x, z, len, b / g, z / len, k);
    ModIsUnique(c + k * b, n, p, -(m * x) - (z / len) * (b / g));
  }

  // ----- the exchange -----

  /**
    Where the entry that belongs at position p stands before blocks of lengths a
    and b, the first one at position start, change places.
   */
  function Source(start: nat, a: nat, b: nat, p: int): int {
    if p < start + b then p + a else p - b
  }

  /** Every position's remainder modulo g, counted from start; g itself outside the segment. */
  ghost function Residues(total: nat, start: nat, n: nat, g: int): (r: seq<int>)
    requires g > 0
    ensures |r| == total
    ensures forall p :: 0 <= p < total ==> r[p] >= 0 && (r[p] < g <==> start <= p < start + n)
  {
    seq(total, p => if start <= p < start + n then (p - start) % g else g)
  }

  /**
    One cycle of the exchange: the positions visited from start + a + i. The walk
    obeys the loop's step, ends where it starts, repeats nothing before that, and
    visits exactly the positions of residue class i.
   */
  ghost predicate IsCycle(walk: seq<int>, residue: seq<int>, start: nat, a: nat, b: nat, i: nat) {
    var len := |walk| - 1;
    && len > 0 && start + a + b <= |residue|
    && walk[0] == start + a + i == walk[len]
    && (forall j :: 0 <= j <= len ==> start <= walk[j] < start + a + b && residue[walk[j]] == i)
    && (forall j {:trigger walk[j + 1]} :: 0 <= j < len ==>
          walk[j + 1] == (if walk[j] >= start + a then walk[j] - a else walk[j] + b))
    && (forall j, l :: 0 <= j < l < len ==> walk[j] != walk[l])
    && (forall p :: 0 <= p < |residue| && residue[p] == i ==>
          exists j :: 0 <= j < len && walk[j] == p)
  }

  /** The walk as the hops define it. */
  ghost function Walk(start: nat, a: nat, b: nat, i: nat, len: nat): seq<int>
    requires a + b > 0
  {
    seq(len + 1, j => start + Hop(a + b, b, a + i, j))
  }

  lemma StartResidue(a: nat, g: nat, i: nat)
    requires Divides(g, a) && i < g
    ensures (a + i) % g == i
  {
    DivModFact(a, g);
    ModIsUnique(a + i, g, i, a / g);
  }

  lemma WalkStaysInClass(total: nat, start: nat, a: nat, b: nat, g: int, i: nat, len: nat)
    requires b > 0 && Divides(g, a) && Divides(g, b) && i < g && start + a + b <= total
    ensures var walk, residue := Walk(start, a, b, i, len), Residues(total, start, a + b, g);
            && (forall j :: 0 <= j <= len ==> start <= walk[j] < start + a + b && residue[walk[j]] == i)
            && (forall j {:trigger walk[j + 1]} :: 0 <= j < len ==>
                  walk[j + 1] == (if walk[j] >= start + a then walk[j] - a else walk[j] + b))
  {
    var walk, residue := Walk(start, a, b, i, len), Residues(total, start, a + b, g);
    StartResidue(a, g, i);
    forall j | 0 <= j <= len
      ensures start <= walk[j] < start + a + b && residue[walk[j]] == i
    {
      HopStep(a, b, a + i, j);
      HopKeepsResidue(a, b, g, a + i, j);
    }
    forall j {:trigger walk[j + 1]} | 0 <= j < len
      ensures walk[j + 1] == (if walk[j] >= start + a then walk[j] - a else walk[j] + b)
    {
      HopStep(a, b, a + i, j);
    }
  }

  lemma WalkIsDistinct(start: nat, a: nat, b: nat, g: int, x: int, y: int, i: nat, len: nat)
    requires a + b > 0 && Bezout(g, a, b, x, y) && len == (a + b) / g
    ensures var walk := Walk(start, a, b, i, len); forall j, l :: 0 <= j < l < len ==> walk[j] != walk[l]
  {
    var walk := Walk(start, a, b, i, len);
    forall j, l | 0 <= j < l < len
      ensures walk[j] != walk[l]
    {
      HopsAreDistinct(a, b, g, x, y, a + i, j, l);
    }
  }

  lemma WalkCovers(total: nat, start: nat, a: nat, b: nat, g: int, x: int, y: int, i: nat, len: nat)
    requires b > 0 && Bezout(g, a, b, x, y) && i < g && start + a + b <= total && len == (a + b) / g
    requires a + i < a + b
    ensures var walk, residue := Walk(start, a, b, i, len), Residues(total, start, a + b, g);
            forall p :: 0 <= p < total && residue[p] == i ==> exists j :: 0 <= j < len && walk[j] == p
  {
    var walk, residue := Walk(start, a, b, i, len), Residues(total, start, a + b, g);
    StartResidue(a, g, i);
    forall p | 0 <= p < total && residue[p] == i
      ensures exists j :: 0 <= j < len && walk[j] == p
    {
      var k := HopsCover(a, b, g, x, y, a + i, p - start);
      assert walk[k] == p;
    }
  }

  lemma HopIsStart(n: int, b: int, c: int)
    requires 0 <= c < n
    ensures Hop(n, b, c, 0) == c
  {
  }

  lemma CycleEnds(a: nat, b: nat, g: int, i: nat)
    requires b > 0 && Divides(g, a) && Divides(g, b) && i < g
    ensures Hop(a + b, b, a + i, 0) == a + i == Hop(a + b, b, a + i, (a + b) / g)
    ensures a + i < a + b
  {
    DivisorIsNotLarger(g, b);
    HopIsStart(a + b, b, a + i);
    HopReturns(a, b, g, a + i);
  }

  /** Every remainder modulo the greatest common divisor has its cycle, of length (a + b) / g. */
  lemma CycleExists(total: nat, start: nat, a: nat, b: nat, g: int, x: int, y: int, i: nat) returns (walk: seq<int>)
    requires b > 0 && Bezout(g, a, b, x, y) && i < g && start + a + b <= total
    ensures IsCycle(walk, Residues(total, start, a + b, g), start, a, b, i)
    ensures |walk| - 1 == (a + b) / g
  {
    CombinationIsDivisible(g, a, b, 1, 1);
    PositiveQuotient(a + b, g);
    var len := (a + b) / g;
    walk := Walk(start, a, b, i, len);
    CycleEnds(a, b, g, i);
    WalkStaysInClass(total, start, a, b, g, i, len);
    WalkIsDistinct(start, a, b, g, x, y, i, len);
    WalkCovers(total, start, a, b, g, x, y, i, len);
  }

  /** All gcd(a, b) cycles, one for each residue class. */
  lemma AllCycles(total: nat, start: nat, a: nat, b: nat, g: int) returns (residue: seq<int>, walks: seq<seq<int>>, len: int)
    requires b > 0 && IsGcd(g, a, b) && start + a + b <= total
    ensures |residue| == total && |walks| == g
    ensures forall p :: 0 <= p < total ==> (residue[p] < g <==> start <= p < start + a + b)
    ensures forall p :: 0 <= p < total ==> residue[p] >= 0
    ensures forall i :: 0 <= i < g ==> IsCycle(walks[i], residue, start, a, b, i) && |walks[i]| - 1 == len
    ensures len == (a + b) / g
  {
    var x, y := GcdIsCombination(g, a, b);
    len := (a + b) / g;
    residue := Residues(total, start, a + b, g);
    walks := [];
    for i := 0 to g
      invariant |walks| == i
      invariant forall k :: 0 <= k < i ==> IsCycle(walks[k], residue, start, a, b, k) && |walks[k]| - 1 == len
    {
      var walk := CycleExists(total, start, a, b, g, x, y, i);
      walks := walks + [walk];
    }
  }

  /** The vector s after i whole cycles; o is the vector before the exchange. */
  ghost predicate Settled<T>(o: seq<T>, s: seq<T>, residue: seq<int>, start: nat, a: nat, b: nat, i: nat) {
    && |o| == |s| == |residue| >= start + a + b
    && (forall p :: 0 <= p < |s| && residue[p] < i ==> start <= p < start + a + b)
    && (forall p :: 0 <= p < |s| ==> s[p] == if residue[p] < i then o[Source(start, a, b, p)] else o[p])
  }

  lemma NothingSettled<T>(o: seq<T>, residue: seq<int>, start: nat, a: nat, b: nat)
    requires |o| == |residue| >= start + a + b
    requires forall p :: 0 <= p < |residue| ==> residue[p] >= 0
    ensures Settled(o, o, residue, start, a, b, 0)
  {
  }

  /** The vector s, which was s0 before the cycle, after k steps along the walk. */
  ghost predicate Rotating<T>(s0: seq<T>, s: seq<T>, walk: seq<int>, k: nat) {
    var len := |walk| - 1;
    && |s| == |s0|
    && 0 < len && k <= len
    && (forall j :: 0 <= j <= len ==> 0 <= walk[j] < |s|)
    && (forall p :: 0 <= p < |s| && p !in walk ==> s[p] == s0[p])
    && (forall j :: 1 <= j <= k && j < len ==> s[walk[j]] == s0[walk[j - 1]])
    && (forall j :: k < j < len ==> s[walk[j]] == s0[walk[j]])
    && s[walk[0]] == s0[walk[if k < len then k else len - 1]]
  }

  /** One swap through the cycle's start advances the cycle by one step. */
  lemma RotatingStep<T>(s0: seq<T>, s: seq<T>, s': seq<T>, walk: seq<int>, k: nat)
    requires Rotating(s0, s, walk, k) && k < |walk| - 1
    requires walk[0] == walk[|walk| - 1]
    requires forall j, l :: 0 <= j < l < |walk| - 1 ==> walk[j] != walk[l]
    requires var c, h := walk[0], walk[k + 1]; s' == s[h := s[c]][c := s[h]]
    ensures Rotating(s0, s', walk, k + 1)
  {
    assert walk[0] in walk && walk[k + 1] in walk;
  }

  /** A completed cycle has settled its whole residue class. */
  lemma RotatingDone<T>(o: seq<T>, s0: seq<T>, s: seq<T>, walk: seq<int>, residue: seq<int>,
                        start: nat, a: nat, b: nat, i: nat)
    requires IsCycle(walk, residue, start, a, b, i)
    requires Settled(o, s0, residue, start, a, b, i)
    requires Rotating(s0, s, walk, |walk| - 1)
    ensures Settled(o, s, residue, start, a, b, i + 1)
  {
    var len := |walk| - 1;
    forall p | 0 <= p < |s|
      ensures residue[p] < i + 1 ==> start <= p < start + a + b
      ensures s[p] == if residue[p] < i + 1 then o[Source(start, a, b, p)] else o[p]
    {
      if residue[p] == i {
        var k :| 0 <= k < len && walk[k] == p;
        var j := if k == 0 then len - 1 else k - 1;
        assert walk[j + 1] == p;
        assert s[p] == s0[walk[j]] == o[walk[j]];
      } else {
        assert p !in walk;
      }
    }
  }

  /** The vector o with its blocks o[start..mid] and o[mid..end] exchanged. */
  function Exchanged<T>(o: seq<T>, start: nat, mid: nat, end: nat): (s: seq<T>)
    requires start <= mid <= end <= |o|
    ensures |s| == |o|
  {
    o[..start] + o[mid..end] + o[start..mid] + o[end..]
  }

  /** Once every residue class is settled, the blocks have changed places. */
  lemma SettledIsExchanged<T>(o: seq<T>, s: seq<T>, residue: seq<int>, start: nat, a: nat, b: nat, g: nat)
    requires Settled(o, s, residue, start, a, b, g)
    requires forall p :: 0 <= p < |s| ==> (residue[p] < g <==> start <= p < start + a + b)
    ensures s == Exchanged(o, start, start + a, start + a + b)
  {
    var t := Exchanged(o, start, start + a, start + a + b);
    forall p | 0 <= p < |s|
      ensures s[p] == t[p]
    {
      assert residue[p] < g <==> start <= p < start + a + b;
    }
  }

  /** The inner loop: one cycle, swapping every position it visits through cstart. */
  method RunCycle<T>(cstart: nat, panonoptEnd: nat, nnonopts: nat, nopts: nat, cyclelen: nat, nargv: array<T>,
                     ghost o: seq<T>, ghost walk: seq<int>, ghost residue: seq<int>, ghost i: nat)
    requires nnonopts <= panonoptEnd && cstart == panonoptEnd + i
    requires IsCycle(walk, residue, panonoptEnd - nnonopts, nnonopts, nopts, i) && cyclelen == |walk| - 1
    requires Settled(o, nargv[..], residue, panonoptEnd - nnonopts, nnonopts, nopts, i)
    modifies nargv
    ensures Settled(o, nargv[..], residue, panonoptEnd - nnonopts, nnonopts, nopts, i + 1)
  {
    var pos := cstart;
    for j := 0 to cyclelen
      invariant pos == walk[j]
      invariant Rotating(old(nargv[..]), nargv[..], walk, j)
    {
      assert walk[j + 1] == if walk[j] >= panonoptEnd then walk[j] - nnonopts else walk[j] + nopts;
      if pos >= panonoptEnd {
        pos := pos - nnonopts;
      } else {
        pos := pos + nopts;
      }
      ghost var s := nargv[..];
      var swap := nargv[pos];
      nargv[pos] := nargv[cstart];
      nargv[cstart] := swap;
      RotatingStep(old(nargv[..]), s, nargv[..], walk, j);
    }
    RotatingDone(o, old(nargv[..]), nargv[..], walk, residue, panonoptEnd - nnonopts, nnonopts, nopts, i);
  }

  /**
    Exchanges nargv[panonoptStart..panonoptEnd] with nargv[panonoptEnd..optEnd], each
    block keeping its own order. The second block must not be empty: its length is
    the divisor of the first remainder taken by Gcd.
   */
  method PermuteArgs<T>(panonoptStart: nat, panonoptEnd: nat, optEnd: nat, nargv: array<T>)
    requires panonoptStart <= panonoptEnd < optEnd <= nargv.Length
    modifies nargv
    ensures nargv[..] == Exchanged(old(nargv[..]), panonoptStart, panonoptEnd, optEnd)
  {
    hide IsGcd, IsCycle, Settled;
    var nnonopts := panonoptEnd - panonoptStart;
    var nopts := optEnd - panonoptEnd;
    var ncycle := Gcd(nnonopts, nopts);
    var cyclelen := (optEnd - panonoptStart) / ncycle;
    assert optEnd - panonoptStart == nnonopts + nopts;
    ghost var o := nargv[..];
    ghost var residue, walks, len := AllCycles(nargv.Length, panonoptStart, nnonopts, nopts, ncycle);

    NothingSettled(o, residue, panonoptStart, nnonopts, nopts);

    for i := 0 to ncycle
      invariant Settled(o, nargv[..], residue, panonoptStart, nnonopts, nopts, i)
    {
      RunCycle(panonoptEnd + i, panonoptEnd, nnonopts, nopts, cyclelen, nargv, o, walks[i], residue, i);
    }
    SettledIsExchanged(o, nargv[..], residue, panonoptStart, nnonopts, nopts, ncycle);
  }
}
