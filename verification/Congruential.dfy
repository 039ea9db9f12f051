/**
  The sequence of call targets of benchmark 502: C := (A * C + B) % N.  For N a power of two it
  visits every value once per N steps exactly when A leaves 1 modulo 4 and B is odd.
 */
module Congruential {
  import opened Words

  /** The i-th value of C, starting from c. */
  function Lcg(n: int, a: int, b: int, c: int, i: nat): int
    requires n > 0
  {
    if i == 0 then c else (a * Lcg(n, a, b, c, i - 1) + b) % n
  }

  lemma LcgRange(n: int, a: int, b: int, c: int, i: nat)
    requires n > 0 && 0 <= c < n
    ensures 0 <= Lcg(n, a, b, c, i) < n
  {
  }

  /** How often the values with index in [lo, hi) equal v. */
  function Hits(n: int, a: int, b: int, c: int, lo: nat, hi: nat, v: int): nat
    requires n > 0 && lo <= hi
    decreases hi
  {
    if lo == hi then 0
    else Hits(n, a, b, c, lo, hi - 1, v) + if Lcg(n, a, b, c, hi - 1) == v then 1 else 0
  }

  // ----- the recurrence without the modulus

  function Orbit(a: int, b: int, x: int, i: nat): int {
    if i == 0 then x else a * Orbit(a, b, x, i - 1) + b
  }

  lemma {:induction false} OrbitCompose(a: int, b: int, x: int, i: nat, j: nat)
    ensures Orbit(a, b, x, i + j) == Orbit(a, b, Orbit(a, b, x, i), j)
    decreases j
  {
    if j > 0 {
      OrbitCompose(a, b, x, i, j - 1);
    }
  }

  lemma ModStep(a: int, b: int, y: int, n: int)
    requires n > 0
    ensures (a * (y % n) + b) % n == (a * y + b) % n
  {
    var q := y / n;
    assert a * y + b == a * (y % n) + b + n * (a * q) by {
      assert y == n * q + y % n;
      assert a * y == a * (n * q) + a * (y % n);
      assert a * (n * q) == n * (a * q);
    }
    ModAddMultiple(a * (y % n) + b, a * q, n);
  }

  /** Reducing at every step or once at the end is the same. */
  lemma {:induction false} LcgIsOrbit(n: int, a: int, b: int, c: int, i: nat)
    requires n > 0 && 0 <= c < n
    ensures Lcg(n, a, b, c, i) == Orbit(a, b, c, i) % n
  {
    if i == 0 {
      DivModUnique(c, n, 0, c);
    } else {
      LcgIsOrbit(n, a, b, c, i - 1);
      ModStep(a, b, Orbit(a, b, c, i - 1), n);
    }
  }

  // ----- doubling the number of steps

  /** 2^k steps are one affine map x -> Mul * x + Add. */
  function Mul(a: int, k: nat): int {
    if k == 0 then a else Mul(a, k - 1) * Mul(a, k - 1)
  }

  function Add(a: int, b: int, k: nat): int {
    if k == 0 then b else (Mul(a, k - 1) + 1) * Add(a, b, k - 1)
  }

  lemma Affine(m: int, d: int, x: int)
    ensures m * (m * x + d) + d == (m * m) * x + (m + 1) * d
  {
    assert m * (m * x + d) == m * (m * x) + m * d;
    assert m * (m * x) == (m * m) * x;
    assert (m + 1) * d == m * d + d;
  }

  lemma {:induction false} OrbitPow2(a: int, b: int, x: int, k: nat)
    ensures Orbit(a, b, x, Pow2(k)) == Mul(a, k) * x + Add(a, b, k)
    decreases k
  {
    if k == 0 {
      assert Orbit(a, b, x, 1) == a * Orbit(a, b, x, 0) + b;
    } else {
      var p := Pow2(k - 1);
      OrbitCompose(a, b, x, p, p);
      OrbitPow2(a, b, x, k - 1);
      OrbitPow2(a, b, Orbit(a, b, x, p), k - 1);
      Affine(Mul(a, k - 1), Add(a, b, k - 1), x);
    }
  }

  lemma SquareShape(p: int, c: int)
    ensures (1 + 4 * p * c) * (1 + 4 * p * c) == 1 + 4 * (2 * p) * (c + 2 * p * c * c)
  {
    var u := p * c;
    assert 4 * p * c == 4 * u;
    assert (1 + 4 * u) * (1 + 4 * u) == 1 + 8 * u + 16 * (u * u);
    assert 4 * (2 * p) * (c + 2 * p * c * c) == 8 * (p * (c + 2 * p * c * c));
    assert p * (c + 2 * p * c * c) == u + p * (2 * p * c * c);
    assert p * (2 * p * c * c) == 2 * (u * u) by {
      assert 2 * p * c * c == 2 * (u * c);
      assert p * (2 * (u * c)) == 2 * (p * (u * c));
      assert p * (u * c) == u * (p * c);
    }
  }

  lemma AddShape(p: int, c: int, d: int)
    ensures (1 + 4 * p * c + 1) * (p * (2 * d + 1)) == 2 * p * (2 * (d + p * c * (2 * d + 1)) + 1)
  {
    var u, o := p * c, 2 * d + 1;
    assert 4 * p * c == 4 * u;
    assert (2 + 4 * u) * (p * o) == 2 * (p * o) + 4 * (u * (p * o));
    assert u * (p * o) == p * (u * o);
    assert 2 * p * (2 * (d + u * o) + 1) == 2 * (p * (2 * (d + u * o) + 1));
    assert 2 * (d + u * o) + 1 == o + 2 * (u * o);
    assert p * (o + 2 * (u * o)) == p * o + 2 * (p * (u * o));
  }

  /** With A = 1 mod 4 and B odd, 2^k steps add an odd multiple of 2^k, up to 2^(k+2) * x. */
  lemma {:induction false} Coefficients(a: int, b: int, k: nat) returns (c: int, d: int)
    requires a % 4 == 1 && b % 2 == 1
    ensures Mul(a, k) == 1 + 4 * Pow2(k) * c && Add(a, b, k) == Pow2(k) * (2 * d + 1)
    decreases k
  {
    if k == 0 {
      c, d := a / 4, b / 2;
    } else {
      var c', d' := Coefficients(a, b, k - 1);
      var p := Pow2(k - 1);
      c, d := c' + 2 * p * c' * c', d' + p * c' * (2 * d' + 1);
      SquareShape(p, c');
      AddShape(p, c', d');
    }
  }

  lemma ShiftShape(p: int, c: int, d: int, x: int)
    ensures (1 + 4 * p * c) * x + p * (2 * d + 1) == x + p * (2 * (2 * c * x + d) + 1)
  {
    var y := c * x;
    assert (1 + 4 * p * c) * x == x + 4 * p * c * x;
    assert 4 * p * c * x == 4 * (p * y) by {
      assert 4 * p * c * x == 4 * (p * c * x);
      assert p * c * x == p * y;
    }
    assert 2 * c * x == 2 * y;
    assert p * (2 * (2 * y + d) + 1) == p * (4 * y) + p * (2 * d + 1);
    assert p * (4 * y) == 4 * (p * y);
  }

  /** 2^k steps move a value by 2^k modulo 2^(k+1). */
  lemma BlockShift(a: int, b: int, x: int, k: nat)
    requires a % 4 == 1 && b % 2 == 1
    ensures Orbit(a, b, x, Pow2(k)) % Pow2(k + 1) == (x + Pow2(k)) % Pow2(k + 1)
  {
    var c, d := Coefficients(a, b, k);
    OrbitPow2(a, b, x, k);
    ShiftShape(Pow2(k), c, d, x);
    OddMultiple(x, Pow2(k), 2 * c * x + d);
  }

  lemma OddMultiple(x: int, p: int, q: int)
    requires p > 0
    ensures (x + p * (2 * q + 1)) % (2 * p) == (x + p) % (2 * p)
  {
    assert p * (2 * q + 1) == p + 2 * p * q;
    ModAddMultiple(x + p, q, 2 * p);
  }

  /** The number of steps in r blocks of 2^k. */
  function Blocks(r: nat, k: nat): nat {
    if r == 0 then 0 else Blocks(r - 1, k) + Pow2(k)
  }

  lemma {:induction false} BlocksProduct(r: nat, k: nat)
    ensures Blocks(r, k) == r * Pow2(k)
  {
    if r > 0 {
      BlocksProduct(r - 1, k);
      assert r * Pow2(k) == (r - 1) * Pow2(k) + Pow2(k);
    }
  }

  lemma ModShift(y: int, x: int, d: int, n: int)
    requires n > 0 && y % n == x % n
    ensures (y + d) % n == (x + d) % n
  {
    assert y + d == x + d + n * (y / n - x / n);
    ModAddMultiple(x + d, y / n - x / n, n);
  }

  /** Where r blocks of 2^k steps end modulo 2^(k+1): an even number of them is no move. */
  function Swing(x: int, k: nat, r: nat): int {
    if r % 2 == 0 then x else x + Pow2(k)
  }

  lemma SwingStep(x: int, k: nat, r: nat)
    ensures (Swing(x, k, r) + Pow2(k)) % Pow2(k + 1) == Swing(x, k, r + 1) % Pow2(k + 1)
  {
    if r % 2 == 1 {
      ModAddMultiple(x, 1, Pow2(k + 1));
    }
  }

  lemma {:induction false} BlocksShift(a: int, b: int, x: int, k: nat, r: nat)
    requires a % 4 == 1 && b % 2 == 1
    ensures Orbit(a, b, x, Blocks(r, k)) % Pow2(k + 1) == Swing(x, k, r) % Pow2(k + 1)
    decreases r
  {
    if r > 0 {
      var y := Orbit(a, b, x, Blocks(r - 1, k));
      BlocksShift(a, b, x, k, r - 1);
      OrbitCompose(a, b, x, Blocks(r - 1, k), Pow2(k));
      BlockShift(a, b, y, k);
      ModShift(y, Swing(x, k, r - 1), Pow2(k), Pow2(k + 1));
      SwingStep(x, k, r - 1);
    }
  }

  // ----- no value returns early

  /** Every positive number is an odd multiple of a power of two. */
  lemma {:induction false} OddPart(i: nat) returns (j: nat, r: nat)
    requires i > 0
    ensures i == r * Pow2(j) && r % 2 == 1
    decreases i
  {
    if i % 2 == 1 {
      j, r := 0, i;
    } else {
      var j', r' := OddPart(i / 2);
      j, r := j' + 1, r';
      assert r * (2 * Pow2(j')) == 2 * (r * Pow2(j'));
    }
  }

  lemma SmallOddPart(i: nat, k: nat, j: nat, r: nat)
    requires 0 < i < Pow2(k) && i == r * Pow2(j) && r % 2 == 1
    ensures j < k
  {
    PositiveFactor(r, Pow2(j));
    if j >= k {
      Pow2Monotone(k, j);
    }
  }

  lemma PositiveFactor(r: nat, p: nat)
    requires r >= 1
    ensures p <= r * p
  {
    assert (r - 1) * p >= 0;
  }

  // Congruent modulo a multiple is congruent.
  lemma CoarserMod(x: int, y: int, m: int, f: int)
    requires m > 0 && f > 0 && m * f > 0 && x % (m * f) == y % (m * f)
    ensures x % m == y % m
  {
    var d := x / (m * f) - y / (m * f);
    assert x == y + (m * f) * d;
    assert (m * f) * d == m * (f * d);
    ModAddMultiple(y, f * d, m);
  }

  /** Fewer than 2^k steps never come back to the same value modulo 2^k. */
  lemma NoEarlyReturn(a: int, b: int, x: int, k: nat, i: nat)
    requires a % 4 == 1 && b % 2 == 1 && 0 < i < Pow2(k)
    ensures Orbit(a, b, x, i) % Pow2(k) != x % Pow2(k)
  {
    var j, r := OddPart(i);
    SmallOddPart(i, k, j, r);
    BlocksProduct(r, j);
    BlocksShift(a, b, x, j, r);
    ModDistinct(x, x + Pow2(j), Pow2(j + 1));
    Pow2Add(j + 1, k - j - 1);
    if Orbit(a, b, x, i) % Pow2(k) == x % Pow2(k) {
      CoarserMod(Orbit(a, b, x, i), x, Pow2(j + 1), Pow2(k - j - 1));
    }
  }

  lemma DistinctInWindow(k: nat, a: int, b: int, c: int, i: nat, j: nat)
    requires a % 4 == 1 && b % 2 == 1 && 0 <= c < Pow2(k)
    requires i < j < i + Pow2(k)
    ensures Lcg(Pow2(k), a, b, c, i) != Lcg(Pow2(k), a, b, c, j)
  {
    LcgIsOrbit(Pow2(k), a, b, c, i);
    LcgIsOrbit(Pow2(k), a, b, c, j);
    OrbitCompose(a, b, c, i, j - i);
    NoEarlyReturn(a, b, Orbit(a, b, c, i), k, j - i);
  }

  // ----- N different values below N are all of them

  function Range(n: nat): (s: set<int>)
    ensures |s| == n && forall v :: v in s <==> 0 <= v < n
  {
    if n == 0 then {} else Range(n - 1) + {n - 1}
  }

  ghost function Values(n: int, a: int, b: int, c: int, lo: nat, hi: nat): (s: set<int>)
    requires n > 0 && lo <= hi
    decreases hi
  {
    if lo == hi then {} else Values(n, a, b, c, lo, hi - 1) + {Lcg(n, a, b, c, hi - 1)}
  }

  lemma {:induction false} ValuesMeaning(n: int, a: int, b: int, c: int, lo: nat, hi: nat)
    requires n > 0 && lo <= hi
    ensures forall v :: v in Values(n, a, b, c, lo, hi) <==> Hits(n, a, b, c, lo, hi, v) > 0
    decreases hi
  {
    if lo < hi {
      ValuesMeaning(n, a, b, c, lo, hi - 1);
    }
  }

  lemma {:induction false} ValueAt(n: int, a: int, b: int, c: int, lo: nat, hi: nat, v: int) returns (i: nat)
    requires n > 0 && lo <= hi && v in Values(n, a, b, c, lo, hi)
    ensures lo <= i < hi && Lcg(n, a, b, c, i) == v
    decreases hi
  {
    if Lcg(n, a, b, c, hi - 1) == v {
      i := hi - 1;
    } else {
      i := ValueAt(n, a, b, c, lo, hi - 1, v);
    }
  }

  lemma NotSeenBefore(k: nat, a: int, b: int, c: int, lo: nat, hi: nat)
    requires a % 4 == 1 && b % 2 == 1 && 0 <= c < Pow2(k)
    requires lo <= hi < lo + Pow2(k)
    ensures Lcg(Pow2(k), a, b, c, hi) !in Values(Pow2(k), a, b, c, lo, hi)
  {
    if Lcg(Pow2(k), a, b, c, hi) in Values(Pow2(k), a, b, c, lo, hi) {
      var i := ValueAt(Pow2(k), a, b, c, lo, hi, Lcg(Pow2(k), a, b, c, hi));
      DistinctInWindow(k, a, b, c, i, hi);
    }
  }

  /** In a window of at most N steps no value comes twice. */
  lemma {:induction false} WindowValues(k: nat, n: int, a: int, b: int, c: int, lo: nat, hi: nat)
    requires n == Pow2(k) && a % 4 == 1 && b % 2 == 1 && 0 <= c < n
    requires lo <= hi <= lo + n
    ensures |Values(n, a, b, c, lo, hi)| == hi - lo
    ensures Values(n, a, b, c, lo, hi) <= Range(n)
    ensures forall v :: Hits(n, a, b, c, lo, hi, v) <= 1
    decreases hi
  {
    if lo < hi {
      WindowValues(k, n, a, b, c, lo, hi - 1);
      WindowNext(k, n, a, b, c, lo, hi - 1, hi);
    }
  }

  lemma WindowNext(k: nat, n: int, a: int, b: int, c: int, lo: nat, mid: nat, hi: nat)
    requires n == Pow2(k) && a % 4 == 1 && b % 2 == 1 && 0 <= c < n
    requires lo <= mid < lo + n && hi == mid + 1
    requires Values(n, a, b, c, lo, mid) <= Range(n)
    requires forall v :: Hits(n, a, b, c, lo, mid, v) <= 1
    ensures |Values(n, a, b, c, lo, hi)| == |Values(n, a, b, c, lo, mid)| + 1
    ensures Values(n, a, b, c, lo, hi) <= Range(n)
    ensures forall v :: Hits(n, a, b, c, lo, hi, v) <= 1
  {
    LastIsNew(k, n, a, b, c, lo, mid);
    WindowGrows(n, a, b, c, lo, mid, hi);
  }

  lemma LastIsNew(k: nat, n: int, a: int, b: int, c: int, lo: nat, hi: nat)
    requires n == Pow2(k) && a % 4 == 1 && b % 2 == 1 && 0 <= c < n
    requires lo <= hi < lo + n
    ensures 0 <= Lcg(n, a, b, c, hi) < n && Lcg(n, a, b, c, hi) !in Values(n, a, b, c, lo, hi)
  {
    NotSeenBefore(k, a, b, c, lo, hi);
    LcgRange(n, a, b, c, hi);
  }

  // One more value, not seen in the window before.
  lemma WindowGrows(n: int, a: int, b: int, c: int, lo: nat, mid: nat, hi: nat)
    requires n > 0 && lo <= mid && hi == mid + 1 && 0 <= Lcg(n, a, b, c, mid) < n
    requires Lcg(n, a, b, c, mid) !in Values(n, a, b, c, lo, mid)
    requires Values(n, a, b, c, lo, mid) <= Range(n)
    requires forall v :: Hits(n, a, b, c, lo, mid, v) <= 1
    ensures |Values(n, a, b, c, lo, hi)| == |Values(n, a, b, c, lo, mid)| + 1
    ensures Values(n, a, b, c, lo, hi) <= Range(n)
    ensures forall v :: Hits(n, a, b, c, lo, hi, v) <= 1
  {
    var x := Lcg(n, a, b, c, mid);
    ValuesGrow(n, a, b, c, lo, mid, hi, x);
    SetGrows(Values(n, a, b, c, lo, mid), x, n);
    forall v
      ensures Hits(n, a, b, c, lo, hi, v) <= 1
    {
      HitsGrow(n, a, b, c, lo, mid, hi, x, v);
    }
  }

  lemma ValuesGrow(n: int, a: int, b: int, c: int, lo: nat, mid: nat, hi: nat, x: int)
    requires n > 0 && lo <= mid && hi == mid + 1 && x == Lcg(n, a, b, c, mid)
    ensures Values(n, a, b, c, lo, hi) == Values(n, a, b, c, lo, mid) + {x}
  {
  }

  lemma HitsGrow(n: int, a: int, b: int, c: int, lo: nat, mid: nat, hi: nat, x: int, v: int)
    requires n > 0 && lo <= mid && hi == mid + 1 && x == Lcg(n, a, b, c, mid) && x !in Values(n, a, b, c, lo, mid)
    ensures Hits(n, a, b, c, lo, hi, v) == if v == x then 1 else Hits(n, a, b, c, lo, mid, v)
  {
    ValuesMeaning(n, a, b, c, lo, mid);
  }

  lemma SetGrows(s: set<int>, x: int, n: nat)
    requires s <= Range(n) && x !in s && 0 <= x < n
    ensures |s + {x}| == |s| + 1 && s + {x} <= Range(n)
  {
  }

  lemma FullSubset(s: set<int>, t: set<int>)
    requires s <= t && |s| == |t|
    ensures s == t
  {
    var d := t - s;
    assert t == s + d;
  }

  /** Full period: in any N consecutive values each of 0 .. N - 1 occurs exactly once. */
  lemma FullPeriod(k: nat, a: int, b: int, c: int, lo: nat, v: int)
    requires a % 4 == 1 && b % 2 == 1 && 0 <= c < Pow2(k) && 0 <= v < Pow2(k)
    ensures Hits(Pow2(k), a, b, c, lo, lo + Pow2(k), v) == 1
  {
    var n := Pow2(k);
    WindowValues(k, n, a, b, c, lo, lo + n);
    FullSubset(Values(n, a, b, c, lo, lo + n), Range(n));
    ValuesMeaning(n, a, b, c, lo, lo + n);
  }

  // ----- the conditions are needed

  // Two steps of reduction, when m divides n.
  lemma StepMod(n: int, m: int, f: int, a: int, b: int, c: int, i: nat)
    requires m > 0 && n > 0 && n == m * f
    ensures Lcg(n, a, b, c, i + 1) % m == (a * Lcg(n, a, b, c, i) + b) % m
  {
    var y := a * Lcg(n, a, b, c, i) + b;
    assert y == y % n + n * (y / n);
    assert n * (y / n) == m * (f * (y / n));
    ModAddMultiple(y % n, f * (y / n), m);
  }

  lemma EvenTimes(a: int, y: int, b: int)
    requires a % 2 == 0
    ensures (a * y + b) % 2 == b % 2
  {
    assert a * y == 2 * (a / 2 * y);
    ModAddMultiple(b, a / 2 * y, 2);
  }

  lemma OddTimes(a: int, y: int, b: int)
    requires a % 2 == 1
    ensures (a * y + b) % 2 == (y + b) % 2
  {
    assert a * y == y + 2 * (a / 2 * y) by {
      assert a == 1 + 2 * (a / 2);
    }
    ModAddMultiple(y + b, a / 2 * y, 2);
  }

  lemma ThreeTimes(a: int, y: int, b: int)
    requires a % 4 == 3
    ensures (a * y + b) % 4 == (3 * (y % 4) + b) % 4
  {
    var h := a / 4;
    assert a * y == 3 * y + 4 * (h * y) by {
      assert (3 + 4 * h) * y == 3 * y + 4 * (h * y);
    }
    ModAddMultiple(3 * (y % 4) + b, h * y + 3 * (y / 4), 4);
  }

  // An even multiplier forgets where it came from, modulo 2.
  lemma EvenMultiplier(n: int, f: int, a: int, b: int, c: int, i: nat)
    requires n > 0 && n == 2 * f && a % 2 == 0
    ensures Lcg(n, a, b, c, i + 1) % 2 == b % 2
  {
    StepMod(n, 2, f, a, b, c, i);
    EvenTimes(a, Lcg(n, a, b, c, i), b);
  }

  lemma OddMultiplier(n: int, f: int, a: int, b: int, c: int, i: nat)
    requires n > 0 && n == 2 * f && a % 2 == 1
    ensures Lcg(n, a, b, c, i + 1) % 2 == (Lcg(n, a, b, c, i) + b) % 2
  {
    StepMod(n, 2, f, a, b, c, i);
    OddTimes(a, Lcg(n, a, b, c, i), b);
  }

  lemma ThreeMultiplier(n: int, f: int, a: int, b: int, c: int, i: nat)
    requires n > 0 && n == 4 * f && a % 4 == 3
    ensures Lcg(n, a, b, c, i + 1) % 4 == (3 * (Lcg(n, a, b, c, i) % 4) + b) % 4
  {
    StepMod(n, 4, f, a, b, c, i);
    ThreeTimes(a, Lcg(n, a, b, c, i), b);
  }

  /** The first i + 1 values. */
  ghost function Prefix(n: int, a: int, b: int, c: int, i: nat): (ys: seq<int>)
    requires n > 0
    ensures |ys| == i + 1 && forall j :: 0 <= j <= i ==> ys[j] == Lcg(n, a, b, c, j)
  {
    seq(i + 1, j requires 0 <= j => Lcg(n, a, b, c, j))
  }

  lemma {:induction false} ParityKept(ys: seq<int>, b: int, i: nat)
    requires b % 2 == 0 && i < |ys|
    requires forall j :: 0 < j < |ys| ==> ys[j] % 2 == (ys[j - 1] + b) % 2
    ensures ys[i] % 2 == ys[0] % 2
  {
    if i > 0 {
      ParityKept(ys, b, i - 1);
    }
  }

  // An odd multiplier and an even increment keep the parity.
  lemma EvenIncrement(n: int, f: int, a: int, b: int, c: int, i: nat)
    requires n > 0 && n == 2 * f && a % 2 == 1 && b % 2 == 0
    ensures Lcg(n, a, b, c, i) % 2 == c % 2
  {
    var ys := Prefix(n, a, b, c, i);
    forall j | 0 < j < |ys|
      ensures ys[j] % 2 == (ys[j - 1] + b) % 2
    {
      OddMultiplier(n, f, a, b, c, j - 1);
    }
    ParityKept(ys, b, i);
  }

  lemma {:induction false} TwoKept(ys: seq<int>, b: int, i: nat)
    requires i < |ys|
    requires forall j :: 0 < j < |ys| ==> ys[j] % 4 == (3 * (ys[j - 1] % 4) + b) % 4
    ensures ys[i] % 4 == ys[0] % 4 || ys[i] % 4 == (3 * (ys[0] % 4) + b) % 4
    decreases i
  {
    if i > 1 {
      TwoKept(ys, b, i - 2);
      assert ys[i - 1] % 4 == (3 * (ys[i - 2] % 4) + b) % 4;
      Twice(ys[i - 2] % 4, b);
      Twice(ys[0] % 4, b);
    }
  }

  // Two steps with multiplier 3 lead back, modulo 4.
  lemma Twice(r: int, b: int)
    requires 0 <= r < 4
    ensures (3 * ((3 * r + b) % 4) + b) % 4 == r
  {
    var d := (3 * r + b) / 4;
    assert 3 * ((3 * r + b) % 4) + b == r + 4 * (2 * r + b - 3 * d);
    DivModUnique(3 * ((3 * r + b) % 4) + b, 4, 2 * r + b - 3 * d, r);
  }

  // A multiplier of 3 modulo 4 alternates between two residues.
  lemma TwoResidues(n: int, f: int, a: int, b: int, c: int, i: nat)
    requires n > 0 && n == 4 * f && a % 4 == 3
    ensures Lcg(n, a, b, c, i) % 4 == c % 4 || Lcg(n, a, b, c, i) % 4 == (3 * (c % 4) + b) % 4
  {
    var ys := Prefix(n, a, b, c, i);
    forall j | 0 < j < |ys|
      ensures ys[j] % 4 == (3 * (ys[j - 1] % 4) + b) % 4
    {
      ThreeMultiplier(n, f, a, b, c, j - 1);
    }
    TwoKept(ys, b, i);
  }

  ghost predicate Never(n: int, a: int, b: int, c: int, v: int)
    requires n > 0
  {
    forall i: nat :: Lcg(n, a, b, c, i) != v
  }

  lemma MissingEvenMultiplier(n: int, f: int, a: int, b: int, c: int) returns (v: int)
    requires n >= 4 && n == 2 * f && a % 2 == 0
    ensures 0 <= v < n && Never(n, a, b, c, v)
  {
    v := if c == 1 - b % 2 then 3 - b % 2 else 1 - b % 2;
    forall i: nat
      ensures Lcg(n, a, b, c, i) != v
    {
      if i > 0 {
        EvenAvoids(n, f, a, b, c, i - 1, i, v);
      }
    }
  }

  lemma EvenAvoids(n: int, f: int, a: int, b: int, c: int, i: nat, j: nat, v: int)
    requires n > 0 && n == 2 * f && a % 2 == 0 && j == i + 1 && v % 2 != b % 2
    ensures Lcg(n, a, b, c, j) != v
  {
    EvenMultiplier(n, f, a, b, c, i);
  }

  lemma MissingEvenIncrement(n: int, f: int, a: int, b: int, c: int) returns (v: int)
    requires n >= 4 && n == 2 * f && a % 2 == 1 && b % 2 == 0
    ensures 0 <= v < n && Never(n, a, b, c, v)
  {
    v := 1 - c % 2;
    forall i: nat
      ensures Lcg(n, a, b, c, i) != v
    {
      EvenIncrement(n, f, a, b, c, i);
    }
  }

  lemma MissingThird(n: int, f: int, a: int, b: int, c: int) returns (v: int)
    requires n >= 4 && n == 4 * f && a % 4 == 3
    ensures 0 <= v < n && Never(n, a, b, c, v)
  {
    var r0, r1 := c % 4, (3 * (c % 4) + b) % 4;
    v := if r0 != 0 && r1 != 0 then 0 else if r0 != 1 && r1 != 1 then 1 else 2;
    forall i: nat
      ensures Lcg(n, a, b, c, i) != v
    {
      TwoResidues(n, f, a, b, c, i);
    }
  }

  lemma TwiceDoubled(k: nat)
    requires k >= 2
    ensures Pow2(k) == 4 * Pow2(k - 2) && Pow2(k) == 2 * (2 * Pow2(k - 2)) && Pow2(k) >= 4
  {
    assert Pow2(k) == 2 * Pow2(k - 1);
  }

  lemma OddQuarter(a: int)
    ensures a % 2 == 1 && a % 4 != 1 ==> a % 4 == 3
  {
    if a % 4 == 0 {
      DivModUnique(a, 2, 2 * (a / 4), 0);
    } else if a % 4 == 2 {
      DivModUnique(a, 2, 2 * (a / 4) + 1, 0);
    }
  }

  /** Without the conditions some value below N never comes up at all. */
  lemma Missing(k: nat, a: int, b: int, c: int) returns (v: int)
    requires k >= 2 && !(a % 4 == 1 && b % 2 == 1)
    ensures 0 <= v < Pow2(k) && Never(Pow2(k), a, b, c, v)
  {
    var q := Pow2(k - 2);
    TwiceDoubled(k);
    OddQuarter(a);
    if a % 2 == 0 {
      v := MissingEvenMultiplier(Pow2(k), 2 * q, a, b, c);
    } else if b % 2 == 0 {
      v := MissingEvenIncrement(Pow2(k), 2 * q, a, b, c);
    } else {
      v := MissingThird(Pow2(k), q, a, b, c);
    }
  }

  /** Calls of slot v among the N calls from index lo on. */
  function PeriodHits(n: int, a: int, b: int, c: int, lo: nat, v: int): nat
    requires n > 0
  {
    Hits(n, a, b, c, lo, lo + n, v)
  }

  ghost predicate UsesAllOnce(n: int, a: int, b: int, c: int, lo: nat)
    requires n > 0
  {
    forall v :: 0 <= v < n ==> PeriodHits(n, a, b, c, lo, v) == 1
  }

  lemma NeverHits(n: int, a: int, b: int, c: int, lo: nat, v: int)
    requires n > 0 && 0 <= v < n && Never(n, a, b, c, v)
    ensures !UsesAllOnce(n, a, b, c, lo)
  {
    ValuesMeaning(n, a, b, c, lo, lo + n);
    if v in Values(n, a, b, c, lo, lo + n) {
      var i := ValueAt(n, a, b, c, lo, lo + n, v);
    }
    assert PeriodHits(n, a, b, c, lo, v) == 0;
  }

  /** Every N consecutive calls use every function slot exactly once iff A = 1 mod 4 and B is odd. */
  lemma FullPeriodIff(k: nat, a: int, b: int, c: int, lo: nat)
    requires k >= 2 && 0 <= c < Pow2(k)
    ensures UsesAllOnce(Pow2(k), a, b, c, lo) <==> a % 4 == 1 && b % 2 == 1
  {
    if a % 4 == 1 && b % 2 == 1 {
      forall v | 0 <= v < Pow2(k)
        ensures PeriodHits(Pow2(k), a, b, c, lo, v) == 1
      {
        FullPeriod(k, a, b, c, lo, v);
      }
    } else {
      var v := Missing(k, a, b, c);
      NeverHits(Pow2(k), a, b, c, lo, v);
    }
  }

  // ----- whole programs

  lemma {:induction false} HitsSplit(n: int, a: int, b: int, c: int, lo: nat, mid: nat, hi: nat, v: int)
    requires n > 0 && lo <= mid <= hi
    ensures Hits(n, a, b, c, lo, hi, v) == Hits(n, a, b, c, lo, mid, v) + Hits(n, a, b, c, mid, hi, v)
    decreases hi
  {
    if mid < hi {
      HitsSplit(n, a, b, c, lo, mid, hi - 1, v);
    }
  }

  /** m full periods use every value exactly m times. */
  lemma {:induction false} EvenUse(k: nat, a: int, b: int, c: int, m: nat, v: int)
    requires a % 4 == 1 && b % 2 == 1 && 0 <= c < Pow2(k) && 0 <= v < Pow2(k)
    ensures m * Pow2(k) >= 0
    ensures Hits(Pow2(k), a, b, c, 0, m * Pow2(k), v) == m
    decreases m
  {
    var n := Pow2(k);
    if m > 0 {
      EvenUse(k, a, b, c, m - 1, v);
      assert m * n == (m - 1) * n + n;
      HitsSplit(n, a, b, c, 0, (m - 1) * n, m * n, v);
      FullPeriod(k, a, b, c, (m - 1) * n, v);
    }
  }

  /** The arguments main passes: each of the 8192 functions is called exactly 128 times. */
  lemma MainUse(v: int)
    requires 0 <= v < 8192
    ensures Hits(8192, 509, 509, 509, 0, 1024 * 1024, v) == 128
  {
    assert Pow2(6) == 64 && Pow2(7) == 128;
    Pow2Add(6, 7);
    EvenUse(13, 509, 509, 509, 128, v);
  }
}
