/**
  The C data the models share: machine words, their bytes, addresses.  Arithmetic on words:
  wrap-around, masking with `size - 1`, powers of two.
 */
module Words {

  const TWO32: int := 0x1_0000_0000

  type u8 = x: int | 0 <= x < 0x100
  type u16 = x: int | 0 <= x < 0x1_0000
  type u32 = x: int | 0 <= x < TWO32
  type s32 = x: int | -0x8000_0000 <= x < 0x8000_0000

  /** What a ring carries: untyped addresses, never looked into. */
  type Obj = int

  datatype Option<+T> = None | Some(value: T)

  /** The value an unsigned 32-bit expression takes. */
  function Wrap(x: int): u32 {
    x % TWO32
  }

  /** The value a signed 32-bit expression takes when it wraps. */
  function SignedWrap(x: int): s32 {
    if Wrap(x) < 0x8000_0000 then Wrap(x) else Wrap(x) - TWO32
  }

  /** It is the one signed word that differs by a multiple of 2^32. */
  lemma SignedWrapMeaning(x: int)
    ensures (x - SignedWrap(x)) % TWO32 == 0 && (-0x8000_0000 <= x < 0x8000_0000 ==> SignedWrap(x) == x)
  {
    SameWord(SignedWrap(x), x);
  }

  function Pow2(k: nat): (p: nat)
    ensures p >= 1
  {
    if k == 0 then 1 else 2 * Pow2(k - 1)
  }

  /** Bitwise conjunction, bit by bit from the low end. */
  function And(a: nat, b: nat): (c: nat)
    ensures c <= a && c <= b
  {
    if a == 0 || b == 0 then 0 else (if a % 2 == 1 && b % 2 == 1 then 1 else 0) + 2 * And(a / 2, b / 2)
  }

  /** The `POWEROF2` macro: (x - 1) & x, in unsigned arithmetic, is zero. */
  predicate PowerOfTwoTest(x: u32) {
    And(Wrap(x - 1), x) == 0
  }

  /** A legal ring size: a power of two that fits an unsigned word. */
  ghost predicate IsRingSize(size: int) {
    exists k: nat :: k <= 31 && size == Pow2(k)
  }

  /** The slot of an unbounded counter. */
  function SlotFor(c: nat, size: nat): (k: nat)
    requires size >= 1
    ensures k < size
  {
    if c < size then c else SlotFor(c - size, size)
  }

  lemma {:induction false} SlotForIsMod(c: nat, size: nat)
    requires size >= 1
    ensures SlotFor(c, size) == c % size
    decreases c
  {
    if c >= size {
      SlotForIsMod(c - size, size);
      ModAddMultiple(c - size, 1, size);
    } else {
      DivModUnique(c, size, 0, c);
    }
  }

  /** Counters less than a ring apart have different slots. */
  lemma SlotsDiffer(a: nat, b: nat, size: nat)
    requires size >= 1 && a < b < a + size
    ensures SlotFor(a, size) != SlotFor(b, size)
  {
    SlotForIsMod(a, size);
    SlotForIsMod(b, size);
    ModDistinct(a, b, size);
  }

  // ----- quotients and remainders

  // A nonzero multiple of m is at least m away from zero.
  lemma MultipleIsFar(m: int, d: int)
    requires m > 0
    ensures d >= 1 ==> m * d >= m
    ensures d <= -1 ==> m * d <= -m
  {
    if d >= 1 {
      assert m * d >= m * 1;
    } else if d <= -1 {
      assert m * d <= m * -1;
    }
  }

  lemma DivModUnique(x: int, m: int, q: int, r: int)
    requires 0 <= r < m && x == m * q + r
    ensures x / m == q && x % m == r
  {
    assert m * (q - x / m) == x % m - r;
    MultipleIsFar(m, q - x / m);
  }

  lemma ModAddMultiple(a: int, b: int, m: int)
    requires m > 0
    ensures (a + m * b) % m == a % m
  {
    DivModUnique(a + m * b, m, a / m + b, a % m);
  }

  /** Counters less than `m` apart fall on different residues. */
  lemma ModDistinct(a: int, b: int, m: int)
    requires m > 0 && a < b < a + m
    ensures a % m != b % m
  {
    assert m * (b / m - a / m) == (b - a) - (b % m - a % m);
    MultipleIsFar(m, b / m - a / m);
  }

  /** A residue determines a counter inside a window of `m`. */
  lemma WrapInjective(a: int, b: int)
    requires a <= b < a + TWO32
    ensures Wrap(a) == Wrap(b) <==> a == b
  {
    if a < b {
      ModDistinct(a, b, TWO32);
    }
  }

  /** Two counters have the same residue iff a multiple of 2^32 lies between them. */
  lemma SameWord(a: int, b: int)
    ensures Wrap(a) == Wrap(b) <==> (b - a) % TWO32 == 0
  {
    var q, r := b / TWO32 - a / TWO32, Wrap(b) - Wrap(a);
    DivModUnique(b - a, TWO32, if r >= 0 then q else q - 1, if r >= 0 then r else r + TWO32);
  }

  lemma WrapAdd(a: int, b: int)
    ensures Wrap(Wrap(a) + b) == Wrap(a + b)
  {
    ModAddMultiple(Wrap(a) + b, a / TWO32, TWO32);
  }

  // Difference of two free-running counters, computed on their 32-bit images.
  lemma WrapSub(m: int, a: int, b: int)
    ensures Wrap(m + Wrap(a) - Wrap(b)) == Wrap(m + a - b)
  {
    ModAddMultiple(m + Wrap(a) - Wrap(b), a / TWO32 - b / TWO32, TWO32);
  }

  // ----- powers of two

  lemma {:induction false} Pow2Add(j: nat, k: nat)
    ensures Pow2(j + k) == Pow2(j) * Pow2(k)
  {
    if j > 0 {
      Pow2Add(j - 1, k);
      assert Pow2(j + k) == 2 * Pow2(j - 1 + k);
    }
  }

  lemma {:induction false} Pow2Monotone(j: nat, k: nat)
    requires j <= k
    ensures Pow2(j) <= Pow2(k)
    decreases k
  {
    if j < k {
      Pow2Monotone(j, k - 1);
    }
  }

  lemma Pow2Values()
    ensures Pow2(31) == 0x8000_0000 && Pow2(32) == TWO32
  {
    assert Pow2(8) == 256;
    Pow2Add(8, 8);
    Pow2Add(16, 15);
    assert Pow2(15) == 32768 by { assert Pow2(7) == 128; Pow2Add(8, 7); }
    Pow2Add(31, 1);
    assert Pow2(1) == 2;
  }

  lemma RingSizeBounds(size: int)
    requires IsRingSize(size)
    ensures 1 <= size <= 0x8000_0000
  {
    var k: nat :| k <= 31 && size == Pow2(k);
    Pow2Monotone(k, 31);
    Pow2Values();
  }

  /** A ring size divides 2^32, so wrapping an index does not move its slot. */
  lemma WrapThenMod(x: int, size: int)
    requires IsRingSize(size)
    ensures size >= 1 && Wrap(x) % size == x % size
  {
    var k: nat :| k <= 31 && size == Pow2(k);
    Pow2Add(k, 32 - k);
    Pow2Values();
    WrapThenModAux(x, size, Pow2(32 - k));
  }

  lemma WrapThenModAux(x: int, size: int, q: int)
    requires size >= 1 && size * q == TWO32
    ensures Wrap(x) % size == x % size
  {
    var d := x / TWO32;
    assert size * (q * d) == TWO32 * d;
    ModAddMultiple(Wrap(x), q * d, size);
  }

  // ----- masks

  lemma AndOddMask(x: nat, m: nat)
    ensures And(x, 2 * m + 1) == x % 2 + 2 * And(x / 2, m)
  {
    assert (2 * m + 1) / 2 == m;
  }

  lemma {:induction false} AndLowBits(x: nat, k: nat)
    ensures And(x, Pow2(k) - 1) == x % Pow2(k)
    decreases k
  {
    if k > 0 {
      AndLowBits(x / 2, k - 1);
      AndDouble(x, Pow2(k - 1), Pow2(k));
    } else {
      assert And(x, 0) == 0;
    }
  }

  lemma AndDouble(x: nat, p: nat, q: nat)
    requires p >= 1 && q == 2 * p && And(x / 2, p - 1) == x / 2 % p
    ensures And(x, q - 1) == x % q
  {
    AndOddMask(x, p - 1);
    ModOfDouble(x, p);
  }

  lemma ModOfDouble(x: nat, p: nat)
    requires p >= 1
    ensures x % (2 * p) == 2 * (x / 2 % p) + x % 2
  {
    var y := x / 2;
    assert 2 * p * (y / p) == 2 * (p * (y / p));
    DivModUnique(x, 2 * p, y / p, 2 * (y % p) + x % 2);
  }

  /** Masking with `size - 1` is the remainder by `size`. */
  lemma MaskIsMod(x: nat, size: int)
    requires IsRingSize(size)
    ensures size >= 1 && And(x, size - 1) == x % size
  {
    var k: nat :| k <= 31 && size == Pow2(k);
    AndLowBits(x, k);
  }

  /** The slot a masked 32-bit index names is the one the unbounded counter names. */
  lemma SlotIndex(c: nat, i: nat, size: int)
    requires IsRingSize(size)
    ensures size >= 1 && And(Wrap(Wrap(c) + i), size - 1) == (c + i) % size
  {
    WrapAdd(c, i);
    WrapThenMod(c + i, size);
    MaskIsMod(Wrap(c + i), size);
  }

  lemma {:induction false} AndSelf(x: nat)
    ensures And(x, x) == x
  {
    if x > 0 {
      AndSelf(x / 2);
    }
  }

  ghost predicate IsPow2(x: int) {
    exists k: nat :: x == Pow2(k)
  }

  // An even number is a power of two exactly when its half is; an odd one only if it is 1.
  lemma IsPow2Step(x: nat)
    requires x >= 2
    ensures IsPow2(x) <==> x % 2 == 0 && IsPow2(x / 2)
  {
    if IsPow2(x) {
      var k: nat :| x == Pow2(k);
      assert k > 0 && x / 2 == Pow2(k - 1);
    }
    if x % 2 == 0 && IsPow2(x / 2) {
      var k: nat :| x / 2 == Pow2(k);
      assert x == Pow2(k + 1);
    }
  }

  lemma {:induction false} AndPredecessor(x: nat)
    requires x >= 1
    ensures And(x - 1, x) == 0 <==> IsPow2(x)
    decreases x
  {
    if x == 1 {
      assert Pow2(0) == 1;
    } else {
      IsPow2Step(x);
      if x % 2 == 1 {
        assert (x - 1) / 2 == x / 2;
        AndSelf(x / 2);
      } else {
        assert (x - 1) / 2 == x / 2 - 1;
        AndPredecessor(x / 2);
      }
    }
  }

  lemma SmallPow2(x: u32, k: nat)
    requires x == Pow2(k)
    ensures k <= 31
  {
    Pow2Values();
    if k >= 32 {
      Pow2Monotone(32, k);
    }
  }

  /** `POWEROF2` accepts exactly the ring sizes, and zero. */
  lemma PowerOfTwoTestMeaning(x: u32)
    ensures PowerOfTwoTest(x) <==> x == 0 || IsRingSize(x)
  {
    if x > 0 {
      AndPredecessor(x);
      WordPow2(x);
    }
  }

  // Powers of two among the words.
  lemma WordPow2(x: u32)
    ensures IsPow2(x) <==> IsRingSize(x)
  {
    if IsPow2(x) {
      var k: nat :| x == Pow2(k);
      SmallPow2(x, k);
    }
  }

  // ----- little-endian words

  function Bytes32(w: u32): (bs: seq<u8>)
    ensures |bs| == 4
  {
    [w % 256, w / 0x100 % 256, w / 0x1_0000 % 256, w / 0x100_0000]
  }

  function Word32(b0: u8, b1: u8, b2: u8, b3: u8): u32 {
    b0 + 0x100 * b1 + 0x1_0000 * b2 + 0x100_0000 * b3
  }

  lemma WordRoundTrip(w: u32)
    ensures Word32(Bytes32(w)[0], Bytes32(w)[1], Bytes32(w)[2], Bytes32(w)[3]) == w
  {
    assert w / 0x1_0000 == w / 0x100 / 0x100;
    assert w / 0x100_0000 == w / 0x1_0000 / 0x100;
  }

  lemma BytesRoundTrip(b0: u8, b1: u8, b2: u8, b3: u8)
    ensures Bytes32(Word32(b0, b1, b2, b3)) == [b0, b1, b2, b3]
  {
    var w := Word32(b0, b1, b2, b3);
    DivModUnique(w, 0x100, b1 + 0x100 * b2 + 0x1_0000 * b3, b0);
    DivModUnique(b1 + 0x100 * b2 + 0x1_0000 * b3, 0x100, b2 + 0x100 * b3, b1);
    DivModUnique(w, 0x1_0000, b2 + 0x100 * b3, b0 + 0x100 * b1);
    DivModUnique(b2 + 0x100 * b3, 0x100, b3, b2);
    DivModUnique(w, 0x100_0000, b3, b0 + 0x100 * b1 + 0x1_0000 * b2);
  }
}
