/**
  Machine arithmetic of the obstack allocator: a flat address space of 2^64
  bytes, `size_t` wrap-around, the bitwise `&` and `~` of C on unsigned words,
  and the pointer-rounding macro built from them.
 */
module Bits {

  const WORD_BITS: nat := 64

  /** SIZE_MAX + 1: every address and every `size_t` lies below it. */
  const SPACE: nat := 0x1_0000_0000_0000_0000

  function Pow2(k: nat): (p: nat)
    ensures p > 0
  {
    if k == 0 then 1 else 2 * Pow2(k - 1)
  }

  /** C's `&` on unsigned integers, one bit at a time. */
  function And(x: nat, y: nat): nat
    decreases x
  {
    if x == 0 || y == 0 then 0
    else 2 * And(x / 2, y / 2) + (if x % 2 == 1 && y % 2 == 1 then 1 else 0)
  }

  /** C's `~` on a 64-bit unsigned word. */
  function Complement(x: nat): nat
    requires x < SPACE
  {
    SPACE - 1 - x
  }

  /** Addition and subtraction of `size_t` values: modulo 2^64. */
  function AddSize(x: nat, y: nat): (r: nat)
    requires x < SPACE && y < SPACE
    ensures r < SPACE
    ensures x + y < SPACE ==> r == x + y
    ensures x + y >= SPACE ==> r == x + y - SPACE
  {
    (x + y) % SPACE
  }

  function SubSize(x: nat, y: nat): (r: nat)
    requires x < SPACE && y < SPACE
    ensures r < SPACE
    ensures x >= y ==> r == x - y
    ensures x < y ==> r == x - y + SPACE
  {
    (x - y) % SPACE
  }

  /** The masks `alignment - 1` an obstack accepts. */
  ghost predicate IsMask(mask: nat) {
    exists k: nat :: k < WORD_BITS && mask + 1 == Pow2(k)
  }

  predicate Aligned(p: int, mask: nat) {
    p % (mask + 1) == 0
  }

  /** `__PTR_ALIGN (B, P, A)` on a flat address space: `(P + A) & ~A`. */
  function PtrAlign(p: nat, mask: nat): nat
    requires p < SPACE && mask < SPACE
  {
    And(AddSize(p, mask), Complement(mask))
  }

  lemma {:induction false} Pow2Word()
    ensures Pow2(WORD_BITS) == SPACE
  {
    assert Pow2(4) == 16;
    Pow2Sum(4, 4);
    assert Pow2(8) == 0x100;
    Pow2Sum(8, 8);
    assert Pow2(16) == 0x1_0000;
    Pow2Sum(16, 16);
    assert Pow2(32) == 0x1_0000_0000;
    Pow2Sum(32, 32);
  }

  lemma {:induction false} Pow2Sum(a: nat, b: nat)
    ensures Pow2(a + b) == Pow2(a) * Pow2(b)
  {
    if b > 0 {
      Pow2Sum(a, b - 1);
      assert Pow2(a) * Pow2(b) == 2 * (Pow2(a) * Pow2(b - 1));
    }
  }

  /** And-ing with a word whose low k bits are clear and whose other bits are set clears the low k bits. */
  lemma {:induction false} AndClearsLowBits(x: nat, k: nat, w: nat)
    requires k <= w && x < Pow2(w)
    ensures Pow2(k) <= Pow2(w)
    ensures And(x, Pow2(w) - Pow2(k)) == x - x % Pow2(k)
    decreases w
  {
    if w > 0 {
      var h := if k == 0 then 0 else k - 1;
      AndClearsLowBits(x / 2, h, w - 1);
      var y := Pow2(w) - Pow2(k);
      if k == 0 {
        assert y / 2 == Pow2(w - 1) - 1 && y % 2 == 1;
        assert x % Pow2(0) == 0;
      } else {
        assert y == 2 * (Pow2(w - 1) - Pow2(h));
        ModHalf(x, Pow2(h));
      }
    }
  }

  lemma ModHalf(x: nat, m: nat)
    requires m > 0
    ensures x % (2 * m) == 2 * ((x / 2) % m) + x % 2
  {
    var q, r := (x / 2) / m, (x / 2) % m;
    assert x == 2 * (q * m + r) + x % 2;
    assert 2 * (q * m + r) == q * (2 * m) + 2 * r by { assert 2 * (q * m) == q * (2 * m); }
    ModUnique(x, 2 * m, q, 2 * r + x % 2);
  }

  lemma ModUnique(x: int, m: nat, q: int, r: nat)
    requires m > 0 && x == q * m + r && r < m
    ensures x % m == r && x / m == q
  {
    var q', r' := x / m, x % m;
    assert x == q' * m + r' by { assert x == m * q' + r'; assert m * q' == q' * m; }
    assert (q - q') * m == r' - r;
    assert (q' - q) * m == r - r';
    if q > q' {
      MulAtLeast(q - q', m);
    } else if q < q' {
      MulAtLeast(q' - q, m);
    }
  }

  lemma MulAtLeast(a: nat, m: nat)
    requires a >= 1
    ensures a * m >= m
  {
  }

  /** Rounding `p + m - 1` down to a multiple of `m` rounds `p` up. */
  lemma RoundUp(p: nat, m: nat)
    requires m > 0
    ensures var r := p + m - 1 - (p + m - 1) % m;
            && p <= r < p + m
            && r % m == 0
            && forall a: nat | p <= a && a % m == 0 :: r <= a
  {
    var x := p + m - 1;
    var r := x - x % m;
    assert r == (x / m) * m by { assert x == m * (x / m) + x % m; }
    ModUnique(r, m, x / m, 0);
    forall a: nat | p <= a && a % m == 0 ensures r <= a {
      MultipleAtLeast(a, r, m, a / m, x / m);
    }
  }

  lemma MultipleAtLeast(a: nat, r: nat, m: nat, qa: nat, qr: nat)
    requires m > 0 && a % m == 0 && qa == a / m && r == qr * m && r < a + m
    ensures r <= a
  {
    assert a == qa * m by { assert a == m * (a / m) + a % m; }
    if qr > qa {
      assert r - a == (qr - qa) * m;
      MulAtLeast(qr - qa, m);
    } else {
      MulMonotone(qr, qa, m);
    }
  }

  /** So near the end of the address space that rounding up wraps, there is no aligned address left. */
  lemma NoneAbove(p: nat, mask: nat, a: nat)
    requires IsMask(mask) && p + mask >= SPACE && p <= a < SPACE
    ensures !Aligned(a, mask)
  {
    var k: nat :| k < WORD_BITS && mask + 1 == Pow2(k);
    Pow2Word();
    Pow2Sum(WORD_BITS - k, k);
    if Aligned(a, mask) {
      MultiplesApart(a / (mask + 1), Pow2(WORD_BITS - k), mask + 1, a);
    }
  }

  lemma MultiplesApart(qa: nat, qb: nat, m: nat, a: nat)
    requires m > 0 && a % m == 0 && qa == a / m && a < qb * m
    ensures a + m <= qb * m
  {
    assert a == qa * m by { assert a == m * qa + a % m; }
    if qa < qb {
      MulAtLeast(qb - qa, m);
      assert (qb - qa) * m == qb * m - qa * m;
    } else {
      MulMonotone(qb, qa, m);
    }
  }

  lemma MulMonotone(x: nat, y: nat, m: nat)
    requires x <= y
    ensures x * m <= y * m
  {
  }

  /** The mask formula clears the low bits of the wrapped sum. */
  lemma AlignClears(p: nat, mask: nat)
    requires p < SPACE && IsMask(mask)
    ensures mask < SPACE
    ensures PtrAlign(p, mask) == AddSize(p, mask) - AddSize(p, mask) % (mask + 1)
  {
    var k: nat :| k < WORD_BITS && mask + 1 == Pow2(k);
    Pow2Word();
    AndClearsLowBits(0, k, WORD_BITS);
    assert Complement(mask) == Pow2(WORD_BITS) - Pow2(k);
    AndClearsLowBits(AddSize(p, mask), k, WORD_BITS);
  }

  /** The mask formula is the least aligned address not below `p`; when the sum wraps it is address 0. */
  lemma AlignIsLeast(p: nat, mask: nat)
    requires p < SPACE && IsMask(mask)
    ensures mask < SPACE
    ensures p + mask < SPACE ==>
              && p <= PtrAlign(p, mask) <= p + mask
              && Aligned(PtrAlign(p, mask), mask)
              && forall a: nat | p <= a && Aligned(a, mask) :: PtrAlign(p, mask) <= a
    ensures p + mask >= SPACE ==> PtrAlign(p, mask) == 0
  {
    AlignClears(p, mask);
    if p + mask < SPACE {
      RoundUp(p, mask + 1);
    } else {
      ModUnique(AddSize(p, mask), mask + 1, 0, AddSize(p, mask));
    }
  }
}
