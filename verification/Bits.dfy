/** The mask idiom x & ~(a - 1) on 64-bit values, bit by bit, and what it computes when a is
    a power of two. Used by the physical memory manager, the address arena and the slabs. */
module Bits {

  const WIDTH := 64
  const TOP := 0x1_0000_0000_0000_0000

  function Pow2(k: nat): (r: nat)
    ensures r > 0
  {
    if k == 0 then 1 else 2 * Pow2(k - 1)
  }

  /** Bitwise and of two w-bit values. */
  function And(x: nat, y: nat, w: nat): nat
    decreases w, x, y
  {
    if w == 0 then 0 else (if x % 2 == 1 && y % 2 == 1 then 1 else 0) + 2 * And(x / 2, y / 2, w - 1)
  }

  /** Bitwise exclusive or of two w-bit values. */
  function Xor(x: nat, y: nat, w: nat): nat
    decreases w, x, y
  {
    if w == 0 then 0 else (if x % 2 != y % 2 then 1 else 0) + 2 * Xor(x / 2, y / 2, w - 1)
  }

  lemma {:induction false} AndAtMost(x: nat, y: nat, w: nat)
    ensures And(x, y, w) <= y
  {
    if w > 0 { AndAtMost(x / 2, y / 2, w - 1); }
  }

  /** Bitwise complement of a w-bit value. */
  function Not(x: nat, w: nat): int {
    Pow2(w) - 1 - x
  }

  ghost predicate IsPow2(a: nat) {
    exists k :: 0 <= k < WIDTH && a == Pow2(k)
  }

  lemma {:induction false} Pow2Below(k: nat, w: nat)
    requires k <= w
    ensures Pow2(k) <= Pow2(w)
  {
    if k > 0 { Pow2Below(k - 1, w - 1); }
  }

  lemma HalfMod(x: nat, p: nat)
    requires p > 0
    ensures x % (2 * p) == 2 * (x / 2 % p) + x % 2
  {
    var q, r := x / 2 / p, x / 2 % p;
    assert x / 2 == p * q + r;
    assert x == (2 * p) * q + (2 * r + x % 2);
    ModUnique(x, 2 * p, q, 2 * r + x % 2);
  }

  lemma MulMono(m: nat, a: int, b: int)
    requires a <= b
    ensures m * a <= m * b
  {
    assert m * b == m * a + m * (b - a);
  }

  lemma ModUnique(x: nat, m: nat, q: int, r: nat)
    requires m > 0 && x == m * q + r && r < m
    ensures x % m == r && x / m == q
  {
    var q' := x / m;
    assert x == m * q' + x % m;
    assert m * (q + 1) == m * q + m && m * (q' + 1) == m * q' + m;
    if q' > q {
      MulMono(m, q + 1, q');
    } else if q' < q {
      MulMono(m, q' + 1, q);
    }
  }

  lemma DivAtLeast(n: nat, d: nat, q: nat)
    requires d > 0 && d * q <= n
    ensures n / d >= q
  {
    assert n == d * (n / d) + n % d && d * (n / d + 1) == d * (n / d) + d;
    if n / d < q { MulMono(d, n / d + 1, q); }
  }

  /** Two different multiples of a are at least a apart. */
  lemma MultiplesApart(x: nat, y: nat, a: nat)
    requires a > 0 && x % a == 0 && y % a == 0 && x < y
    ensures x + a <= y
  {
    assert x == a * (x / a) && y == a * (y / a);
    if x / a >= y / a {
      MulMono(a, y / a, x / a);
    }
    MulMono(a, x / a + 1, y / a);
    assert a * (x / a + 1) == x + a;
  }

  lemma {:induction false} AndOnes(x: nat, w: nat)
    requires x < Pow2(w)
    ensures And(x, Pow2(w) - 1, w) == x
  {
    if w > 0 {
      AndOnes(x / 2, w - 1);
      assert (Pow2(w) - 1) / 2 == Pow2(w - 1) - 1;
    }
  }

  /** Masking off the low k bits rounds down to a multiple of 2^k. */
  lemma {:induction false} MaskRoundsDown(x: nat, k: nat, w: nat)
    requires k <= w && x < Pow2(w)
    ensures Pow2(k) <= Pow2(w) && Not(Pow2(k) - 1, w) >= 0
    ensures And(x, Not(Pow2(k) - 1, w), w) == x - x % Pow2(k)
    decreases w
  {
    Pow2Below(k, w);
    if k == 0 {
      AndOnes(x, w);
    } else {
      var p, z := Pow2(k - 1), Not(Pow2(k - 1) - 1, w - 1);
      assert Pow2(k) == 2 * p && Not(Pow2(k) - 1, w) == 2 * z;
      assert And(x, 2 * z, w) == x - x % (2 * p) by {
        MaskRoundsDown(x / 2, k - 1, w - 1);
        MaskDoubled(x, p, z, w);
      }
    }
  }

  lemma MaskDoubled(x: nat, p: nat, z: nat, w: nat)
    requires w > 0 && p > 0 && And(x / 2, z, w - 1) == x / 2 - x / 2 % p
    ensures And(x, 2 * z, w) == x - x % (2 * p)
  {
    assert And(x, 2 * z, w) == 2 * And(x / 2, z, w - 1);
    DoubleRounded(x, p);
  }

  lemma DoubleRounded(x: nat, p: nat)
    requires p > 0
    ensures 2 * (x / 2 - x / 2 % p) == x - x % (2 * p)
  {
    HalfMod(x, p);
  }

  lemma TopIs()
    ensures Pow2(64) == TOP && Pow2(63) == TOP / 2 && Pow2(52) == TOP / 4096
  {
    Pow2Eight(0);
    Pow2Eight(8);
    Pow2Eight(16);
    Pow2Eight(24);
    Pow2Eight(32);
    Pow2Eight(40);
    Pow2Eight(48);
    Pow2Eight(56);
  }

  lemma Pow2Eight(j: nat)
    ensures Pow2(j + 8) == 256 * Pow2(j)
  {
    assert Pow2(j + 2) == 4 * Pow2(j);
    assert Pow2(j + 4) == 16 * Pow2(j);
    assert Pow2(j + 6) == 64 * Pow2(j);
  }

  /** x & ~(a - 1) on 64-bit values. */
  function MaskLow(x: nat, a: nat): nat
    requires 0 < a <= TOP
  {
    And(x, TOP - 1 - (a - 1), WIDTH)
  }

  /** (x + (a - 1)) & ~(a - 1) on 64-bit values. */
  function AlignUp(x: nat, a: nat): nat
    requires 0 < a <= TOP
  {
    MaskLow(x + (a - 1), a)
  }

  lemma MaskLowIs(x: nat, a: nat)
    requires IsPow2(a) && x < TOP
    ensures 0 < a <= TOP && MaskLow(x, a) == x - x % a
  {
    var k :| 0 <= k < WIDTH && a == Pow2(k);
    var w := Width();
    MaskAt(x, k, w);
  }

  lemma Width() returns (w: nat)
    ensures w == WIDTH && Pow2(w) == TOP
  {
    w := WIDTH;
    TopIs();
  }

  lemma MaskAt(x: nat, k: nat, w: nat)
    requires k <= w && Pow2(w) == TOP && x < TOP
    ensures Pow2(k) <= TOP && And(x, TOP - 1 - (Pow2(k) - 1), w) == x - x % Pow2(k)
  {
    MaskRoundsDown(x, k, w);
  }

  /** An exponent of a power of two that leaves room for a page's 12 bits. */
  lemma BelowPages(k: nat)
    requires Pow2(k) < TOP / 4096
    ensures k < 52
  {
    TopIs();
    if k >= 52 { Pow2Below(52, k); }
  }

  /** Aligning up gives a multiple of a power of two that is less than a above x, */
  lemma AlignUpIs(x: nat, a: nat)
    requires IsPow2(a) && x + a <= TOP
    ensures 0 < a <= TOP
    ensures AlignUp(x, a) % a == 0 && x <= AlignUp(x, a) < x + a
  {
    var z := x + (a - 1);
    MaskLowIs(z, a);
    RoundDownMod(z, a);
    assert AlignUp(x, a) == z - z % a;
  }

  /** and so the least one that is not below x. */
  lemma AlignUpIsLeast(x: nat, a: nat, y: nat)
    requires IsPow2(a) && x + a <= TOP && y % a == 0 && y >= x
    ensures 0 < a <= TOP && AlignUp(x, a) <= y
  {
    AlignUpIs(x, a);
    if y < AlignUp(x, a) { MultiplesApart(y, AlignUp(x, a), a); }
  }

  lemma RoundDownMod(z: nat, a: nat)
    requires a > 0
    ensures (z - z % a) % a == 0 && z - z % a >= 0
  {
    assert z - z % a == a * (z / a);
    ModUnique(z - z % a, a, z / a, 0);
  }

  lemma {:induction false} Pow2Add(j: nat, k: nat)
    ensures Pow2(j) * Pow2(k) == Pow2(j + k)
  {
    if k > 0 {
      Pow2Add(j, k - 1);
      assert Pow2(j) * Pow2(k) == 2 * (Pow2(j) * Pow2(k - 1));
    }
  }

  lemma MultipleScales(x: nat, a: nat, p: nat)
    requires a > 0 && p > 0 && x % a == 0
    ensures (x * p) % (a * p) == 0
  {
    var q := x / a;
    assert x == a * q;
    assert x * p == (a * p) * q;
    ModUnique(x * p, a * p, q, 0);
  }

  lemma OneMultiple(y: nat, z: nat, m: nat, lo: nat)
    requires m > 0 && y % m == 0 && z % m == 0 && lo <= y < lo + m && lo <= z < lo + m
    ensures y == z
  {
    if y < z { MultiplesApart(y, z, m); }
    if z < y { MultiplesApart(z, y, m); }
  }

  lemma ScaledBounds(x: nat, y: nat, a: nat, p: nat)
    requires p > 0 && x <= y < x + a
    ensures x * p <= y * p < x * p + a * p
  {
    assert y * p == x * p + (y - x) * p;
    assert x * p + a * p == y * p + (x + a - y) * p;
  }

  /** Aligning addresses is aligning page numbers. */
  lemma AlignUpScales(x: nat, a: nat, p: nat)
    requires IsPow2(a) && p > 0 && IsPow2(a * p) && x + a <= TOP && x * p + a * p <= TOP
    ensures 0 < a * p <= TOP && 0 < a <= TOP && AlignUp(x * p, a * p) == AlignUp(x, a) * p
  {
    AlignUpIs(x, a);
    AlignUpIs(x * p, a * p);
    MultipleScales(AlignUp(x, a), a, p);
    ScaledBounds(x, AlignUp(x, a), a, p);
    OneMultiple(AlignUp(x * p, a * p), AlignUp(x, a) * p, a * p, x * p);
  }
}
