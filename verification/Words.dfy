/** Machine words (`unsigned long`, 64 bits wide) with C's bitwise operators.

    A word is modelled by its bits, least significant first; `Value` gives the number it
    denotes, and the lemmas below tie the masks the C code writes as numbers to their bits. */
module Words {
  type Word = w: seq<bool> | |w| == 64 witness seq(64, _ => false)

  // ---- C operators ----

  function And(a: Word, b: Word): Word {
    seq(64, i requires 0 <= i < 64 => a[i] && b[i])
  }

  function Or(a: Word, b: Word): Word {
    seq(64, i requires 0 <= i < 64 => a[i] || b[i])
  }

  function Not(a: Word): Word {
    seq(64, i requires 0 <= i < 64 => !a[i])
  }

  /** `a << k` */
  function Shl(a: Word, k: nat): Word {
    seq(64, i requires 0 <= i < 64 => k <= i && a[i - k])
  }

  /** `a >> k`, unsigned */
  function Shr(a: Word, k: nat): Word {
    seq(64, i requires 0 <= i < 64 => i + k < 64 && a[i + k])
  }

  // ---- C constants ----

  function Fill(b: bool): Word {
    seq(64, _ => b)
  }

  /** `0UL` */
  const ZERO: Word := Fill(false)
  /** `~0UL` */
  const ONES: Word := Fill(true)
  /** `1UL` */
  const ONE: Word := LowBits(1)

  /** `(1UL << n) - 1`: the constants 0xffffffff, 0xffff, 0xff, 0xf, 0x3 and 0x1 of bitops_ffsl
      for `n` = 32, 16, 8, 4, 2, 1. See `LowBitsValue`. */
  function LowBits(n: nat): Word {
    seq(64, i => i < n)
  }

  // ---- numbers ----

  function Pow2(n: nat): (r: nat)
    ensures r > 0
  {
    if n == 0 then 1 else 2 * Pow2(n - 1)
  }

  /** The number denoted by a string of bits, least significant bit first. */
  function Value(bits: seq<bool>): nat {
    if bits == [] then 0 else (if bits[0] then 1 else 0) + 2 * Value(bits[1..])
  }

  /** The low `len` bits of a number. */
  function Bits(n: nat, len: nat): (bits: seq<bool>)
    ensures |bits| == len
  {
    if len == 0 then [] else [n % 2 == 1] + Bits(n / 2, len - 1)
  }

  lemma {:induction false} BitsValue(n: nat, len: nat)
    requires n < Pow2(len)
    ensures Value(Bits(n, len)) == n
  {
    if len > 0 {
      assert Bits(n, len)[1..] == Bits(n / 2, len - 1);
      BitsValue(n / 2, len - 1);
    }
  }

  /** A number as a machine word; higher bits are lost. */
  function WordOf(n: nat): Word {
    Bits(n, 64)
  }

  /** Two strings of the same length that denote the same number are equal. */
  lemma {:induction false} ValueInjective(a: seq<bool>, b: seq<bool>)
    requires |a| == |b| && Value(a) == Value(b)
    ensures a == b
  {
    if a != [] {
      var x, y := Value(a[1..]), Value(b[1..]);
      assert Value(a) == (if a[0] then 1 else 0) + 2 * x;
      assert Value(b) == (if b[0] then 1 else 0) + 2 * y;
      assert x == y;
      ValueInjective(a[1..], b[1..]);
      assert a == [a[0]] + a[1..];
      assert b == [b[0]] + b[1..];
    }
  }

  lemma {:induction false} ClearValue(bits: seq<bool>)
    requires forall i | 0 <= i < |bits| :: !bits[i]
    ensures Value(bits) == 0
  {
    if bits != [] {
      ClearValue(bits[1..]);
    }
  }

  lemma {:induction false} PrefixValue(bits: seq<bool>, n: nat)
    requires n <= |bits|
    requires forall i | 0 <= i < |bits| :: bits[i] == (i < n)
    ensures Value(bits) == Pow2(n) - 1
  {
    if n == 0 {
      ClearValue(bits);
    } else {
      PrefixValue(bits[1..], n - 1);
    }
  }

  /** The low mask is the number the source writes: `2^n - 1`. */
  lemma LowBitsValue(n: nat)
    requires n <= 64
    ensures Value(LowBits(n)) == Pow2(n) - 1
  {
    PrefixValue(LowBits(n), n);
  }

  lemma QuotientUnique(n: nat, d: nat, q: nat, r: nat)
    requires d > 0 && n == d * q + r && r < d
    ensures n / d == q
  {
    var k := q - n / d;
    assert d * k == n % d - r;
    assert k >= 1 ==> d * k >= d;
    assert k <= -1 ==> d * k + d <= 0;
  }

  lemma DoubledRemainder(b: nat, r: nat, d: nat)
    requires d > 0 && b < 2
    ensures (b + 2 * r) % (2 * d) == b + 2 * (r % d)
  {
    var q, m := r / d, r % d;
    assert b + 2 * r == (2 * d) * q + (b + 2 * m);
    QuotientUnique(b + 2 * r, 2 * d, q, b + 2 * m);
  }

  /** Clearing the lowest `j` bits rounds the number down to a multiple of `2^j`. */
  lemma {:induction false} ClearLowValue(bits: seq<bool>, cleared: seq<bool>, j: nat)
    requires |bits| == |cleared| && j <= |bits|
    requires forall i | 0 <= i < |bits| :: cleared[i] == (bits[i] && j <= i)
    ensures Value(cleared) == Value(bits) - Value(bits) % Pow2(j)
  {
    if j == 0 {
      assert bits == cleared;
    } else {
      ClearLowValue(bits[1..], cleared[1..], j - 1);
      DoubledRemainder(if bits[0] then 1 else 0, Value(bits[1..]), Pow2(j - 1));
    }
  }

  /** `x & ~mask` for a mask of `j` low bits. */
  lemma AndNotLowBits(w: Word, j: nat)
    requires j <= 64
    ensures Value(And(w, Not(LowBits(j)))) == Value(w) - Value(w) % Pow2(j)
  {
    ClearLowValue(w, And(w, Not(LowBits(j))), j);
  }

  lemma {:induction false} Pow2Grows(i: nat, j: nat)
    requires i < j
    ensures 2 * Pow2(i) <= Pow2(j)
  {
    if i + 1 < j {
      Pow2Grows(i, j - 1);
    }
  }

  lemma Pow2Of64()
    ensures Pow2(64) == 0x1_0000_0000_0000_0000
  {
    assert Pow2(8) == 0x100;
    Pow2Adds(8, 8);
    Pow2Adds(16, 16);
    Pow2Adds(32, 32);
  }

  lemma {:induction false} Pow2Adds(i: nat, j: nat)
    ensures Pow2(i + j) == Pow2(i) * Pow2(j)
  {
    if i > 0 {
      Pow2Adds(i - 1, j);
    }
  }

  /** A mask one below a power of two is a run of low bits. */
  lemma MaskIsLowBits(mask: nat, j: nat)
    requires Pow2(j) == mask + 1 && mask < 0x1_0000_0000_0000_0000
    ensures j <= 64 && WordOf(mask) == LowBits(j)
  {
    Pow2Of64();
    if j > 64 {
      Pow2Grows(64, j);
    }
    BitsValue(mask, 64);
    LowBitsValue(j);
    ValueInjective(WordOf(mask), LowBits(j));
  }
}
