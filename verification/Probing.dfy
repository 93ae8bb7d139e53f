/**
 * Probe sequences of a hash set (`lib/set.c`, STEP and the probing loops): an odd step visits
 * every slot of a table whose size is a power of two.
 */
module Probing {
  import opened ByteCodec

  ghost predicate Pow2(n: nat)
  {
    n == 1 || (n > 1 && n % 2 == 0 && Pow2(n / 2))
  }

  /** x | p, for a power of two `p`. */
  function SetBit(x: nat, p: nat): nat
    requires p > 0
  {
    if x / p % 2 == 1 then x else x + p
  }

  /** STEP: (x >> 2) | 0x1010101. */
  function Stride(h: u32): nat {
    SetBit(SetBit(SetBit(SetBit(h / 4, 1), 0x100), 0x1_0000), 0x100_0000)
  }

  lemma StrideOdd(h: u32)
    ensures Stride(h) % 2 == 1
  {
    var x := SetBit(h / 4, 1);
    assert x % 2 == 1;
  }

  /** The slot that is looked at after `d` steps. */
  function Probe(h: u32, d: nat, n: nat): (i: nat)
    requires n > 0
    ensures i < n
  {
    (h + d * Stride(h)) % n
  }

  /** Some multiple of an odd number is any number, modulo a power of two. */
  lemma {:induction false} Multiple(s: nat, n: nat, r: int) returns (d: nat, t: int)
    requires Pow2(n) && s % 2 == 1
    ensures d < n && s * d - r == n * t
    decreases n
  {
    if n == 1 {
      d, t := 0, -r;
    } else {
      var m := n / 2;
      var d0, t0 := Multiple(s, m, r);
      if t0 % 2 == 0 {
        d, t := d0, t0 / 2;
        Doubled(m, t0);
      } else {
        d, t := d0 + m, (t0 + s) / 2;
        assert s * (d0 + m) - r == m * (t0 + s) by {
          assert s * (d0 + m) == s * d0 + s * m;
          assert m * (t0 + s) == m * t0 + m * s;
        }
        Doubled(m, t0 + s);
      }
    }
  }

  lemma Doubled(m: nat, t: int)
    requires t % 2 == 0
    ensures m * t == 2 * m * (t / 2)
  {}

  lemma Bigger(k: int, n: nat)
    ensures k >= 1 ==> k * n >= n
  {}

  lemma ModIs(x: int, n: nat, q: int, r: nat)
    requires n > 0 && r < n && x == q * n + r
    ensures x % n == r
  {
    var q2, r2 := x / n, x % n;
    assert (q2 - q) * n == r - r2;
    Bigger(q2 - q, n);
    Bigger(q - q2, n);
  }

  /** Every slot is probed, within as many steps as there are slots. */
  lemma AllProbed(h: u32, n: nat, slot: nat) returns (d: nat)
    requires Pow2(n) && slot < n
    ensures d < n && Probe(h, d, n) == slot
  {
    hide Stride;
    StrideOdd(h);
    var t;
    d, t := Multiple(Stride(h), n, slot - h);
    assert h + d * Stride(h) == t * n + slot;
    ModIs(h + d * Stride(h), n, t, slot);
  }

  /** 32-bit wrap-around of the probe counter does not matter: the size divides 2 to the 32. */
  lemma {:induction false} Divides32(n: nat, m: nat) returns (q: nat)
    requires Pow2(n) && Pow2(m) && n <= m
    ensures m == n * q
    decreases m
  {
    if n == m {
      q := 1;
    } else {
      if n > m / 2 { Between(n, m); }
      var q0 := Divides32(n, m / 2);
      q := 2 * q0;
      assert n * (2 * q0) == 2 * (n * q0);
    }
  }

  /** No power of two lies between m / 2 and m. */
  lemma {:induction false} Between(n: nat, m: nat)
    requires Pow2(n) && Pow2(m) && m / 2 < n < m
    ensures false
    decreases m
  {
    if m == 2 {
    } else if n > 1 {
      Between(n / 2, m / 2);
    }
  }

  lemma Wraps(x: nat, n: nat)
    requires Pow2(n) && n <= TWO32
    ensures n > 0 && x % TWO32 % n == x % n
  {
    Pow232();
    var q := Divides32(n, TWO32);
    WrapsBy(x, n, q, TWO32);
  }

  lemma WrapsBy(x: nat, n: nat, q: nat, m: nat)
    requires n > 0 && m > 0 && m == n * q
    ensures x % m % n == x % n
  {
    var k, r := x / m, x % m;
    var k2, r2 := r / n, r % n;
    assert x == k * m + r && r == k2 * n + r2;
    assert k * (n * q) == (k * q) * n;
    assert (k * q + k2) * n == (k * q) * n + k2 * n;
    ModIs(x, n, k * q + k2, r2);
  }

  lemma Twice(m: nat)
    requires Pow2(m)
    ensures Pow2(2 * m) && m > 0
  {}

  lemma {:induction false} Doubles(m: nat, n: nat)
    requires Pow2(m) && Pow2(n) && m < n
    ensures 2 * m <= n
  {
    if m > 1 {
      Doubles(m / 2, n / 2);
    }
  }

  lemma Times16(m: nat)
    requires Pow2(m)
    ensures Pow2(16 * m) && m > 0
  {}

  lemma Pow232()
    ensures Pow2(TWO32)
  {
    hide Pow2;
    Pow2One();
    Times16(1);
    Times16(0x10);
    Times16(0x100);
    Times16(0x1000);
    Times16(0x1_0000);
    Times16(0x10_0000);
    Times16(0x100_0000);
    Times16(0x1000_0000);
  }

  lemma Pow2One()
    ensures Pow2(1) && Pow2(0x100) && Pow2(0x8000_0000)
  {
    hide Pow2;
    One();
    Times16(1);
    Times16(0x10);
    Times16(0x100);
    Times16(0x1000);
    Times16(0x1_0000);
    Times16(0x10_0000);
    Times16(0x100_0000);
    Twice(0x1000_0000);
    Twice(0x2000_0000);
    Twice(0x4000_0000);
  }

  lemma One()
    ensures Pow2(1)
  {}
}
