/**
 * Keys as strings of bits (`lib/sym.c`, nth_bit, and the search for the first differing bit in
 * _sen_sym_get).
 */
module KeyBits {
  import opened ByteCodec

  /** A key with its terminating NUL, or of fixed size. */
  type Key = seq<byte>

  function Mask(n: nat): (m: nat)
    ensures m > 0
  {
    match n % 8
    case 0 => 0x80
    case 1 => 0x40
    case 2 => 0x20
    case 3 => 0x10
    case 4 => 8
    case 5 => 4
    case 6 => 2
    case _ => 1
  }

  predicate BitOf(b: byte, n: nat)
  {
    b / Mask(n) % 2 == 1
  }

  function Bits(k: Key): nat {
    8 * |k|
  }

  /** nth_bit. */
  predicate Bit(k: Key, n: nat)
    requires n < Bits(k)
  {
    BitOf(k[n / 8], n)
  }

  /** The first `n` bits of a byte, as a number. */
  function Top(b: byte, n: nat): nat
    requires n <= 8
  {
    if n == 8 then b else b / Mask(n) / 2
  }

  lemma TopBit(b: byte, n: nat)
    requires n < 8
    ensures Top(b, n + 1) == 2 * Top(b, n) + if BitOf(b, n) then 1 else 0
  {
    hide Mask;
    MaskStep(n);
    var x := b / Mask(n);
    if n < 7 {
      Halved(b, Mask(n + 1));
    }
    assert Top(b, n) == x / 2 && Top(b, n + 1) == x;
  }

  lemma MaskStep(n: nat)
    requires n < 8
    ensures if n == 7 then Mask(n) == 1 else Mask(n) == 2 * Mask(n + 1) && Mask(n + 1) in {1, 2, 4, 8, 16, 32, 64}
  {}

  lemma Halved(b: byte, m: nat)
    requires m in {1, 2, 4, 8, 16, 32, 64}
    ensures b / m / 2 == b / (2 * m)
  {}

  lemma {:induction false} SameTop(a: byte, b: byte, n: nat)
    requires n <= 8 && forall i :: 0 <= i < n ==> BitOf(a, i) == BitOf(b, i)
    ensures Top(a, n) == Top(b, n)
  {
    if n > 0 {
      SameTop(a, b, n - 1);
      TopBit(a, n - 1);
      TopBit(b, n - 1);
    }
  }

  lemma ByteBits(a: byte, b: byte)
    requires forall n :: 0 <= n < 8 ==> BitOf(a, n) == BitOf(b, n)
    ensures a == b
  {
    hide BitOf;
    SameTop(a, b, 8);
  }

  /** The first `n` bits are the same. */
  ghost predicate Agree(a: Key, b: Key, n: nat) {
    && n <= Bits(a) && n <= Bits(b)
    && forall i :: 0 <= i < n ==> Bit(a, i) == Bit(b, i)
  }

  /** The first bit at which two keys differ. */
  ghost predicate FirstDiff(a: Key, b: Key, c: nat) {
    c < Bits(a) && c < Bits(b) && Agree(a, b, c) && Bit(a, c) != Bit(b, c)
  }

  /** The keys of a lexicon: all of size `keySize`, or (0) strings with their NUL. */
  ghost predicate IsKey(keySize: nat, k: Key) {
    if keySize > 0 then |k| == keySize
    else |k| > 0 && k[|k| - 1] == 0 && forall i :: 0 <= i < |k| - 1 ==> k[i] != 0
  }

  /** No key is a proper prefix of another. */
  lemma PrefixFree(keySize: nat, a: Key, b: Key) returns (i: nat)
    requires IsKey(keySize, a) && IsKey(keySize, b) && a != b
    ensures i < |a| && i < |b| && a[i] != b[i] && a[..i] == b[..i]
  {
    i := 0;
    while i < |a| && i < |b| && a[i] == b[i]
      invariant i <= |a| && i <= |b| && a[..i] == b[..i]
    {
      i := i + 1;
    }
    assert a == a[..|a|] && b == b[..|b|];
    assert i > 0 ==> a[i - 1] == a[..i][i - 1] == b[..i][i - 1];
  }

  lemma AgreeBytes(a: Key, b: Key, i: nat)
    requires i <= |a| && i <= |b| && a[..i] == b[..i]
    ensures Agree(a, b, 8 * i)
  {}

  lemma AgreeSame(a: Key, n: nat)
    requires n <= Bits(a)
    ensures Agree(a, a, n)
  {}

  /** The search for the first bit at which the keys `s` and `d` differ. */
  method FindDiff(keySize: nat, s: Key, d: Key) returns (c: nat)
    requires IsKey(keySize, s) && IsKey(keySize, d) && s != d
    ensures FirstDiff(s, d, c)
  {
    hide BitOf;
    ghost var k := PrefixFree(keySize, s, d);
    var i := 0;
    c := 0;
    while s[i] == d[i]
      invariant i <= k && c == 8 * i
      decreases k - i
    {
      assert s[..k][i] == d[..k][i];
      c, i := c + 8, i + 1;
    }
    assert s[..i] == s[..k][..i] && d[..i] == d[..k][..i];
    AgreeBytes(s, d, i);
    var n := FindBit(s[i], d[i]);
    c := c + n;
    BitAt(s, i, n);
    BitAt(d, i, n);
    forall m | 8 * i <= m < c ensures Bit(s, m) == Bit(d, m) {
      BitAt(s, i, m - 8 * i);
      BitAt(d, i, m - 8 * i);
    }
  }

  /** ... within the first byte at which they differ. */
  method FindBit(s: byte, d: byte) returns (n: nat)
    requires s != d
    ensures n < 8 && BitOf(s, n) != BitOf(d, n)
    ensures forall m :: 0 <= m < n ==> BitOf(s, m) == BitOf(d, m)
  {
    hide BitOf;
    n := 0;
    while BitOf(s, n) == BitOf(d, n)
      invariant n < 8
      invariant forall m :: 0 <= m < n ==> BitOf(s, m) == BitOf(d, m)
      decreases 8 - n
    {
      if n == 7 {
        ByteBits(s, d);
      }
      n := n + 1;
    }
  }

  lemma BitAt(k: Key, i: nat, n: nat)
    requires i < |k| && n < 8
    ensures Bit(k, 8 * i + n) == BitOf(k[i], n)
  {}

  /** A byte that differs from NUL first at its last bit is 0x01. */
  lemma LastBitOnly(b: byte)
    requires FirstBits(b, 0) && BitOf(b, 7) != BitOf(0, 7)
    ensures b == 1
  {
    hide BitOf;
    SameTop(b, 0, 7);
    TopBit(b, 7);
    TopBit(0, 7);
  }

  /** All bits but the last are the same. */
  ghost predicate FirstBits(a: byte, b: byte) {
    forall n :: 0 <= n < 7 ==> BitOf(a, n) == BitOf(b, n)
  }

  /** If two strings differ first at the very last bit of one, the other has a byte 0x01 there. */
  lemma DiffAtEnd(a: Key, k: Key)
    requires IsKey(0, a) && IsKey(0, k) && FirstDiff(a, k, Bits(k) - 1)
    ensures |a| >= |k| && a[|k| - 1] == 1
  {
    hide BitOf;
    var i := |k| - 1;
    forall n | 0 <= n < 8 ensures Bit(a, 8 * i + n) == BitOf(a[i], n) && Bit(k, 8 * i + n) == BitOf(k[i], n) {
      BitAt(a, i, n);
      BitAt(k, i, n);
    }
    assert Bit(a, 8 * i + 7) != Bit(k, 8 * i + 7);
    forall n | 0 <= n < 7 ensures BitOf(a[i], n) == BitOf(0, n) {
      assert Bit(a, 8 * i + n) == Bit(k, 8 * i + n);
    }
    LastBitOnly(a[i]);
  }
}
