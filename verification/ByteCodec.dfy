/**
 * The variable-length integer code of `lib/io.h` (SEN_B_ENC, SEN_B_DEC, SEN_B_SKIP, SEN_B_COPY).
 *
 * A read pointer is modelled by the bytes that remain in front of it; a write pointer
 * by the bytes already written behind it.
 */
module ByteCodec {

  type byte = x: int | 0 <= x < 0x100
  type u32 = x: int | 0 <= x < 0x1_0000_0000

  const TWO32: int := 0x1_0000_0000

  /** The byte at offset `i`; memory past the end of a stream is never part of a well-formed code. */
  function At(s: seq<byte>, i: nat): byte {
    if i < |s| then s[i] else 0
  }

  function From(s: seq<byte>, i: nat): (r: seq<byte>)
    ensures |s| > 0 && i > 0 ==> |r| < |s|
    ensures |r| <= |s|
  {
    if i <= |s| then s[i..] else []
  }

  function EncB(v: u32): (s: seq<byte>)
    ensures 1 <= |s| <= 5
  {
    if v < 0x8f then
      [v]
    else if v < 0x408f then
      var w := v - 0x8f;
      [0xc0 + w / 0x100, w % 0x100]
    else if v < 0x20408f then
      var w := v - 0x408f;
      [0xa0 + w / 0x1_0000, w / 0x100 % 0x100, w % 0x100]
    else if v < 0x1020408f then
      var w := v - 0x20408f;
      [0x90 + w / 0x100_0000, w / 0x1_0000 % 0x100, w / 0x100 % 0x100, w % 0x100]
    else
      [0x8f, v % 0x100, v / 0x100 % 0x100, v / 0x1_0000 % 0x100, v / 0x100_0000]
  }

  /** How many bytes follow the first byte `b` of a code. */
  function Extra(b: byte): nat {
    if b / 16 == 8 then (if b == 0x8f then 4 else 0)
    else if b / 16 == 9 then 3
    else if b / 16 == 10 || b / 16 == 11 then 2
    else if b / 16 >= 12 then 1
    else 0
  }

  function DecB(s: seq<byte>): (r: (u32, seq<byte>))
    ensures |r.1| <= |s|
  {
    var v := At(s, 0);
    if v / 16 == 8 then
      if v == 0x8f then
        (At(s, 1) + 0x100 * At(s, 2) + 0x1_0000 * At(s, 3) + 0x100_0000 * At(s, 4), From(s, 5))
      else
        (v, From(s, 1))
    else if v / 16 == 9 then
      (((((v - 0x90) * 0x100 + At(s, 1)) * 0x100) + At(s, 2)) * 0x100 + At(s, 3) + 0x20408f, From(s, 4))
    else if v / 16 == 10 || v / 16 == 11 then
      (((v - 0xa0) * 0x100 + At(s, 1)) * 0x100 + At(s, 2) + 0x408f, From(s, 3))
    else if v / 16 >= 12 then
      ((v - 0xc0) * 0x100 + At(s, 1) + 0x8f, From(s, 2))
    else
      (v, From(s, 1))
  }

  function SkipB(s: seq<byte>): seq<byte> {
    From(s, 1 + Extra(At(s, 0)))
  }

  /** The bytes copied and the bytes left. */
  function CopyB(s: seq<byte>): (seq<byte>, seq<byte>) {
    var n := 1 + Extra(At(s, 0));
    (if n <= |s| then s[..n] else s, From(s, n))
  }

  lemma Assoc(a: seq<byte>, b: seq<byte>, c: seq<byte>)
    ensures (a + b) + c == a + (b + c)
  {}

  lemma Digits(w: nat)
    ensures w == w / 0x100 * 0x100 + w % 0x100
    ensures w / 0x1_0000 == w / 0x100 / 0x100
    ensures w / 0x100_0000 == w / 0x1_0000 / 0x100
  {}

  /** A code is as long as its first byte says. */
  lemma CodeLength(v: u32)
    ensures |EncB(v)| == 1 + Extra(EncB(v)[0])
  {}

  lemma ReadCode(code: seq<byte>, rest: seq<byte>)
    requires |code| > 0
    ensures forall i :: 0 <= i < |code| ==> At(code + rest, i) == code[i]
    ensures From(code + rest, |code|) == rest
    ensures (code + rest)[..|code|] == code
  {}

  /** Decoding, skipping and copying all stop exactly behind the code that was written. */
  lemma DecEncB(v: u32, rest: seq<byte>)
    ensures DecB(EncB(v) + rest) == (v, rest)
    ensures SkipB(EncB(v) + rest) == rest
    ensures CopyB(EncB(v) + rest) == (EncB(v), rest)
  {
    CodeLength(v);
    ReadCode(EncB(v), rest);
    Digits(v);
    if v < 0x8f {
    } else if v < 0x408f {
      Digits(v - 0x8f);
    } else if v < 0x20408f {
      Digits(v - 0x408f);
    } else if v < 0x1020408f {
      Digits(v - 0x20408f);
    }
  }
}
