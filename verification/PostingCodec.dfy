/**
 * The posting stream kept in a chunk (`lib/inv.c`, SEN_C_ENC, SEN_C_DEC and the
 * one-record-lookahead writer inside buffer_flush).
 *
 * A chunk image of a term is the length of its header stream, the header stream (gaps,
 * counts and scores, with in-band flag bytes) and the stream of position gaps.
 */
module PostingCodec {
  import opened ByteCodec

  // ---------------------------------------------------------------- data

  datatype DocId = DocId(rid: u32, sid: u32)

  /** One posting: a section of a record, its score, and the gaps between its positions. */
  datatype Posting = Posting(id: DocId, score: u32, gaps: seq<u32>)

  predicate Lt(a: DocId, b: DocId) {
    a.rid < b.rid || (a.rid == b.rid && a.sid < b.sid)
  }

  const MAX_TF := 0x1ffff

  /** What an index stores: rid and sid start at 1, and there is at least one position. */
  predicate Stored(p: Posting) {
    p.id.rid >= 1 && p.id.sid >= 1 && 1 <= |p.gaps| <= MAX_TF
  }

  /** Stored postings, strictly increasing, all behind `prev`. */
  ghost predicate Sorted(prev: DocId, ps: seq<Posting>) {
    && (forall i :: 0 <= i < |ps| ==> Stored(ps[i]) && Lt(prev, ps[i].id))
    && (forall i, j :: 0 <= i < j < |ps| ==> Lt(ps[i].id, ps[j].id))
  }

  const NONE := DocId(0, 0)

  // ---------------------------------------------------------------- one header

  function EncC(d: u32, t: u32): (s: seq<byte>)
    requires t >= 1
    ensures |s| >= 1
  {
    if d < 0x46 && t <= 2 then
      [d * 2 + (t - 1)]
    else if d < 0x46 && t <= 6 then
      [0xc0 + d / 64, d * 4 % 0x100 + (t - 3)]
    else if d < 0x1000 && t <= 4 then
      [0xc0 + d / 64, d * 4 % 0x100 + (t - 1)]
    else if d < 0x4000 && t <= 0x40 then
      [0x90 + d / 1024, d / 4 % 0x100, d * 64 % 0x100 + (t - 1)]
    else if d < 0x80000 && t <= 4 then
      [0xa0 + d / 0x4000, d / 64 % 0x100, d * 4 % 0x100 + (t - 1)]
    else
      [0x8f] + EncB(d) + EncB(t)
  }

  /** The record gap, the count, and the bytes left. */
  function DecC(s: seq<byte>): (r: (u32, u32, seq<byte>))
    ensures |r.2| <= |s|
    ensures |s| > 0 ==> |r.2| < |s|
  {
    var v := At(s, 0);
    if v == 0x8f then
      var (d, s1) := DecB(From(s, 1));
      var (t, s2) := DecB(s1);
      (d, t, s2)
    else if v / 16 <= 8 then
      (v / 2, v % 2 + 1, From(s, 1))
    else if v / 16 == 9 then
      var w := At(s, 2);
      ((v - 0x90) * 1024 + At(s, 1) * 4 + w / 64, w % 64 + 1, From(s, 3))
    else if v / 16 == 10 || v / 16 == 11 then
      var w := At(s, 2);
      ((v - 0xa0) * 0x4000 + At(s, 1) * 64 + w / 4, w % 4 + 1, From(s, 3))
    else
      var w := At(s, 1);
      var d := (v - 0xc0) * 64 + w / 4;
      (d, if d < 0x46 then w % 4 + 3 else w % 4 + 1, From(s, 2))
  }

  lemma Low4(d: nat)
    ensures d * 4 % 0x100 == d % 64 * 4
  {
    var q, r := d / 64, d % 64;
    assert d * 4 == 0x100 * q + r * 4;
  }

  lemma Low64(d: nat)
    ensures d * 64 % 0x100 == d % 4 * 64
  {
    var q, r := d / 4, d % 4;
    assert d * 64 == 0x100 * q + r * 64;
  }

  lemma High4(d: nat)
    ensures d / 1024 == d / 4 / 256
  {}

  lemma High64(d: nat)
    ensures d / 0x4000 == d / 64 / 256
  {}

  lemma DecEncC1(d: u32, t: u32, rest: seq<byte>)
    requires t >= 1 && d < 0x46 && t <= 2
    ensures DecC(EncC(d, t) + rest) == (d, t, rest)
  {
    hide EncB, DecB;
    ReadCode(EncC(d, t), rest);
  }

  lemma DecEncC2(d: u32, t: u32, rest: seq<byte>)
    requires t >= 1 && !(d < 0x46 && t <= 2)
    requires (d < 0x46 && t <= 6) || (d < 0x1000 && t <= 4)
    ensures DecC(EncC(d, t) + rest) == (d, t, rest)
  {
    hide EncB, DecB;
    ReadCode(EncC(d, t), rest);
    Low4(d);
  }

  lemma DecEncC3(d: u32, t: u32, rest: seq<byte>)
    requires t >= 1 && !(d < 0x46 && t <= 6) && !(d < 0x1000 && t <= 4)
    requires (d < 0x4000 && t <= 0x40) || (d < 0x80000 && t <= 4)
    ensures DecC(EncC(d, t) + rest) == (d, t, rest)
  {
    hide EncB, DecB;
    ReadCode(EncC(d, t), rest);
    if d < 0x4000 && t <= 0x40 {
      Low64(d);
      High4(d);
    } else {
      Low4(d);
      High64(d);
    }
  }

  /** The header code inverts, and never starts with one of the three flag bytes. */
  lemma DecEncC(d: u32, t: u32, rest: seq<byte>)
    requires t >= 1
    ensures DecC(EncC(d, t) + rest) == (d, t, rest)
    ensures EncC(d, t)[0] !in {0x8c, 0x8d, 0x8e}
  {
    hide EncB, DecB, DecC;
    if d < 0x46 && t <= 2 {
      DecEncC1(d, t, rest);
    } else if (d < 0x46 && t <= 6) || (d < 0x1000 && t <= 4) {
      DecEncC2(d, t, rest);
    } else if (d < 0x4000 && t <= 0x40) || (d < 0x80000 && t <= 4) {
      DecEncC3(d, t, rest);
    } else {
      DecEncC4(d, t, rest);
    }
  }

  lemma DecEncC4(d: u32, t: u32, rest: seq<byte>)
    requires t >= 1
    requires EncC(d, t) == [0x8f] + EncB(d) + EncB(t)
    ensures DecC(EncC(d, t) + rest) == (d, t, rest)
  {
    hide EncB, DecB, EncC;
    var s := EncC(d, t) + rest;
    assert From(s, 1) == EncB(d) + (EncB(t) + rest);
    DecEncB(d, EncB(t) + rest);
    DecEncB(t, rest);
  }

  // ---------------------------------------------------------------- the header stream

  /** The flag word of a stream: bits 1, 2 and 4. */
  datatype Flags = Flags(once: bool, scored: bool, gapped: bool)

  const CLEAR := Flags(false, false, false)

  function RidGap(prev: DocId, id: DocId): u32 {
    (id.rid - prev.rid) % TWO32
  }

  function SidGap(prev: DocId, id: DocId): u32 {
    if RidGap(prev, id) != 0 then id.sid else (id.sid - prev.sid) % TWO32
  }

  /** The flags under which a record is written, given its own score and gap and those of the record after it. */
  function NextFlags(f: Flags, score: u32, sgap: u32, nextScore: u32, nextSgap: u32): Flags {
    Flags(
      score != 0 && !f.scored && nextScore == 0,
      if score != 0 then f.scored || nextScore != 0 else f.scored && nextScore != 0,
      if sgap != 1 then true else f.gapped && nextSgap != 1)
  }

  /** `rest` with a code in front of it, or not. */
  function Opt(b: bool, code: seq<byte>, rest: seq<byte>): seq<byte> {
    if b then code + rest else rest
  }

  /** The in-band bytes that take a reader from flags `f` to flags `g`, in front of `rest`. */
  function Marks(f: Flags, g: Flags, rest: seq<byte>): seq<byte> {
    Opt(g.once, [0x8c], Opt(f.scored != g.scored, [0x8d], Opt(f.gapped != g.gapped, [0x8e], rest)))
  }

  /** The fields of a record, in front of `rest`. */
  function Fields(g: Flags, dgap: u32, sgap: u32, tf: u32, score: u32, rest: seq<byte>): (s: seq<byte>)
    requires tf >= 1 && sgap >= 1
    ensures |s| >= 1
  {
    EncC(dgap, tf) + Opt(g.gapped, EncB(sgap - 1), Opt(g.once || g.scored, EncB(score), rest))
  }

  /** The header stream of `ps`, written behind a record `prev` under flags `f`. */
  function Headers(f: Flags, prev: DocId, ps: seq<Posting>): (s: seq<byte>)
    requires Sorted(prev, ps)
    ensures |ps| > 0 ==> |s| > 0
    decreases |ps|
  {
    if |ps| == 0 then []
    else
      var g := FlagsFor(f, prev, ps);
      var p := ps[0];
      Marks(f, g, Fields(g, RidGap(prev, p.id), SidGap(prev, p.id), |p.gaps|, p.score, Headers(g, p.id, ps[1..])))
  }

  function FlagsFor(f: Flags, prev: DocId, ps: seq<Posting>): Flags
    requires |ps| > 0
  {
    // at the end of a stream the writer behaves as if an unlike record followed
    var p := ps[0];
    if |ps| == 1 then NextFlags(f, p.score, SidGap(prev, p.id), 1, 2)
    else NextFlags(f, p.score, SidGap(prev, p.id), ps[1].score, SidGap(p.id, ps[1].id))
  }

  /** One step of a reader: flags, identity, count and score of the next record, and the bytes left. */
  datatype Header = Header(flags: Flags, id: DocId, tf: u32, score: u32, rest: seq<byte>)

  function ReadMarks(f: Flags, s: seq<byte>): (r: (Flags, seq<byte>))
    ensures |r.1| <= |s|
  {
    var once := At(s, 0) == 0x8c;
    var s1 := if once then From(s, 1) else s;
    var flip2 := At(s1, 0) == 0x8d;
    var s2 := if flip2 then From(s1, 1) else s1;
    var flip4 := At(s2, 0) == 0x8e;
    var s3 := if flip4 then From(s2, 1) else s2;
    (Flags(once, f.scored != flip2, f.gapped != flip4), s3)
  }

  function ReadFields(g: Flags, prev: DocId, s: seq<byte>): (h: Header)
    ensures |h.rest| <= |s|
    ensures |s| > 0 ==> |h.rest| < |s|
  {
    var (dgap, tf, s1) := DecC(s);
    var base := if dgap != 0 then 0 else prev.sid;
    var (sgap, s2) := if g.gapped then DecB(s1) else (0, s1);
    var (score, s3) := if g.once || g.scored then DecB(s2) else (0, s2);
    Header(g, DocId((prev.rid + dgap) % TWO32, (base + sgap + 1) % TWO32), tf, score, s3)
  }

  function ReadHeader(f: Flags, prev: DocId, s: seq<byte>): (h: Header)
    ensures |s| > 0 ==> |h.rest| < |s|
  {
    var (g, s0) := ReadMarks(f, s);
    ReadFields(g, prev, s0)
  }

  lemma ReadMarksBack(f: Flags, g: Flags, rest: seq<byte>)
    requires |rest| > 0 && rest[0] !in {0x8c, 0x8d, 0x8e}
    ensures ReadMarks(f, Marks(f, g, rest)) == (g, rest)
  {
    var s2 := Opt(f.gapped != g.gapped, [0x8e], rest);
    var s1 := Opt(f.scored != g.scored, [0x8d], s2);
    assert f.gapped != g.gapped ==> From(s2, 1) == rest;
    assert f.scored != g.scored ==> From(s1, 1) == s2;
    assert g.once ==> From(Marks(f, g, rest), 1) == s1;
  }

  lemma IdBack(prev: DocId, id: DocId)
    requires Lt(prev, id)
    ensures
      var dgap, sgap := RidGap(prev, id), SidGap(prev, id);
      && (prev.rid + dgap) % TWO32 == id.rid
      && ((if dgap != 0 then 0 else prev.sid) + sgap) % TWO32 == id.sid
      && (id.sid >= 1 ==> sgap >= 1)
  {}

  /** Reading the fields of a record under the flags it was written with. */
  lemma ReadFieldsBack(g: Flags, prev: DocId, p: Posting, rest: seq<byte>)
    requires Stored(p) && Lt(prev, p.id) && SidGap(prev, p.id) >= 1
    requires !g.gapped ==> SidGap(prev, p.id) == 1
    requires !(g.once || g.scored) ==> p.score == 0
    ensures
      var s := Fields(g, RidGap(prev, p.id), SidGap(prev, p.id), |p.gaps|, p.score, rest);
      && s[0] !in {0x8c, 0x8d, 0x8e}
      && ReadFields(g, prev, s) == Header(g, p.id, |p.gaps|, p.score, rest)
  {
    hide EncB, DecB, EncC, DecC, RidGap, SidGap;
    var dgap, sgap, tf := RidGap(prev, p.id), SidGap(prev, p.id), |p.gaps|;
    IdBack(prev, p.id);
    var s2 := Opt(g.once || g.scored, EncB(p.score), rest);
    var s1 := Opt(g.gapped, EncB(sgap - 1), s2);
    DecEncC(dgap, tf, s1);
    DecEncB(sgap - 1, s2);
    DecEncB(p.score, rest);
  }

  /** The reader recovers the first record of a header stream, in the state to read the next. */
  lemma ReadHeadersBack(f: Flags, prev: DocId, ps: seq<Posting>)
    requires Sorted(prev, ps) && |ps| > 0
    ensures
      var g := FlagsFor(f, prev, ps);
      ReadHeader(f, prev, Headers(f, prev, ps)) ==
        Header(g, ps[0].id, |ps[0].gaps|, ps[0].score, Headers(g, ps[0].id, ps[1..]))
  {
    hide Fields, ReadFields, RidGap, SidGap, Marks, ReadMarks;
    var p, g := ps[0], FlagsFor(f, prev, ps);
    var rest := Headers(g, p.id, ps[1..]);
    IdBack(prev, p.id);
    ReadFieldsBack(g, prev, p, rest);
    ReadMarksBack(f, g, Fields(g, RidGap(prev, p.id), SidGap(prev, p.id), |p.gaps|, p.score, rest));
  }

  // ---------------------------------------------------------------- the position stream

  function EncGaps(gaps: seq<u32>): (s: seq<byte>) {
    if |gaps| == 0 then [] else EncB(gaps[0]) + EncGaps(gaps[1..])
  }

  function Bodies(ps: seq<Posting>): seq<byte> {
    if |ps| == 0 then [] else EncGaps(ps[0].gaps) + Bodies(ps[1..])
  }

  function ReadGaps(n: nat, s: seq<byte>): (r: (seq<u32>, seq<byte>))
    ensures |r.0| == n
  {
    if n == 0 then ([], s)
    else
      var (v, s1) := DecB(s);
      var (vs, s2) := ReadGaps(n - 1, s1);
      ([v] + vs, s2)
  }

  lemma {:induction false} ReadGapsBack(gaps: seq<u32>, rest: seq<byte>)
    ensures ReadGaps(|gaps|, EncGaps(gaps) + rest) == (gaps, rest)
  {
    hide EncB, DecB;
    if |gaps| == 0 {
      assert [] + rest == rest;
    } else {
      var t := EncGaps(gaps[1..]) + rest;
      assert EncGaps(gaps) + rest == EncB(gaps[0]) + t;
      DecEncB(gaps[0], t);
      ReadGapsBack(gaps[1..], rest);
      assert [gaps[0]] + gaps[1..] == gaps;
    }
  }

  /** Everything a header stream and a position stream hold. */
  function ReadPostings(f: Flags, prev: DocId, hs: seq<byte>, bs: seq<byte>): seq<Posting>
    decreases |hs|
  {
    if |hs| == 0 then []
    else
      var h := ReadHeader(f, prev, hs);
      var (gaps, rest) := ReadGaps(h.tf, bs);
      [Posting(h.id, h.score, gaps)] + ReadPostings(h.flags, h.id, h.rest, rest)
  }

  /** The posting stream round-trips, from any reader state that agrees with the writer's. */
  lemma {:induction false} ReadPostingsBack(f: Flags, prev: DocId, ps: seq<Posting>)
    requires Sorted(prev, ps)
    ensures ReadPostings(f, prev, Headers(f, prev, ps), Bodies(ps)) == ps
    decreases |ps|
  {
    if |ps| > 0 {
      var p, g := ps[0], FlagsFor(f, prev, ps);
      ReadHeadersBack(f, prev, ps);
      ReadGapsBack(p.gaps, Bodies(ps[1..]));
      ReadPostingsBack(g, p.id, ps[1..]);
      assert [p] + ps[1..] == ps;
    }
  }
}
