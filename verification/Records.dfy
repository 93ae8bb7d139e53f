/**
 * Update specifications and buffer records (`lib/inv.c`, encode_rec and the decoding of
 * a record by buffer_flush and sen_inv_cursor_next).
 */
module Records {
  import opened ByteCodec
  import opened PostingCodec

  // ---------------------------------------------------------------- positions and gaps

  /** The gaps between positions; an unsigned 32-bit difference, so any order of positions will do. */
  function GapsOf(last: u32, positions: seq<u32>): (gaps: seq<u32>)
    ensures |gaps| == |positions|
    decreases |positions|
  {
    if |positions| == 0 then []
    else [(positions[0] - last) % TWO32] + GapsOf(positions[0], positions[1..])
  }

  function PositionsOf(last: u32, gaps: seq<u32>): (positions: seq<u32>)
    ensures |positions| == |gaps|
    decreases |gaps|
  {
    if |gaps| == 0 then []
    else
      var pos := (last + gaps[0]) % TWO32;
      [pos] + PositionsOf(pos, gaps[1..])
  }

  lemma {:induction false} PositionsBack(last: u32, positions: seq<u32>)
    ensures PositionsOf(last, GapsOf(last, positions)) == positions
    decreases |positions|
  {
    if |positions| > 0 {
      PositionsBack(positions[0], positions[1..]);
      assert (last + (positions[0] - last) % TWO32) % TWO32 == positions[0];
      assert GapsOf(last, positions)[1..] == GapsOf(positions[0], positions[1..]);
      assert [positions[0]] + positions[1..] == positions;
    }
  }

  lemma {:induction false} GapsBack(last: u32, gaps: seq<u32>)
    ensures GapsOf(last, PositionsOf(last, gaps)) == gaps
    decreases |gaps|
  {
    if |gaps| > 0 {
      var pos := (last + gaps[0]) % TWO32;
      GapsBack(pos, gaps[1..]);
      assert (pos - last) % TWO32 == gaps[0];
      assert PositionsOf(last, gaps)[1..] == PositionsOf(pos, gaps[1..]);
      assert [gaps[0]] + gaps[1..] == gaps;
    }
  }

  // ---------------------------------------------------------------- update specifications

  /** sen_inv_updspec: the postings of one term in one section of a record. */
  datatype UpdSpec = UpdSpec(rid: u32, sid: u32, score: u32, positions: seq<u32>)

  /** tf counts the positions kept, at most SEN_INV_MAX_TF of them. */
  predicate ValidSpec(u: UpdSpec) {
    u.rid >= 1 && |u.positions| <= MAX_TF
  }

  /** The content of the record that an update (or, with `deletep`, a deletion) puts into a buffer. */
  function RecordOf(u: UpdSpec, deletep: bool): Posting {
    if deletep then Posting(DocId(u.rid, u.sid), 0, [])
    else Posting(DocId(u.rid, u.sid), u.score, GapsOf(0, u.positions))
  }

  predicate ValidRecord(e: Posting) {
    e.id.rid >= 1 && |e.gaps| <= MAX_TF
  }

  /** A record that adds a posting, rather than deleting one (or, at section 0, all of its record's). */
  predicate Adds(e: Posting) {
    e.id.sid >= 1 && |e.gaps| >= 1
  }

  // ---------------------------------------------------------------- bytes of a record

  /** The count and score of a record, in front of `rest`: the low bit tells whether there is a score. */
  function CountBytes(tf: u32, score: u32, rest: seq<byte>): seq<byte>
    requires tf <= MAX_TF
  {
    if score == 0 then EncB(tf * 2) + rest
    else EncB(tf * 2 + 1) + (EncB(score) + rest)
  }

  function RecordBytes(e: Posting, pad: seq<byte>): seq<byte>
    requires ValidRecord(e)
  {
    EncB(e.id.rid) + (EncB(e.id.sid) + CountBytes(|e.gaps|, e.score, EncGaps(e.gaps) + pad))
  }

  function Padding(n: nat): (s: seq<byte>)
    ensures |s| < 4 && (n + |s|) % 4 == 0
  {
    seq((4 - n % 4) % 4, i => 0)
  }

  /** `data` is a record as encode_rec lays it out. */
  ghost predicate Encodes(data: seq<byte>, e: Posting) {
    ValidRecord(e) && data == RecordBytes(e, Padding(|RecordBytes(e, [])|))
  }

  function ReadId(data: seq<byte>): (DocId, seq<byte>) {
    var (rid, s1) := DecB(data);
    var (sid, s2) := DecB(s1);
    (DocId(rid, sid), s2)
  }

  /** The count word's two readings: number of positions, and score. */
  function ReadCount(s: seq<byte>): (u32, u32, seq<byte>) {
    var (w, s1) := DecB(s);
    var (score, s2) := if w % 2 == 1 then DecB(s1) else (0, s1);
    (w / 2, score, s2)
  }

  lemma ReadCountBack(tf: u32, score: u32, rest: seq<byte>)
    requires tf <= MAX_TF
    ensures ReadCount(CountBytes(tf, score, rest)) == (tf, score, rest)
  {
    hide EncB, DecB;
    if score == 0 {
      DecEncB(tf * 2, rest);
    } else {
      DecEncB(tf * 2 + 1, EncB(score) + rest);
      DecEncB(score, rest);
    }
  }

  /** A record in a buffer reads back as what was encoded. */
  lemma ReadRecordBack(data: seq<byte>, e: Posting)
    requires Encodes(data, e)
    ensures
      var (id, s) := ReadId(data);
      var (tf, score, body) := ReadCount(s);
      && id == e.id && tf == |e.gaps| && score == e.score
      && body == EncGaps(e.gaps) + Padding(|RecordBytes(e, [])|)
  {
    hide EncB, DecB, Padding, CountBytes, ReadCount;
    var pad := Padding(|RecordBytes(e, [])|);
    var s := CountBytes(|e.gaps|, e.score, EncGaps(e.gaps) + pad);
    DecEncB(e.id.rid, EncB(e.id.sid) + s);
    DecEncB(e.id.sid, s);
    ReadCountBack(|e.gaps|, e.score, EncGaps(e.gaps) + pad);
  }

  // ---------------------------------------------------------------- encode_rec

  lemma EncGapsSnoc(gaps: seq<u32>, g: u32)
    ensures EncGaps(gaps + [g]) == EncGaps(gaps) + EncB(g)
  {
    hide EncB;
    if |gaps| == 0 {
      assert [g][1..] == [];
    } else {
      EncGapsSnoc(gaps[1..], g);
      assert (gaps + [g])[1..] == gaps[1..] + [g];
      assert (gaps + [g])[0] == gaps[0];
    }
  }

  lemma GapsOfAt(last: u32, positions: seq<u32>, i: nat)
    requires i < |positions|
    ensures GapsOf(last, positions)[i] == (positions[i] - if i == 0 then last else positions[i - 1]) % TWO32
    decreases i
  {
    if i > 0 {
      GapsOfAt(positions[0], positions[1..], i - 1);
    }
  }

  function HeadBytes(id: DocId, tf: u32, score: u32): seq<byte>
    requires tf <= MAX_TF
  {
    EncB(id.rid) + (EncB(id.sid) + CountBytes(tf, score, []))
  }

  lemma RecordSplit(e: Posting, pad: seq<byte>)
    requires ValidRecord(e)
    ensures RecordBytes(e, pad) == HeadBytes(e.id, |e.gaps|, e.score) + EncGaps(e.gaps) + pad
  {
    hide EncB, EncGaps;
    var a, b := EncB(e.id.rid), EncB(e.id.sid);
    var body := EncGaps(e.gaps) + pad;
    var c := CountBytes(|e.gaps|, e.score, []);
    assert CountBytes(|e.gaps|, e.score, body) == c + body;
    assert a + (b + (c + body)) == a + (b + c) + EncGaps(e.gaps) + pad;
  }

  method EncodeHead(u: UpdSpec, tf: u32, score: u32) returns (br: seq<byte>)
    requires tf <= MAX_TF
    ensures br == HeadBytes(DocId(u.rid, u.sid), tf, score)
  {
    hide EncB;
    br := EncB(u.rid) + EncB(u.sid);
    if score == 0 {
      br := br + EncB(tf * 2);
    } else {
      br := br + EncB(tf * 2 + 1) + EncB(score);
    }
  }

  /** Zero bytes up to the next multiple of four. */
  method Align(full: seq<byte>) returns (br: seq<byte>)
    ensures br == full + Padding(|full|) && |br| % 4 == 0
  {
    br := full;
    var n := 0;
    while |br| % 4 != 0
      invariant |br| == |full| + n && n <= |Padding(|full|)|
      invariant br == full + seq(n, i => 0)
      decreases 4 - n
    {
      br := br + [0];
      n := n + 1;
    }
    assert seq(n, i => 0) == Padding(|full|);
  }

  /** encode_rec: the bytes of a record, padded to a multiple of four. */
  method EncodeRec(u: UpdSpec, deletep: bool) returns (br: seq<byte>)
    requires ValidSpec(u)
    ensures Encodes(br, RecordOf(u, deletep)) && |br| % 4 == 0
  {
    hide EncB, DecB, RecordBytes, HeadBytes, Padding;
    var tf, score: u32 := 0, 0;
    if !deletep {
      tf, score := |u.positions|, u.score;
    }
    ghost var e := RecordOf(u, deletep);
    br := EncodeHead(u, tf, score);
    ghost var head := br;
    var lpos: u32, i := 0, 0;
    while i < |u.positions| && tf > 0
      invariant i <= |e.gaps| && tf == |e.gaps| - i
      invariant lpos == if i == 0 then 0 else u.positions[i - 1]
      invariant br == head + EncGaps(e.gaps[..i])
    {
      hide EncGaps;
      GapsOfAt(0, u.positions, i);
      EncGapsSnoc(e.gaps[..i], e.gaps[i]);
      assert e.gaps[..i + 1] == e.gaps[..i] + [e.gaps[i]];
      br := br + EncB((u.positions[i] - lpos) % TWO32);
      lpos, i, tf := u.positions[i], i + 1, tf - 1;
    }
    assert e.gaps[..i] == e.gaps;
    RecordSplit(e, []);
    RecordSplit(e, Padding(|br|));
    assert br + [] == br;
    br := Align(br);
  }
}
