/**
 * How large the image of a term gets (`lib/inv.c`, buffer_flush): merging a record into it adds no
 * more bytes than the record takes in the buffer.
 */
module ImageBounds {
  import opened ByteCodec
  import opened PostingCodec
  import opened Records
  import opened BufferList
  import opened Merging
  import opened HeaderCosts

  /** The bytes that a record takes in a buffer. */
  function RecordSize(e: Posting): nat {
    if ValidRecord(e) then REC_SIZE + |RecordBytes(e, Padding(|RecordBytes(e, [])|))| else 0
  }

  lemma EncodesSize(bs: seq<byte>, e: Posting)
    requires Encodes(bs, e)
    ensures ValidRecord(e) && RecordSize(e) == REC_SIZE + |bs|
  {}

  function RecordSizes(b: seq<Posting>): nat {
    if |b| == 0 then 0 else RecordSize(b[0]) + RecordSizes(b[1..])
  }

  // ---------------------------------------------------------------- the parts of a header stream

  function SidGaps(prev: DocId, ps: seq<Posting>): (r: seq<u32>)
    ensures |r| == |ps|
    decreases |ps|
  {
    if |ps| == 0 then [] else [SidGap(prev, ps[0].id)] + SidGaps(ps[0].id, ps[1..])
  }

  function Scores(ps: seq<Posting>): (r: seq<u32>)
    ensures |r| == |ps|
  {
    seq(|ps|, i requires 0 <= i < |ps| => ps[i].score)
  }

  /** The bytes for document gaps and counts. */
  function CountCost(prev: DocId, ps: seq<Posting>): nat
    requires Sorted(prev, ps)
    decreases |ps|
  {
    if |ps| == 0 then 0
    else |EncC(RidGap(prev, ps[0].id), |ps[0].gaps|)| + CountCost(ps[0].id, ps[1..])
  }

  lemma GapsPositive(prev: DocId, ps: seq<Posting>)
    requires Sorted(prev, ps)
    ensures Positive(SidGaps(prev, ps))
    decreases |ps|
  {
    if |ps| > 0 {
      TailSorted(prev, ps);
      GapsPositive(ps[0].id, ps[1..]);
    }
  }

  /** The header stream is made of the three. */
  lemma {:induction false} HeaderParts(f: Flags, prev: DocId, ps: seq<Posting>)
    requires Sorted(prev, ps)
    ensures Positive(SidGaps(prev, ps))
    ensures |Headers(f, prev, ps)| ==
            CountCost(prev, ps) + GapCost(f.gapped, SidGaps(prev, ps)) + ScoreCost(f.scored, Scores(ps))
    decreases |ps|
  {
    hide EncB, EncC, RidGap, SidGap, Sorted, FlagsFor, Headers;
    GapsPositive(prev, ps);
    if |ps| > 0 {
      TailSorted(prev, ps);
      var g, rest := FlagsFor(f, prev, ps), ps[1..];
      HeaderParts(g, ps[0].id, rest);
      assert Scores(ps)[1..] == Scores(rest);
      HeaderLength(f, prev, ps);
      HeaderStep(f, prev, ps);
    } else {
      NoHeader(f, prev);
    }
  }

  lemma NoHeader(f: Flags, prev: DocId)
    ensures Headers(f, prev, []) == []
  {}

  lemma HeaderLength(f: Flags, prev: DocId, ps: seq<Posting>)
    requires Sorted(prev, ps) && |ps| > 0
    ensures Sorted(ps[0].id, ps[1..])
    ensures
      var p, g := ps[0], FlagsFor(f, prev, ps);
      |Headers(f, prev, ps)| ==
        (if g.once then 1 else 0) + (if f.scored != g.scored then 1 else 0) + (if f.gapped != g.gapped then 1 else 0)
        + |EncC(RidGap(prev, p.id), |p.gaps|)| + (if g.gapped then CodeSize(SidGap(prev, p.id) - 1) else 0)
        + (if g.once || g.scored then CodeSize(p.score) else 0) + |Headers(g, p.id, ps[1..])|
  {
    hide EncB, EncC, RidGap, SidGap, FlagsFor;
    TailSorted(prev, ps);
    GapsPositive(prev, ps);
    assert SidGaps(prev, ps)[0] == SidGap(prev, ps[0].id);
  }

  lemma HeaderStep(f: Flags, prev: DocId, ps: seq<Posting>)
    requires Sorted(prev, ps) && |ps| > 0 && Positive(SidGaps(prev, ps))
    ensures
      var g, gs, ss := FlagsFor(f, prev, ps), SidGaps(prev, ps), Scores(ps);
      && g.gapped == GapsOn(f.gapped, gs) && g.scored == ScoresOn(f.scored, ss)
      && g.once == (ss[0] != 0 && !f.scored && NextScore(ss) == 0)
      && Sorted(ps[0].id, ps[1..]) && gs[1..] == SidGaps(ps[0].id, ps[1..])
  {}

  // ---------------------------------------------------------------- the cost of a list

  function LastId(prev: DocId, ps: seq<Posting>): DocId {
    if |ps| == 0 then prev else ps[|ps| - 1].id
  }

  lemma SortedParts(prev: DocId, a: seq<Posting>, b: seq<Posting>)
    requires Sorted(prev, a + b)
    ensures Sorted(prev, a) && Sorted(prev, b) && Sorted(LastId(prev, a), b)
  {
    var ps := a + b;
    assert forall i :: 0 <= i < |a| ==> ps[i] == a[i];
    assert forall i :: 0 <= i < |b| ==> ps[|a| + i] == b[i];
  }

  lemma {:induction false} GapsCat(prev: DocId, a: seq<Posting>, b: seq<Posting>)
    ensures SidGaps(prev, a + b) == SidGaps(prev, a) + SidGaps(LastId(prev, a), b)
    decreases |a|
  {
    hide SidGap;
    if |a| == 0 {
      assert a + b == b;
    } else {
      assert (a + b)[1..] == a[1..] + b;
      GapsCat(a[0].id, a[1..], b);
    }
  }

  lemma {:induction false} CountCat(prev: DocId, a: seq<Posting>, b: seq<Posting>)
    requires Sorted(prev, a + b)
    ensures Sorted(prev, a) && Sorted(LastId(prev, a), b)
    ensures CountCost(prev, a + b) == CountCost(prev, a) + CountCost(LastId(prev, a), b)
    decreases |a|
  {
    hide EncC, RidGap, Sorted;
    SortedParts(prev, a, b);
    if |a| == 0 {
      assert a + b == b;
    } else {
      assert (a + b)[1..] == a[1..] + b;
      TailSorted(prev, a + b);
      CountCat(a[0].id, a[1..], b);
    }
  }

  lemma {:induction false} BodiesCat(a: seq<Posting>, b: seq<Posting>)
    ensures |Bodies(a + b)| == |Bodies(a)| + |Bodies(b)|
    decreases |a|
  {
    hide EncGaps;
    if |a| == 0 {
      assert a + b == b;
    } else {
      assert (a + b)[1..] == a[1..] + b;
      BodiesCat(a[1..], b);
    }
  }

  /** The bytes of a term's headers and positions. */
  function Cost(ps: seq<Posting>): nat
    requires Sorted(NONE, ps)
  {
    |Headers(CLEAR, NONE, ps)| + |Bodies(ps)|
  }

  lemma CostParts(ps: seq<Posting>)
    requires Sorted(NONE, ps)
    ensures Positive(SidGaps(NONE, ps))
    ensures Cost(ps) ==
            CountCost(NONE, ps) + GapCost(false, SidGaps(NONE, ps)) + ScoreCost(false, Scores(ps)) + |Bodies(ps)|
  {
    HeaderParts(CLEAR, NONE, ps);
  }

  // ---------------------------------------------------------------- one posting more or less

  lemma CountBound(d: u32, t: u32)
    requires t >= 1
    ensures |EncC(d, t)| <= 1 + CodeSize(d) + CodeSize(t)
  {}

  lemma CountGrows(d: u32, d2: u32, t: u32)
    requires t >= 1 && d <= d2
    ensures |EncC(d, t)| <= |EncC(d2, t)|
  {}

  lemma CountAdds(d: u32, d2: u32, t: u32, t2: u32)
    requires t >= 1 && t2 >= 1 && d + d2 < TWO32
    ensures |EncC(d + d2, t)| <= |EncC(d2, t)| + |EncC(d, t2)| + 1
  {}

  lemma Front(last: DocId, p: Posting, suf: seq<Posting>)
    requires Sorted(last, [p] + suf)
    ensures Stored(p) && Lt(last, p.id) && Sorted(p.id, suf) && Sorted(last, suf)
    ensures |suf| > 0 ==> Stored(suf[0]) && Lt(p.id, suf[0].id) && Sorted(suf[0].id, suf[1..])
  {
    SortedParts(last, [p], suf);
    assert ([p] + suf)[0] == p;
  }

  lemma GapsAre(prev: DocId, id: DocId)
    requires Lt(prev, id)
    ensures RidGap(prev, id) == id.rid - prev.rid
    ensures SidGap(prev, id) == if id.rid == prev.rid then id.sid - prev.sid else id.sid
  {}

  /** The counts behind a posting, with and without it. */
  lemma CountBehind(last: DocId, p: Posting, suf: seq<Posting>)
    requires Sorted(last, [p] + suf)
    ensures Stored(p) && Sorted(p.id, suf) && Sorted(last, suf)
    ensures
      var d := RidGap(last, p.id);
      && CountCost(p.id, suf) <= CountCost(last, suf)
      && CountCost(last, suf) <= CountCost(p.id, suf) + if d == 0 then 0 else |EncC(d, |p.gaps|)| + 1
  {
    hide EncC, Sorted, RidGap;
    Front(last, p, suf);
    if |suf| > 0 {
      GapsAre(last, p.id);
      GapsAre(last, suf[0].id);
      GapsAre(p.id, suf[0].id);
      var d, d2, t := RidGap(last, p.id), RidGap(p.id, suf[0].id), |suf[0].gaps|;
      CountGrows(d2, d + d2, t);
      CountAdds(d, d2, t, |p.gaps|);
    }
  }

  /** The next posting is of the same document. */
  predicate Joins(p: Posting, suf: seq<Posting>) {
    |suf| > 0 && suf[0].id.rid == p.id.rid
  }

  /** The section gaps behind a posting, with and without it. */
  lemma GapsBehind(last: DocId, p: Posting, suf: seq<Posting>)
    requires Sorted(last, [p] + suf)
    ensures
      var x, g, g2 := SidGap(last, p.id), SidGaps(p.id, suf), SidGaps(last, suf);
      && x >= 1
      && if Joins(p, suf) then g[0] >= 1 && x + g[0] < TWO32 && g2 == [x + g[0]] + g[1..] else g2 == g
  {
    hide Sorted, RidGap, SidGap;
    Front(last, p, suf);
    GapsAre(last, p.id);
    if |suf| > 0 {
      GapsAre(last, suf[0].id);
      GapsAre(p.id, suf[0].id);
    }
  }

  lemma WithIt(pre: seq<Posting>, p: Posting, suf: seq<Posting>)
    requires Sorted(NONE, pre + [p] + suf)
    ensures Sorted(NONE, pre + suf) && Sorted(LastId(NONE, pre), [p] + suf) && Sorted(LastId(NONE, pre), suf)
    ensures pre + [p] + suf == pre + ([p] + suf)
  {
    var ps, qs := pre + [p] + suf, pre + suf;
    assert ps == pre + ([p] + suf);
    SortedParts(NONE, pre, [p] + suf);
    SortedParts(LastId(NONE, pre), [p], suf);
    assert forall i :: 0 <= i < |qs| ==> qs[i] == ps[if i < |pre| then i else i + 1];
  }

  lemma GapsInsert(pre: seq<Posting>, p: Posting, suf: seq<Posting>)
    requires Sorted(NONE, pre + [p] + suf)
    ensures SidGap(LastId(NONE, pre), p.id) >= 1
    ensures Positive(SidGaps(NONE, pre + [p] + suf)) && Positive(SidGaps(NONE, pre + suf))
    ensures
      var with, without := GapCost(false, SidGaps(NONE, pre + [p] + suf)), GapCost(false, SidGaps(NONE, pre + suf));
      && with <= without + GapPrice(SidGap(LastId(NONE, pre), p.id))
      && without <= with + if Joins(p, suf) then 4 else 0
  {
    hide GapCost, GapPrice, SidGap, SidGaps, LastId, Sorted, Positive;
    var last := LastId(NONE, pre);
    var x, g, g2 := SidGap(last, p.id), SidGaps(p.id, suf), SidGaps(last, suf);
    WithIt(pre, p, suf);
    GapsBehind(last, p, suf);
    GapsPositive(NONE, pre + [p] + suf);
    GapsPositive(NONE, pre + suf);
    GapsCat(NONE, pre, [p] + suf);
    GapsCat(NONE, pre, suf);
    GapsCat(last, [p], suf);
    OneGap(last, p);
    var a := SidGaps(NONE, pre);
    PositiveParts(a, [x] + g);
    PositiveParts(a, g2);
    PositiveParts([x], g);
    assert SidGaps(NONE, pre + [p] + suf) == a + ([x] + g) && SidGaps(NONE, pre + suf) == a + g2;
    if Joins(p, suf) {
      PositiveParts([g[0]], g[1..]);
      assert g == [g[0]] + g[1..];
      assert a + ([x] + g) == a + [x, g[0]] + g[1..];
      assert a + g2 == a + [x + g[0]] + g[1..];
      GapSplit(false, a, x, g[0], g[1..]);
    } else {
      assert a + ([x] + g) == a + [x] + g;
      GapInsert(false, a, x, g);
    }
  }

  lemma OneGap(last: DocId, p: Posting)
    ensures SidGaps(last, [p]) == [SidGap(last, p.id)] && LastId(last, [p]) == p.id
  {}

  lemma PositiveParts(a: seq<u32>, b: seq<u32>)
    requires Positive(a + b)
    ensures Positive(a) && Positive(b)
  {
    assert forall i :: 0 <= i < |a| ==> (a + b)[i] == a[i];
    assert forall i :: 0 <= i < |b| ==> (a + b)[|a| + i] == b[i];
  }

  lemma ScoresInsert(pre: seq<Posting>, p: Posting, suf: seq<Posting>)
    ensures
      var with, without := ScoreCost(false, Scores(pre + [p] + suf)), ScoreCost(false, Scores(pre + suf));
      without <= with <= without + ScorePrice(p.score)
  {
    hide ScoreCost, ScorePrice;
    assert Scores(pre + [p] + suf) == Scores(pre) + [p.score] + Scores(suf);
    assert Scores(pre + suf) == Scores(pre) + Scores(suf);
    ScoreInsert(false, Scores(pre), p.score, Scores(suf));
  }

  lemma CountsInsert(pre: seq<Posting>, p: Posting, suf: seq<Posting>)
    requires Sorted(NONE, pre + [p] + suf)
    ensures Stored(p) && Sorted(NONE, pre + suf)
    ensures
      var with, without := CountCost(NONE, pre + [p] + suf), CountCost(NONE, pre + suf);
      var d := RidGap(LastId(NONE, pre), p.id);
      && with <= without + |EncC(d, |p.gaps|)|
      && without <= with + if d == 0 then 0 else 1
  {
    hide EncC, Sorted, RidGap;
    var last := LastId(NONE, pre);
    WithIt(pre, p, suf);
    CountBehind(last, p, suf);
    CountCat(NONE, pre, [p] + suf);
    CountCat(NONE, pre, suf);
    assert ([p] + suf)[1..] == suf;
  }

  lemma BodiesInsert(pre: seq<Posting>, p: Posting, suf: seq<Posting>)
    ensures |Bodies(pre + [p] + suf)| == |Bodies(pre + suf)| + |EncGaps(p.gaps)|
  {
    hide EncGaps;
    BodiesCat(pre + [p], suf);
    BodiesCat(pre, [p]);
    BodiesCat(pre, suf);
    assert [p][1..] == [] && Bodies([]) == [];
    assert Bodies([p]) == EncGaps(p.gaps) + [];
  }

  /** What a posting costs at most, behind `last`. */
  function Price(last: DocId, p: Posting): nat
    requires Stored(p) && SidGap(last, p.id) >= 1
  {
    |EncC(RidGap(last, p.id), |p.gaps|)| + GapPrice(SidGap(last, p.id)) + ScorePrice(p.score) + |EncGaps(p.gaps)|
  }

  /** A list with a posting and without it. */
  lemma CostInsert(pre: seq<Posting>, p: Posting, suf: seq<Posting>)
    requires Sorted(NONE, pre + [p] + suf)
    ensures Stored(p) && SidGap(LastId(NONE, pre), p.id) >= 1 && Sorted(NONE, pre + suf)
    ensures Cost(pre + [p] + suf) <= Cost(pre + suf) + Price(LastId(NONE, pre), p)
    ensures Cost(pre + suf) <= Cost(pre + [p] + suf) +
              (if RidGap(LastId(NONE, pre), p.id) == 0 then 0 else 1) + (if Joins(p, suf) then 4 else 0)
  {
    hide Cost, CountCost, GapCost, ScoreCost, EncC, Sorted, RidGap, SidGap, GapPrice, ScorePrice, EncGaps, Bodies,
         Stored, Joins, Positive, SidGaps, Scores;
    CountsInsert(pre, p, suf);
    GapsInsert(pre, p, suf);
    ScoresInsert(pre, p, suf);
    BodiesInsert(pre, p, suf);
    CostParts(pre + [p] + suf);
    CostParts(pre + suf);
  }

  /** The record of a posting takes at least as much. */
  lemma RecordLength(e: Posting)
    requires ValidRecord(e)
    ensures RecordSize(e) >= REC_SIZE + CodeSize(e.id.rid) + CodeSize(e.id.sid) + CodeSize(|e.gaps|) + |EncGaps(e.gaps)|
                             + if e.score == 0 then 0 else CodeSize(e.score)
    ensures RecordSize(e) >= 7 + |EncGaps(e.gaps)|
  {}

  lemma RecordPays(last: DocId, e: Posting)
    requires Stored(e) && Lt(last, e.id) && SidGap(last, e.id) >= 1
    ensures Price(last, e) <= RecordSize(e)
  {
    hide EncC, EncGaps, RecordSize, CodeSize;
    RecordLength(e);
    CountBound(RidGap(last, e.id), |e.gaps|);
    CodeGrows(RidGap(last, e.id), e.id.rid);
    CodeGrows(SidGap(last, e.id) - 1, e.id.sid);
    CodeGrows(0, e.score);
  }

  /** A posting of the same section instead. */
  lemma CostReplace(pre: seq<Posting>, p: Posting, e: Posting, suf: seq<Posting>)
    requires Sorted(NONE, pre + [p] + suf) && Stored(e) && e.id == p.id
    ensures Sorted(NONE, pre + [e] + suf) && Cost(pre + [e] + suf) <= Cost(pre + [p] + suf) + RecordSize(e)
  {
    hide Cost, CountCost, GapCost, ScoreCost, EncC, Sorted, RidGap, SidGap, GapPrice, ScorePrice, EncGaps, Bodies,
         Stored, Positive, SidGaps, Scores, RecordSize;
    var last := LastId(NONE, pre);
    SortedReplace(pre, p, e, suf);
    WithIt(pre, p, suf);
    GapsInsert(pre, p, suf);
    Front(last, p, suf);
    RecordPays(last, e);
    CountsReplace(pre, p, e, suf);
    GapsReplace(pre, p, e, suf);
    ScoresInsert(pre, p, suf);
    ScoresInsert(pre, e, suf);
    BodiesInsert(pre, p, suf);
    BodiesInsert(pre, e, suf);
    CostParts(pre + [p] + suf);
    CostParts(pre + [e] + suf);
  }

  lemma SortedReplace(pre: seq<Posting>, p: Posting, e: Posting, suf: seq<Posting>)
    requires Sorted(NONE, pre + [p] + suf) && Stored(e) && e.id == p.id
    ensures Sorted(NONE, pre + [e] + suf)
  {
    var ps, qs := pre + [p] + suf, pre + [e] + suf;
    assert ps[|pre|] == p;
    assert forall i :: 0 <= i < |qs| ==> qs[i] == if i == |pre| then e else ps[i];
  }

  lemma CountsReplace(pre: seq<Posting>, p: Posting, e: Posting, suf: seq<Posting>)
    requires Sorted(NONE, pre + [p] + suf) && Sorted(NONE, pre + [e] + suf) && Stored(e) && e.id == p.id
    ensures CountCost(NONE, pre + [e] + suf) <=
            CountCost(NONE, pre + [p] + suf) + |EncC(RidGap(LastId(NONE, pre), e.id), |e.gaps|)|
  {
    hide EncC, Sorted, RidGap;
    WithIt(pre, p, suf);
    WithIt(pre, e, suf);
    Front(LastId(NONE, pre), p, suf);
    CountCat(NONE, pre, [p] + suf);
    CountCat(NONE, pre, [e] + suf);
    assert ([p] + suf)[1..] == suf && ([e] + suf)[1..] == suf;
  }

  lemma GapsReplace(pre: seq<Posting>, p: Posting, e: Posting, suf: seq<Posting>)
    requires e.id == p.id
    ensures SidGaps(NONE, pre + [e] + suf) == SidGaps(NONE, pre + [p] + suf)
  {
    GapsCat(NONE, pre + [e], suf);
    GapsCat(NONE, pre + [p], suf);
    GapsCat(NONE, pre, [e]);
    GapsCat(NONE, pre, [p]);
  }

  // ---------------------------------------------------------------- one record merged

  /** All of `run` are of document `rid`, and `suf` goes on behind it. */
  ghost predicate Document(rid: u32, run: seq<Posting>, suf: seq<Posting>) {
    && (forall i :: 0 <= i < |run| ==> run[i].id.rid == rid)
    && (|suf| > 0 ==> suf[0].id.rid != rid)
  }

  /** Without the postings of a document. */
  lemma {:induction false} CostDrop(pre: seq<Posting>, rid: u32, run: seq<Posting>, suf: seq<Posting>)
    requires Sorted(NONE, pre + run + suf) && Document(rid, run, suf)
    ensures Sorted(NONE, pre + suf) && Cost(pre + suf) <= Cost(pre + run + suf) + 1
    decreases |run|
  {
    hide Cost, Sorted;
    if |run| == 0 {
      assert pre + run + suf == pre + suf;
    } else {
      var k := |run| - 1;
      var front := pre + run[..k];
      assert pre + run + suf == front + [run[k]] + suf;
      CostInsert(front, run[k], suf);
      CostDrop(pre, rid, run[..k], suf);
      if k > 0 {
        assert LastId(NONE, front) == run[k - 1].id;
      } else {
        assert front == pre;
      }
    }
  }

  /** The first posting of another document. */
  function DocumentEnd(rid: u32, c: seq<Posting>): (m: nat)
    ensures m <= |c| && Document(rid, c[..m], c[m..])
  {
    if |c| == 0 || c[0].id.rid != rid then 0 else DocumentEnd(rid, c[1..]) + 1
  }

  lemma {:induction false} MergeDocument(prev: DocId, c: seq<Posting>, e: Posting)
    requires Sorted(prev, c) && e.id.sid == 0 && (|c| > 0 ==> c[0].id.rid >= e.id.rid)
    ensures Merge(c, [e]) == c[DocumentEnd(e.id.rid, c)..]
    decreases |c|
  {
    assert [e][1..] == [];
    if |c| > 0 && c[0].id.rid == e.id.rid {
      TailSorted(prev, c);
      MergeDocument(prev, c[1..], e);
    }
  }

  /** What merging a record does where it belongs. */
  lemma MergeHere(c: seq<Posting>, e: Posting)
    ensures |c| == 0 || e.id.rid < c[0].id.rid ==> Merge(c, [e]) == Live(e) + c
    ensures |c| > 0 && e.id.rid == c[0].id.rid && e.id.sid != 0 && e.id.sid < c[0].id.sid ==>
        Merge(c, [e]) == Live(e) + c
    ensures |c| > 0 && e.id == c[0].id && e.id.sid != 0 ==> Merge(c, [e]) == Live(e) + c[1..]
    ensures |c| > 0 && Lt(c[0].id, e.id) && (e.id.sid != 0 || c[0].id.rid < e.id.rid) ==>
              Merge(c, [e]) == [c[0]] + Merge(c[1..], [e])
  {}

  lemma SortedInsert(pre: seq<Posting>, e: Posting, c: seq<Posting>)
    requires Sorted(NONE, pre + c) && Stored(e) && forall y :: y in pre ==> Lt(y.id, e.id)
    requires |c| > 0 ==> Lt(e.id, c[0].id)
    ensures Sorted(NONE, pre + [e] + c)
  {
    var ps, qs := pre + c, pre + [e] + c;
    var n := |pre|;
    assert forall i :: 0 <= i < n ==> qs[i] == ps[i] && qs[i] in pre;
    assert forall i :: n < i < |qs| ==> qs[i] == ps[i - 1];
    assert |c| > 0 ==> ps[n] == c[0];
    assert forall i :: n < i < |qs| ==> Lt(e.id, qs[i].id);
  }

  /** A record in front of `c`. */
  lemma InsertHere(pre: seq<Posting>, c: seq<Posting>, e: Posting)
    requires Sorted(NONE, pre + c) && ValidRecord(e) && (forall y :: y in pre ==> Lt(y.id, e.id))
    requires |c| > 0 ==> Lt(e.id, c[0].id)
    ensures Sorted(NONE, pre + (Live(e) + c)) && Cost(pre + (Live(e) + c)) <= Cost(pre + c) + RecordSize(e)
  {
    hide Cost, Sorted, RecordSize, Price;
    if Adds(e) {
      SortedInsert(pre, e, c);
      WithIt(pre, e, c);
      Front(LastId(NONE, pre), e, c);
      CostInsert(pre, e, c);
      RecordPays(LastId(NONE, pre), e);
    } else {
      assert [] + c == c;
    }
  }

  /** A record of the section that `c` starts with. */
  lemma ReplaceHere(pre: seq<Posting>, c: seq<Posting>, e: Posting)
    requires Sorted(NONE, pre + c) && ValidRecord(e) && |c| > 0 && e.id == c[0].id
    ensures Sorted(NONE, pre + (Live(e) + c[1..])) && Cost(pre + (Live(e) + c[1..])) <= Cost(pre + c) + RecordSize(e)
  {
    hide Cost, Sorted, RecordSize, Price;
    assert pre + c == pre + [c[0]] + c[1..];
    if Adds(e) {
      WithIt(pre, c[0], c[1..]);
      Front(LastId(NONE, pre), c[0], c[1..]);
      CostReplace(pre, c[0], e, c[1..]);
      assert pre + ([e] + c[1..]) == pre + [e] + c[1..];
    } else {
      RecordLength(e);
      CostInsert(pre, c[0], c[1..]);
      assert [] + c[1..] == c[1..];
    }
  }

  /** Merging one record, with `pre` before it. */
  lemma {:induction false} MergeOne(pre: seq<Posting>, c: seq<Posting>, e: Posting)
    requires Sorted(NONE, pre + c) && ValidRecord(e) && forall y :: y in pre ==> Lt(y.id, e.id)
    ensures Sorted(NONE, pre + Merge(c, [e]))
    ensures Cost(pre + Merge(c, [e])) <= Cost(pre + c) + RecordSize(e)
    decreases |c|
  {
    hide Cost, Sorted, RecordSize, Merge, Live;
    MergeHere(c, e);
    SortedParts(NONE, pre, c);
    if |c| == 0 || (Lt(e.id, c[0].id) && (e.id.sid != 0 || e.id.rid < c[0].id.rid)) {
      InsertHere(pre, c, e);
    } else if e.id.sid == 0 && e.id.rid == c[0].id.rid {
      var m := DocumentEnd(e.id.rid, c);
      MergeDocument(LastId(NONE, pre), c, e);
      assert pre + c == pre + c[..m] + c[m..];
      CostDrop(pre, e.id.rid, c[..m], c[m..]);
      RecordLength(e);
    } else if e.id == c[0].id {
      ReplaceHere(pre, c, e);
    } else {
      assert pre + c == (pre + [c[0]]) + c[1..];
      MergeOne(pre + [c[0]], c[1..], e);
      assert (pre + [c[0]]) + Merge(c[1..], [e]) == pre + ([c[0]] + Merge(c[1..], [e]));
    }
  }

  // ---------------------------------------------------------------- all records of a term

  /** Records can be merged one after the other. */
  lemma MergeFirst(c: seq<Posting>, b: seq<Posting>)
    requires Sorted(NONE, c) && Buffered(b) && |b| > 0
    ensures Buffered([b[0]]) && Buffered(b[1..]) && Sorted(NONE, Merge(c, [b[0]]))
    ensures Merge(c, b) == Merge(Merge(c, [b[0]]), b[1..])
  {
    hide Sorted, Merge;
    var e := b[0];
    TailBuffered(b);
    MergeSorted(NONE, c, [e]);
    var c2 := Merge(c, [e]);
    MergeSorted(NONE, c, b);
    MergeSorted(NONE, c2, b[1..]);
    forall x ensures x in Merge(c, b) <==> x in Merge(c2, b[1..]) {
      MergeMembers(c, b, x);
      MergeMembers(c, [e], x);
      MergeMembers(c2, b[1..], x);
      SplitSuperseded(b, x.id);
      assert Superseded([e], x.id) <==> Kills(e.id, x.id);
      assert x == e ==> !Superseded(b[1..], x.id);
    }
    SameMembers(NONE, Merge(c, b), Merge(c2, b[1..]));
  }

  /** The merge takes no more bytes than what was stored and the records in the buffer. */
  lemma {:induction false} MergeCost(c: seq<Posting>, b: seq<Posting>)
    requires Sorted(NONE, c) && Buffered(b)
    ensures Sorted(NONE, Merge(c, b)) && Cost(Merge(c, b)) <= Cost(c) + RecordSizes(b)
    decreases |b|
  {
    hide Cost, Sorted, RecordSize;
    if |b| > 0 {
      hide Merge;
      MergeFirst(c, b);
      assert [] + c == c && [] + Merge(c, [b[0]]) == Merge(c, [b[0]]);
      MergeOne([], c, b[0]);
      MergeCost(Merge(c, [b[0]]), b[1..]);
    }
  }
}
