/**
 * What the marks and fields of headers cost (`lib/inv.c`, PUTNEXT_): the flags for gaps and for scores
 * are two machines that look one posting ahead, and one more posting costs either of them little.
 */
module HeaderCosts {
  import opened ByteCodec

  /** The length of a code. */
  function CodeSize(v: u32): nat {
    |EncB(v)|
  }

  lemma CodeGrows(a: u32, b: u32)
    requires a <= b
    ensures 1 <= CodeSize(a) <= CodeSize(b) <= 5
  {}

  lemma ShortCode()
    ensures CodeSize(0) == 1
  {}

  // ---------------------------------------------------------------- section gaps

  predicate Positive(gs: seq<u32>) {
    forall i :: 0 <= i < |gs| ==> gs[i] >= 1
  }

  /** The gap of the posting behind the first, or that of an unlike one at the end. */
  function NextGap(gs: seq<u32>): u32 {
    if |gs| > 1 then gs[1] else 2
  }

  /** Are gaps written, from the first posting on? */
  predicate GapsOn(on: bool, gs: seq<u32>)
    requires |gs| > 0
  {
    gs[0] != 1 || (on && NextGap(gs) != 1)
  }

  /** The bytes for marks 0x8e and for gaps. */
  function GapCost(on: bool, gs: seq<u32>): nat
    requires Positive(gs)
    decreases |gs|
  {
    if |gs| == 0 then 0
    else
      var n := GapsOn(on, gs);
      (if n != on then 1 else 0) + (if n then CodeSize(gs[0] - 1) else 0) + GapCost(n, gs[1..])
  }

  /** What one more gap costs at most. */
  function GapPrice(x: u32): nat
    requires x >= 1
  {
    if x == 1 then 1 else CodeSize(x - 1) + 2
  }

  /** The flag is worth one byte, one way or the other. */
  lemma GapState(gs: seq<u32>)
    requires Positive(gs)
    ensures GapCost(true, gs) <= GapCost(false, gs) + 1 && GapCost(false, gs) <= GapCost(true, gs) + 1
    ensures |gs| > 0 && gs[0] == 1 ==> GapCost(false, gs) <= GapCost(true, gs)
    ensures |gs| == 0 || gs[0] != 1 ==> GapCost(true, gs) <= GapCost(false, gs)
    decreases |gs|
  {
    ShortCode();
    if |gs| > 0 {
      GapState(gs[1..]);
    }
  }

  lemma GapCons(on: bool, g: u32, gs: seq<u32>)
    requires g >= 1 && Positive(gs)
    ensures Positive([g] + gs)
    ensures
      var n := g != 1 || (on && (if |gs| > 0 then gs[0] else 2) != 1);
      GapCost(on, [g] + gs) == (if n != on then 1 else 0) + (if n then CodeSize(g - 1) else 0) + GapCost(n, gs)
  {
    assert ([g] + gs)[1..] == gs;
  }

  /** A gap in front. */
  lemma GapFront(on: bool, x: u32, suf: seq<u32>)
    requires x >= 1 && Positive(suf)
    ensures Positive([x] + suf) && GapCost(on, suf) <= GapCost(on, [x] + suf) <= GapCost(on, suf) + GapPrice(x)
  {
    hide CodeSize;
    ShortCode();
    CodeGrows(0, x - 1);
    GapCons(on, x, suf);
    GapState(suf);
  }

  lemma {:induction false} GapInsert(on: bool, pre: seq<u32>, x: u32, suf: seq<u32>)
    requires x >= 1 && Positive(pre) && Positive(suf)
    ensures Positive(pre + [x] + suf) && Positive(pre + suf)
    ensures GapCost(on, pre + suf) <= GapCost(on, pre + [x] + suf) <= GapCost(on, pre + suf) + GapPrice(x)
    decreases |pre|
  {
    hide CodeSize, GapCost;
    if |pre| == 0 {
      assert pre + [x] + suf == [x] + suf && pre + suf == suf;
      GapFront(on, x, suf);
    } else {
      var rest := pre[1..];
      assert pre + [x] + suf == [pre[0]] + (rest + [x] + suf) && pre + suf == [pre[0]] + (rest + suf);
      GapInsert(true, rest, x, suf);
      GapInsert(false, rest, x, suf);
      GapCons(on, pre[0], rest + [x] + suf);
      GapCons(on, pre[0], rest + suf);
      if |rest| == 0 {
        assert rest + [x] + suf == [x] + suf && rest + suf == suf;
        ShortCode();
        CodeGrows(0, x - 1);
        GapState(suf);
        GapCons(true, x, suf);
        GapCons(false, x, suf);
      }
    }
  }

  /** A gap as two. */
  lemma SplitFront(on: bool, x: u32, y: u32, suf: seq<u32>)
    requires x >= 1 && y >= 1 && x + y < TWO32 && Positive(suf)
    ensures Positive([x, y] + suf) && Positive([x + y] + suf)
    ensures GapCost(on, [x, y] + suf) <= GapCost(on, [x + y] + suf) + GapPrice(x)
    ensures GapCost(on, [x + y] + suf) <= GapCost(on, [x, y] + suf) + 4
    ensures on && x == 1 ==> GapCost(false, [x, y] + suf) <= GapCost(true, [x + y] + suf) + 1
    ensures on && x == 1 ==> GapCost(true, [x + y] + suf) <= GapCost(false, [x, y] + suf) + 4
  {
    hide CodeSize, GapCost;
    ShortCode();
    CodeGrows(0, x - 1);
    CodeGrows(0, y - 1);
    CodeGrows(y - 1, x + y - 1);
    CodeAdds(x - 1, y - 1);
    assert [x, y] + suf == [x] + ([y] + suf);
    GapState(suf);
    GapCons(on, x + y, suf);
    GapCons(true, y, suf);
    GapCons(false, y, suf);
    GapCons(on, x, [y] + suf);
    GapCons(false, x, [y] + suf);
  }

  lemma CodeAdds(a: u32, b: u32)
    requires a + b + 1 < TWO32
    ensures CodeSize(a + b + 1) <= CodeSize(a) + CodeSize(b)
  {}

  lemma {:induction false} GapSplit(on: bool, pre: seq<u32>, x: u32, y: u32, suf: seq<u32>)
    requires x >= 1 && y >= 1 && x + y < TWO32 && Positive(pre) && Positive(suf)
    ensures Positive(pre + [x, y] + suf) && Positive(pre + [x + y] + suf)
    ensures GapCost(on, pre + [x, y] + suf) <= GapCost(on, pre + [x + y] + suf) + GapPrice(x)
    ensures GapCost(on, pre + [x + y] + suf) <= GapCost(on, pre + [x, y] + suf) + 4
    decreases |pre|
  {
    hide CodeSize, GapCost;
    if |pre| == 0 {
      assert pre + [x, y] + suf == [x, y] + suf && pre + [x + y] + suf == [x + y] + suf;
      SplitFront(on, x, y, suf);
    } else {
      var rest := pre[1..];
      assert pre + [x, y] + suf == [pre[0]] + (rest + [x, y] + suf);
      assert pre + [x + y] + suf == [pre[0]] + (rest + [x + y] + suf);
      GapSplit(true, rest, x, y, suf);
      GapSplit(false, rest, x, y, suf);
      GapCons(on, pre[0], rest + [x, y] + suf);
      GapCons(on, pre[0], rest + [x + y] + suf);
      if |rest| == 0 {
        assert rest + [x, y] + suf == [x, y] + suf && rest + [x + y] + suf == [x + y] + suf;
        ShortCode();
        SplitFront(true, x, y, suf);
      }
    }
  }

  // ---------------------------------------------------------------- scores

  function NextScore(ss: seq<u32>): u32 {
    if |ss| > 1 then ss[1] else 1
  }

  /** Are scores written, from the first posting on? */
  predicate ScoresOn(on: bool, ss: seq<u32>)
    requires |ss| > 0
  {
    if ss[0] != 0 then on || NextScore(ss) != 0 else on && NextScore(ss) != 0
  }

  /** The bytes for marks 0x8c and 0x8d and for scores. */
  function ScoreCost(on: bool, ss: seq<u32>): nat
    decreases |ss|
  {
    if |ss| == 0 then 0
    else
      var n := ScoresOn(on, ss);
      var once := ss[0] != 0 && !on && NextScore(ss) == 0;
      (if once || n != on then 1 else 0) + (if once || n then CodeSize(ss[0]) else 0) + ScoreCost(n, ss[1..])
  }

  /** What one more score costs at most. */
  function ScorePrice(s: u32): nat {
    if s == 0 then 1 else CodeSize(s) + 1
  }

  lemma ScoreCons(on: bool, s: u32, ss: seq<u32>)
    ensures
      var next := if |ss| > 0 then ss[0] else 1;
      var n := if s != 0 then on || next != 0 else on && next != 0;
      var once := s != 0 && !on && next == 0;
      ScoreCost(on, [s] + ss) ==
        (if once || n != on then 1 else 0) + (if once || n then CodeSize(s) else 0) + ScoreCost(n, ss)
  {
    assert ([s] + ss)[1..] == ss;
  }

  /** The flag is worth one byte, one way or the other. */
  lemma ScoreState(ss: seq<u32>)
    ensures ScoreCost(true, ss) <= ScoreCost(false, ss) + 1 && ScoreCost(false, ss) <= ScoreCost(true, ss) + 1
    ensures |ss| > 0 && ss[0] == 0 ==> ScoreCost(false, ss) <= ScoreCost(true, ss)
    ensures |ss| == 0 || ss[0] != 0 ==> ScoreCost(true, ss) <= ScoreCost(false, ss)
    decreases |ss|
  {
    ShortCode();
    if |ss| > 0 {
      ScoreState(ss[1..]);
    }
  }

  lemma {:induction false} ScoreInsert(on: bool, pre: seq<u32>, s: u32, suf: seq<u32>)
    ensures ScoreCost(on, pre + suf) <= ScoreCost(on, pre + [s] + suf) <= ScoreCost(on, pre + suf) + ScorePrice(s)
    decreases |pre|
  {
    hide CodeSize, ScoreCost;
    ShortCode();
    CodeGrows(0, s);
    ScoreState(suf);
    if |pre| == 0 {
      assert pre + [s] + suf == [s] + suf && pre + suf == suf;
      ScoreCons(on, s, suf);
    } else {
      var rest := pre[1..];
      assert pre + [s] + suf == [pre[0]] + (rest + [s] + suf) && pre + suf == [pre[0]] + (rest + suf);
      ScoreInsert(true, rest, s, suf);
      ScoreInsert(false, rest, s, suf);
      ScoreCons(on, pre[0], rest + [s] + suf);
      ScoreCons(on, pre[0], rest + suf);
      if |rest| == 0 {
        assert rest + [s] + suf == [s] + suf && rest + suf == suf;
        CodeGrows(0, pre[0]);
        ScoreCons(true, s, suf);
        ScoreCons(false, s, suf);
      }
    }
  }
}
