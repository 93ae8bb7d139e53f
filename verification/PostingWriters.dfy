/**
 * The chunk writer of buffer_flush (`lib/inv.c`, the PUTNEXT_ macro and the final record).
 *
 * A header is written only when the posting after it is known: its flag bytes depend on both.
 */
module PostingWriters {
  import opened ByteCodec
  import opened PostingCodec

  class PostingWriter {
    var tc: seq<byte>       // headers written
    var tp: seq<byte>       // positions written
    var id: DocId           // the posting whose header is pending
    var tf: u32
    var score: u32
    var dgap: u32
    var sgap: u32           // 0 when none is pending
    var flags: Flags
    var ndf: nat            // postings put

    /** The postings that will be put, in the end. */
    ghost const plan: seq<Posting>

    ghost predicate Valid()
      reads this
    {
      && Sorted(NONE, plan) && ndf <= |plan|
      && PendingIs(plan, ndf, id, tf, score, dgap, sgap)
      && Written(plan, ndf, tc, flags)
      && tp + Bodies(plan[ndf..]) == Bodies(plan)
    }

    constructor (ghost plan: seq<Posting>)
      requires Sorted(NONE, plan)
      ensures Valid() && this.plan == plan && ndf == 0 && tp == []
    {
      tc, tp, id, tf, score, dgap, sgap, flags, ndf := [], [], NONE, 0, 0, 0, 0, CLEAR, 0;
      this.plan := plan;
    }

    /** The score flag: a score of the pending posting alone is marked once, a run of them toggles. */
    method MarkScore(nextScore: u32)
      modifies this`tc, this`flags
      ensures tc == old(tc) + ScoreMark(old(flags), flags) && flags.gapped == old(flags.gapped)
      ensures flags.once == (score != 0 && !old(flags.scored) && nextScore == 0)
      ensures flags.scored ==
          if score != 0 then old(flags.scored) || nextScore != 0 else old(flags.scored) && nextScore != 0
    {
      flags := flags.(once := false);
      if score != 0 {
        if !flags.scored {
          if nextScore != 0 {
            flags := flags.(scored := true);
            tc := tc + [0x8d];
          } else {
            flags := flags.(once := true);
            tc := tc + [0x8c];
          }
        }
      } else if nextScore == 0 && flags.scored {
        flags := flags.(scored := false);
        tc := tc + [0x8d];
      }
    }

    method MarkGap(nextSgap: u32)
      modifies this`tc, this`flags
      ensures tc == old(tc) + GapMark(old(flags), flags)
      ensures flags.once == old(flags.once) && flags.scored == old(flags.scored)
      ensures flags.gapped == if sgap != 1 then true else old(flags.gapped) && nextSgap != 1
    {
      if sgap != 1 {
        if !flags.gapped {
          flags := flags.(gapped := true);
          tc := tc + [0x8e];
        }
      } else if nextSgap == 1 && flags.gapped {
        flags := flags.(gapped := false);
        tc := tc + [0x8e];
      }
    }

    method WriteFields(ghost rest: seq<byte>)
      requires sgap >= 1 && tf >= 1
      modifies this`tc
      ensures tc + rest == old(tc) + Fields(flags, dgap, sgap, tf, score, rest)
    {
      hide EncB, EncC, Fields;
      var s := EncC(dgap, tf);
      if flags.gapped { s := s + EncB(sgap - 1); }
      if flags.once || flags.scored { s := s + EncB(score); }
      FieldsAre(flags, dgap, sgap, tf, score, rest);
      Assoc(tc, s, rest);
      tc := tc + s;
    }

    /** The header bytes of the pending posting; `rest` is what will follow them. */
    method WritePending(nextScore: u32, nextSgap: u32, ghost rest: seq<byte>)
      requires sgap >= 1 && tf >= 1
      modifies this`tc, this`flags
      ensures flags == NextFlags(old(flags), score, sgap, nextScore, nextSgap)
      ensures tc + rest == old(tc) + Marks(old(flags), flags, Fields(flags, dgap, sgap, tf, score, rest))
    {
      hide Fields, Marks, ScoreMark, GapMark;
      ghost var f, s0 := flags, tc;
      MarkScore(nextScore);
      ghost var f1 := flags;
      MarkGap(nextSgap);
      ghost var s1 := tc;
      WriteFields(rest);
      MarksAre(f, f1, flags, Fields(flags, dgap, sgap, tf, score, rest));
      assert s1 == s0 + (ScoreMark(f, f1) + GapMark(f1, flags));
    }

    /** SEN_B_COPY, `n` times: positions are copied as they are encoded. */
    method CopyGaps(pp: seq<byte>, ghost gaps: seq<u32>, ghost rest: seq<byte>) returns (pp2: seq<byte>)
      requires tf == |gaps| && pp == EncGaps(gaps) + rest
      modifies this`tp
      ensures pp2 == rest && tp == old(tp) + EncGaps(gaps)
    {
      hide EncB, CopyB;
      pp2 := pp;
      var n: nat := tf;
      ghost var i: nat := 0;
      assert gaps[0..] == gaps;
      while n > 0
        invariant n + i == |gaps| && pp2 == EncGaps(gaps[i..]) + rest
        invariant tp + EncGaps(gaps[i..]) == old(tp) + EncGaps(gaps)
      {
        CopyOne(gaps[i..], rest);
        assert gaps[i..][1..] == gaps[i + 1..];
        var (code, s) := CopyB(pp2);
        tp, pp2 := tp + code, s;
        n, i := n - 1, i + 1;
      }
      assert gaps[i..] == [];
    }

    /** The header of the pending posting, once the one after it is known. */
    method WriteHeader(dgap0: u32, sgap0: u32, score: u32)
      requires Sorted(NONE, plan) && ndf < |plan|
      requires PendingIs(plan, ndf, id, tf, this.score, dgap, sgap) && Written(plan, ndf, tc, flags)
      requires score == plan[ndf].score && sgap0 == SidGap(id, plan[ndf].id)
      modifies this`tc, this`flags
      ensures Written(plan, ndf + 1, tc, flags)
    {
      hide EncB, EncGaps, Marks, Fields, Written, Headers;
      ghost var n, f, tc0 := ndf, flags, tc;
      PlanFacts(plan, n);
      if sgap != 0 {
        PlanFacts(plan, n - 1);
        ghost var g := NextFlags(f, this.score, sgap, score, sgap0);
        ghost var rest := Headers(g, plan[n - 1].id, plan[n..]);
        WritePending(score, sgap0, rest);
        WrittenNext(plan, n, tc0, f, tc, flags, rest);
      } else {
        WrittenNone(plan, tc, flags);
      }
    }

    /** PUTNEXT_: the next posting of the plan; `pp` is where its position codes are read from. */
    method Put(id: DocId, tf: u32, score: u32, pp: seq<byte>, ghost rest: seq<byte>) returns (pp2: seq<byte>)
      requires Valid() && ndf < |plan|
      requires var p := plan[ndf]; id == p.id && tf == |p.gaps| && score == p.score && pp == EncGaps(p.gaps) + rest
      modifies this
      ensures Valid() && ndf == old(ndf) + 1 && pp2 == rest
    {
      hide EncB, EncGaps, Written, Headers, Bodies, Sorted;
      ghost var n := ndf;
      PlanFacts(plan, n);
      var dgap0 := (id.rid - this.id.rid) % TWO32;
      var sgap0 := if dgap0 != 0 then id.sid else (id.sid - this.id.sid) % TWO32;
      WriteHeader(dgap0, sgap0, score);
      dgap, sgap, this.tf, this.score, this.id := dgap0, sgap0, tf, score, id;
      BodiesAt(plan, n);
      ghost var tp0 := tp;
      pp2 := CopyGaps(pp, plan[n].gaps, rest);
      ndf := ndf + 1;
      Assoc(tp0, EncGaps(plan[n].gaps), Bodies(plan[n + 1..]));
    }

    /** The header of the last posting, which no other follows. */
    method Finish()
      requires Valid() && ndf == |plan|
      modifies this`tc, this`flags
      ensures Sorted(NONE, plan) && tc == Headers(CLEAR, NONE, plan) && tp == Bodies(plan)
      ensures PendingIs(plan, ndf, id, tf, score, dgap, sgap)
    {
      hide EncB, EncC, Marks, Fields, Headers;
      assert plan[ndf..] == [];
      if sgap != 0 {
        ghost var n, f, tc0 := ndf - 1, flags, tc;
        ghost var g := NextFlags(f, score, sgap, 1, 2);
        PlanFacts(plan, n);
        WrittenLast(plan, tc, f);
        WriteLast(g);
      } else {
        HeadersNone();
      }
    }

    method WriteLast(ghost g: Flags)
      requires sgap >= 1 && tf >= 1 && g == NextFlags(flags, score, sgap, 1, 2)
      modifies this`tc, this`flags
      ensures tc == old(tc) + Marks(old(flags), g, Fields(g, dgap, sgap, tf, score, []))
    {
      hide EncB, EncC, Marks, Fields;
      var marks, fields := [], [];
      if score != 0 && !flags.scored {
        flags := flags.(scored := true);
        marks := [0x8d];
      }
      var gap := sgap - 1;
      if gap != 0 && !flags.gapped {
        flags := flags.(gapped := true);
        marks := marks + [0x8e];
      }
      fields := EncC(dgap, tf);
      if flags.gapped { fields := fields + EncB(gap); }
      if flags.scored { fields := fields + EncB(score); }
      LastFields(g, dgap, sgap, tf, score);
      LastMarks(old(flags), g, fields);
      tc := tc + marks + fields;
    }
  }

  lemma FieldsAre(g: Flags, dgap: u32, sgap: u32, tf: u32, score: u32, rest: seq<byte>)
    requires sgap >= 1 && tf >= 1
    ensures
      var head := EncC(dgap, tf);
      var head2 := if g.gapped then head + EncB(sgap - 1) else head;
      Fields(g, dgap, sgap, tf, score, rest) == (if g.once || g.scored then head2 + EncB(score) else head2) + rest
  {}

  lemma LastFields(g: Flags, dgap: u32, sgap: u32, tf: u32, score: u32)
    requires sgap >= 1 && tf >= 1 && !g.once
    ensures
      var fields := EncC(dgap, tf);
      var fields2 := if g.gapped then fields + EncB(sgap - 1) else fields;
      Fields(g, dgap, sgap, tf, score, []) == if g.scored then fields2 + EncB(score) else fields2
  {}

  lemma LastMarks(f: Flags, g: Flags, rest: seq<byte>)
    requires !g.once
    ensures
      var marks := if f.scored != g.scored then [0x8d] else [];
      Marks(f, g, rest) == (if f.gapped != g.gapped then marks + [0x8e] else marks) + rest
  {}

  ghost function Before(plan: seq<Posting>, n: nat): DocId
    requires n <= |plan|
  {
    if n == 0 then NONE else plan[n - 1].id
  }

  /** With n postings put, the n-th is the pending one. */
  ghost predicate PendingIs(plan: seq<Posting>, n: nat, id: DocId, tf: u32, score: u32, dgap: u32, sgap: u32)
    requires n <= |plan|
  {
    && id == Before(plan, n)
    && if n == 0 then sgap == 0
       else
         var prev, p := Before(plan, n - 1), plan[n - 1];
         tf == |p.gaps| && score == p.score && dgap == RidGap(prev, id) && sgap == SidGap(prev, id) && sgap >= 1
  }

  /** With n postings put, what remains of the header stream starts with the n-th. */
  ghost predicate Written(plan: seq<Posting>, n: nat, tc: seq<byte>, flags: Flags)
    requires n <= |plan|
  {
    && Sorted(NONE, plan)
    && (n == 0 ==> tc == [] && flags == CLEAR)
    && (n > 0 ==>
          var prev := Before(plan, n - 1);
          Sorted(prev, plan[n - 1..]) && tc + Headers(flags, prev, plan[n - 1..]) == Headers(CLEAR, NONE, plan))
  }

  /** Writing the pending header moves `Written` on by one posting. */
  lemma WrittenNext(plan: seq<Posting>, n: nat, tc: seq<byte>, f: Flags, tc2: seq<byte>, g: Flags, rest: seq<byte>)
    requires 0 < n < |plan| && Written(plan, n, tc, f)
    requires
      var prev, p := Before(plan, n - 1), plan[n - 1];
      && |p.gaps| >= 1 && SidGap(prev, p.id) >= 1 && Sorted(p.id, plan[n..])
      && g == NextFlags(f, p.score, SidGap(prev, p.id), plan[n].score, SidGap(p.id, plan[n].id))
      && rest == Headers(g, p.id, plan[n..])
      && tc2 + rest == tc + Marks(f, g, Fields(g, RidGap(prev, p.id), SidGap(prev, p.id), |p.gaps|, p.score, rest))
    ensures Written(plan, n + 1, tc2, g)
  {
    hide Marks, Fields;
    HeadersAt(f, Before(plan, n - 1), plan, n - 1);
  }

  lemma WrittenNone(plan: seq<Posting>, tc: seq<byte>, f: Flags)
    requires Written(plan, 0, tc, f) && |plan| > 0
    ensures Written(plan, 1, tc, f)
  {}

  function ScoreMark(f: Flags, g: Flags): seq<byte> {
    if g.once then [0x8c] else if f.scored != g.scored then [0x8d] else []
  }

  function GapMark(f: Flags, g: Flags): seq<byte> {
    if f.gapped != g.gapped then [0x8e] else []
  }

  lemma MarksAre(f: Flags, f1: Flags, g: Flags, rest: seq<byte>)
    requires !(f1.once && f.scored != f1.scored)
    requires f1.gapped == f.gapped && g.once == f1.once && g.scored == f1.scored
    ensures Marks(f, g, rest) == ScoreMark(f, f1) + GapMark(f1, g) + rest
  {}

  lemma CopyOne(gaps: seq<u32>, rest: seq<byte>)
    requires |gaps| > 0
    ensures CopyB(EncGaps(gaps) + rest) == (EncB(gaps[0]), EncGaps(gaps[1..]) + rest)
    ensures EncGaps(gaps) == EncB(gaps[0]) + EncGaps(gaps[1..])
  {
    hide EncB, CopyB;
    DecEncB(gaps[0], EncGaps(gaps[1..]) + rest);
    Assoc(EncB(gaps[0]), EncGaps(gaps[1..]), rest);
  }

  lemma PlanFacts(plan: seq<Posting>, n: nat)
    requires Sorted(NONE, plan) && n < |plan|
    ensures
      var prev, p := if n == 0 then NONE else plan[n - 1].id, plan[n];
      && Stored(p) && Lt(prev, p.id) && RidGap(prev, p.id) < TWO32 && SidGap(prev, p.id) >= 1
      && Sorted(prev, plan[n..])
  {}

  lemma HeadersAt(f: Flags, prev: DocId, plan: seq<Posting>, n: nat)
    requires n < |plan| && Sorted(prev, plan[n..])
    ensures
      var p := plan[n];
      var g := if n + 1 == |plan| then NextFlags(f, p.score, SidGap(prev, p.id), 1, 2)
               else NextFlags(f, p.score, SidGap(prev, p.id), plan[n + 1].score, SidGap(p.id, plan[n + 1].id));
      && Sorted(p.id, plan[n + 1..]) && |p.gaps| >= 1 && SidGap(prev, p.id) >= 1
      && Headers(f, prev, plan[n..]) ==
         Marks(f, g, Fields(g, RidGap(prev, p.id), SidGap(prev, p.id), |p.gaps|, p.score,
           Headers(g, p.id, plan[n + 1..])))
  {}

  lemma BodiesAt(plan: seq<Posting>, n: nat)
    requires n < |plan|
    ensures Bodies(plan[n..]) == EncGaps(plan[n].gaps) + Bodies(plan[n + 1..])
  {}

  lemma HeadersNone()
    ensures Headers(CLEAR, NONE, []) == []
  {}

  /** The header of a posting that no other follows. */
  function LastHeader(f: Flags, prev: DocId, p: Posting): seq<byte>
    requires |p.gaps| >= 1 && SidGap(prev, p.id) >= 1 && |p.gaps| < TWO32
  {
    var g := NextFlags(f, p.score, SidGap(prev, p.id), 1, 2);
    Marks(f, g, Fields(g, RidGap(prev, p.id), SidGap(prev, p.id), |p.gaps|, p.score, []))
  }

  lemma WrittenLast(plan: seq<Posting>, tc: seq<byte>, f: Flags)
    requires |plan| > 0 && Written(plan, |plan|, tc, f)
    ensures
      var prev, p := Before(plan, |plan| - 1), plan[|plan| - 1];
      && 1 <= |p.gaps| < TWO32 && SidGap(prev, p.id) >= 1
      && tc + LastHeader(f, prev, p) == Headers(CLEAR, NONE, plan)
  {
    hide Marks, Fields;
    HeadersAt(f, Before(plan, |plan| - 1), plan, |plan| - 1);
    assert plan[|plan|..] == [];
  }
}
