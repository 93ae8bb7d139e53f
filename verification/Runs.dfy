/**
 * Whole runs of updates and deletions (`lib/inv.c`, sen_inv_update, sen_inv_delete): whatever is
 * packed, buffered, flushed or merged on the way, the last write wins.
 */
module Runs {
  import opened ByteCodec
  import opened PostingCodec
  import opened Records
  import opened BufferList
  import opened Merging
  import opened FlushBuffers
  import opened ImageBounds
  import opened IndexStates
  import opened SpaceAccounts
  import opened InvertedIndex

  /** A call of sen_inv_update or (`deletep`) sen_inv_delete. */
  datatype Op = Op(t: nat, u: UpdSpec, deletep: bool, hint: nat)

  predicate ValidOp(op: Op) {
    op.t != 0 && ValidSpec(op.u)
  }

  function Record(op: Op): Posting {
    RecordOf(op.u, op.deletep)
  }

  /** The map of term `t` after those of `ops` that were done. */
  ghost function Effect(m: Postings, t: nat, ops: seq<Op>, done: seq<bool>): Postings
    requires |done| == |ops|
    decreases |ops|
  {
    if |ops| == 0 then m
    else
      var k := |ops| - 1;
      var m2 := Effect(m, t, ops[..k], done[..k]);
      if done[k] && ops[k].t == t then Apply(m2, Record(ops[k])) else m2
  }

  lemma EffectSnoc(m: Postings, t: nat, ops: seq<Op>, done: seq<bool>, n: nat, d: bool)
    requires n < |ops| && |done| == n
    ensures
      var m2 := Effect(m, t, ops[..n], done);
      Effect(m, t, ops[..n + 1], done + [d]) == if d && ops[n].t == t then Apply(m2, Record(ops[n])) else m2
  {
    assert ops[..n + 1][..n] == ops[..n];
    assert (done + [d])[..n] == done;
  }

  lemma EffectNone(m: Postings, t: nat)
    ensures Effect(m, t, [], []) == m
  {}

  /** Call `op` is about section `id` of term `t`: it writes it, deletes it, or deletes its whole record. */
  ghost predicate Touches(op: Op, t: nat, id: DocId) {
    op.t == t && op.u.rid == id.rid && (op.u.sid == 0 || op.u.sid == id.sid)
  }

  /** Call `i` is the last one that was done about section `id`. */
  ghost predicate Last(t: nat, ops: seq<Op>, done: seq<bool>, id: DocId, i: nat)
    requires |done| == |ops|
  {
    && i < |ops| && done[i] && Touches(ops[i], t, id)
    && forall j :: i < j < |ops| && done[j] ==> !Touches(ops[j], t, id)
  }

  /** A call that leaves a posting at section `id`. */
  predicate Leaves(op: Op, id: DocId) {
    !op.deletep && op.u.sid == id.sid >= 1 && op.u.rid == id.rid && |op.u.positions| >= 1
  }

  lemma LastSnoc(t: nat, ops: seq<Op>, done: seq<bool>, id: DocId, i: nat)
    requires |done| == |ops| && i < |ops|
    ensures
      var k := |ops| - 1;
      Last(t, ops, done, id, i) <==>
        if done[k] && Touches(ops[k], t, id) then i == k else i < k && Last(t, ops[..k], done[..k], id, i)
  {}

  /**
   * The last call about a section decides: its posting is there iff that call wrote it, with the
   * score and the positions of that call; a section no call was about is as before.
   */
  lemma {:induction false} LastWriteWins(m: Postings, t: nat, ops: seq<Op>, done: seq<bool>, id: DocId)
    requires |done| == |ops|
    ensures
      var m2 := Effect(m, t, ops, done);
      && (forall i: nat :: Last(t, ops, done, id, i) ==>
            (id in m2 <==> Leaves(ops[i], id))
            && (Leaves(ops[i], id) ==> m2[id] == Data(ops[i].u.score, ops[i].u.positions)))
      && ((forall i: nat :: !Last(t, ops, done, id, i)) ==> (id in m2 <==> id in m) && (id in m ==> m2[id] == m[id]))
    decreases |ops|
  {
    if |ops| > 0 {
      var k := |ops| - 1;
      var m1 := Effect(m, t, ops[..k], done[..k]);
      LastWriteWins(m, t, ops[..k], done[..k], id);
      forall i: nat | i < |ops|
        ensures Last(t, ops, done, id, i) <==>
                  if done[k] && Touches(ops[k], t, id) then i == k else i < k && Last(t, ops[..k], done[..k], id, i)
      {
        LastSnoc(t, ops, done, id, i);
      }
      if done[k] && ops[k].t == t {
        AppliedAt(m1, ops[k], id);
      }
      if done[k] && Touches(ops[k], t, id) {
        assert Last(t, ops, done, id, k);
      } else {
        assert forall i: nat :: Last(t, ops, done, id, i) <==> Last(t, ops[..k], done[..k], id, i);
      }
    }
  }

  lemma AppliedAt(m: Postings, op: Op, id: DocId)
    ensures
      var m2 := Apply(m, Record(op));
      if Touches(op, op.t, id) then
        && (id in m2 <==> Leaves(op, id))
        && (Leaves(op, id) ==> m2[id] == Data(op.u.score, op.u.positions))
      else (id in m2 <==> id in m) && (id in m ==> m2[id] == m[id])
  {
    PositionsBack(0, op.u.positions);
  }

  // ---------------------------------------------------------------- runs

  /** What a call makes of a state, and what becomes of it. */
  ghost function Spec(s: State, op: Op): (r: (State, Fate))
    requires Sound(s)
    ensures Sound(r.0)
  {
    if op.deletep then DeleteSpec(s, op.t, op.u) else UpdateSpec(s, op.t, op.u, op.hint)
  }

  /** The state after calls `ops`. */
  ghost function After(s: State, ops: seq<Op>): (r: State)
    requires Sound(s)
    ensures Sound(r)
  {
    if |ops| == 0 then s else Spec(After(s, ops[..|ops| - 1]), ops[|ops| - 1]).0
  }

  /** What becomes of call `i`, in the state that the calls before it have left. */
  ghost function FateOf(s: State, ops: seq<Op>, i: nat): Fate
    requires Sound(s) && i < |ops|
  {
    Spec(After(s, ops[..i]), ops[i]).1
  }

  ghost function Done(s: State, ops: seq<Op>): (r: seq<bool>)
    requires Sound(s)
    ensures |r| == |ops|
  {
    seq(|ops|, i requires 0 <= i < |ops| => FateOf(s, ops, i) == Accepted)
  }

  lemma AfterSnoc(s: State, ops: seq<Op>, n: nat)
    requires Sound(s) && n < |ops|
    ensures After(s, ops[..n + 1]) == Spec(After(s, ops[..n]), ops[n]).0
  {
    assert ops[..n + 1][..n] == ops[..n];
  }

  lemma DoneSnoc(s: State, ops: seq<Op>, n: nat)
    requires Sound(s) && n < |ops|
    ensures Done(s, ops[..n + 1]) == Done(s, ops[..n]) + [FateOf(s, ops, n) == Accepted]
  {
    hide Spec;
    assert forall i: nat :: i <= n ==> ops[..n + 1][..i] == ops[..i];
    assert forall i: nat :: i < n ==> ops[..n][..i] == ops[..i];
  }

  lemma SpecMaps(s: State, op: Op)
    requires Sound(s) && InOrder(s) && ValidOp(op)
    ensures var (s2, fate) := Spec(s, op); InOrder(s2) && MapsAfter(s, s2, op.t, Record(op), fate)
  {
    hide DeleteSpec, UpdateSpec, InOrder, MapsAfter, RecordOf;
    if op.deletep {
      DeleteMaps(s, op.t, op.u);
    } else {
      UpdateMaps(s, op.t, op.u, op.hint);
    }
  }

  /** After any run, every term's map is the effect of the calls that were accepted, in order. */
  lemma {:induction false} RunEffect(s: State, ops: seq<Op>, n: nat, t: nat)
    requires Sound(s) && InOrder(s) && n <= |ops| && forall i :: 0 <= i < |ops| ==> ValidOp(ops[i])
    ensures
      InOrder(After(s, ops[..n]))
      && MapIn(After(s, ops[..n]), t) == Effect(MapIn(s, t), t, ops[..n], Done(s, ops[..n]))
    decreases n
  {
    hide Spec, InOrder, MapIn, Apply, Record;
    if n == 0 {
      EffectNone(MapIn(s, t), t);
    } else {
      RunEffect(s, ops, n - 1, t);
      AfterSnoc(s, ops, n - 1);
      DoneSnoc(s, ops, n - 1);
      SpecMaps(After(s, ops[..n - 1]), ops[n - 1]);
      EffectSnoc(MapIn(s, t), t, ops, Done(s, ops[..n - 1]), n - 1, FateOf(s, ops, n - 1) == Accepted);
    }
  }

  /** In any run total_chunk_size keeps counting the chunks of all buffers. */
  lemma {:induction false} RunCounted(s: State, ops: seq<Op>)
    requires Sound(s) && Counted(s)
    ensures Counted(After(s, ops))
    decreases |ops|
  {
    hide DeleteSpec, UpdateSpec, Counted;
    if |ops| > 0 {
      var op := ops[|ops| - 1];
      RunCounted(s, ops[..|ops| - 1]);
      CallsCounted(After(s, ops[..|ops| - 1]), op.t, op.u, op.hint);
    }
  }

  /** A new index has no buffers, and counts nothing. */
  lemma NewCounted(s: State)
    requires s.segs == map[] && s.total == 0
    ensures Counted(s)
  {
    NoUnits(0x4000);
  }

  lemma {:induction false} NoUnits(n: nat)
    ensures ChunkUnits(map[], n) == 0
  {
    if n > 0 {
      NoUnits(n - 1);
    }
  }

  /** One call. */
  method Step(inv: Inv, op: Op) returns (ghost fate: Fate, rc: Rc)
    requires inv.Valid() && ValidOp(op)
    modifies inv, inv.space, inv.space.marks, Objects(inv.segs)
    ensures inv.Valid() && fresh(Objects(inv.segs) - old(Objects(inv.segs)))
    ensures (inv.Now(), fate) == Spec(old(inv.Now()), op) && rc == RcOf(fate)
  {
    hide Inv.Valid, Inv.Now, Inv.View;
    if op.deletep {
      fate, rc := inv.Delete(op.t, op.u);
    } else {
      fate, rc := inv.Update(op.t, op.u, op.hint);
    }
  }

  /**
   * Any run: the index ends in the state that the first one foretells, each return code is that of
   * its call's fate there, and every term's map is the effect of the calls that were accepted.
   */
  method Run(inv: Inv, ops: seq<Op>) returns (rcs: seq<Rc>)
    requires inv.Valid() && forall i :: 0 <= i < |ops| ==> ValidOp(ops[i])
    modifies inv, inv.space, inv.space.marks, Objects(inv.segs)
    ensures inv.Valid() && inv.Now() == After(old(inv.Now()), ops)
    ensures |rcs| == |ops| && forall i :: 0 <= i < |ops| ==> rcs[i] == RcOf(FateOf(old(inv.Now()), ops, i))
    ensures forall t: nat :: inv.View(t) == Effect(old(inv.View(t)), t, ops, Done(old(inv.Now()), ops))
    ensures Counted(old(inv.Now())) ==> Counted(inv.Now())
  {
    hide Spec, ToMap, Effect, Inv.View, Inv.Valid, Inv.Now, MapIn, InOrder, Done, Counted;
    ghost var s := inv.Now();
    inv.Views();
    rcs := [];
    var n := 0;
    assert ops[..0] == [];
    while n < |ops|
      invariant n <= |ops| && |rcs| == n
      invariant inv.Valid() && fresh(Objects(inv.segs) - old(Objects(inv.segs)))
      invariant inv.Now() == After(s, ops[..n])
      invariant forall i :: 0 <= i < n ==> rcs[i] == RcOf(FateOf(s, ops, i))
    {
      ghost var fate;
      var rc;
      fate, rc := Step(inv, ops[n]);
      AfterSnoc(s, ops, n);
      rcs := rcs + [rc];
      n := n + 1;
    }
    assert ops[..n] == ops;
    if Counted(s) {
      RunCounted(s, ops);
    }
    inv.Views();
    forall t: nat ensures inv.View(t) == Effect(old(inv.View(t)), t, ops, Done(s, ops)) {
      RunEffect(s, ops, n, t);
    }
  }

  // ---------------------------------------------------------------- a dropped update

  /** An update that no buffer can take: as many positions as are allowed, 143 apart. */
  function LongSpec(): UpdSpec {
    UpdSpec(1, 1, 0, seq(MAX_TF, i requires 0 <= i < MAX_TF => i * 0x8f))
  }

  lemma {:induction false} WideGaps(gaps: seq<u32>)
    requires forall i :: 0 <= i < |gaps| ==> gaps[i] >= 0x8f
    ensures |EncGaps(gaps)| >= 2 * |gaps|
    decreases |gaps|
  {
    if |gaps| > 0 {
      WideGaps(gaps[1..]);
    }
  }

  lemma LongRecord()
    ensures ValidSpec(LongSpec()) && RecordSize(RecordOf(LongSpec(), false)) > SEGMENT_SIZE
  {
    hide EncGaps, RecordSize;
    var e := RecordOf(LongSpec(), false);
    LongGaps(e.gaps);
    WideGaps(e.gaps[1..]);
    RecordLength(e);
    MoreGaps(e.gaps);
  }

  lemma MoreGaps(gaps: seq<u32>)
    requires |gaps| > 0
    ensures |EncGaps(gaps[1..])| < |EncGaps(gaps)|
  {}

  lemma LongGaps(gaps: seq<u32>)
    requires gaps == GapsOf(0, LongSpec().positions)
    ensures forall i :: 1 <= i < MAX_TF ==> gaps[i] == 0x8f
  {
    hide GapsOf;
    forall i | 1 <= i < MAX_TF ensures gaps[i] == 0x8f {
      GapsOfAt(0, LongSpec().positions, i);
    }
  }

  /** Positions as sen_inv_updspec_add takes them from the tokenizer: increasing, and each an int. */
  predicate Addable(u: UpdSpec) {
    && (forall i :: 0 <= i < |u.positions| ==> u.positions[i] < 0x8000_0000)
    && (forall i, j :: 0 <= i < j < |u.positions| ==> u.positions[i] < u.positions[j])
  }

  /** sen_inv_update reports success for it, on a term without postings, and yet keeps nothing. */
  lemma DroppedUpdate(s: State, t: nat, hint: nat)
    requires Sound(s) && GetsWord(s, t) && HomeOf(s, t) == NOWHERE && PostingsOf(s, t) == []
    ensures ValidSpec(LongSpec()) && Addable(LongSpec())
    ensures UpdateSpec(s, t, LongSpec(), hint) == (WithWord(s, t), Dropped) && RcOf(Dropped) == Success
  {
    hide RecordSize, RecordOf, Search;
    LongRecord();
    LongPositions();
    SearchFails(WithWord(s, t), hint, RecordSize(RecordOf(LongSpec(), false)));
  }

  lemma LongPositions()
    ensures !Packable(RecordOf(LongSpec(), false)) && |LongSpec().positions| > 0 && LongSpec().sid > 0
  {}
}
