/**
 * How much the records of a buffer come to (`lib/inv.c`, struct sen_inv_buffer): they do not overlap,
 * so that all together take no more than the part of the segment behind the slots.
 */
module BufferSizes {
  import opened ByteCodec
  import opened PostingCodec
  import opened Records
  import opened BufferList
  import opened Buffers
  import opened Merging
  import opened ChunkReaders
  import opened ImageBounds

  /** The bytes of the records in `s` at positions below n. */
  function SumBelow(m: Mem, s: set<nat>, n: nat): nat {
    if n == 0 then 0 else SumBelow(m, s, n - 1) + if n - 1 in s && n - 1 in m then Size(m[n - 1]) else 0
  }

  /** Records that do not overlap fit where they are. */
  lemma {:induction false} SumFits(m: Mem, s: set<nat>, base: int, n: nat, top: int)
    requires Space(m, base) && base <= top && forall p :: p in m && p < n ==> REC_SIZE * p + Size(m[p]) <= top
    ensures SumBelow(m, s, n) <= top - base
    decreases n
  {
    if n > 0 {
      if n - 1 in s && n - 1 in m {
        SumFits(m, s, base, n - 1, REC_SIZE * (n - 1));
      } else {
        SumFits(m, s, base, n - 1, top);
      }
    }
  }

  lemma {:induction false} SumSplit(m: Mem, s: set<nat>, t: set<nat>, n: nat)
    requires s !! t
    ensures SumBelow(m, s + t, n) == SumBelow(m, s, n) + SumBelow(m, t, n)
    decreases n
  {
    if n > 0 {
      SumSplit(m, s, t, n - 1);
    }
  }

  lemma {:induction false} SumOne(m: Mem, p: nat, n: nat)
    requires p in m
    ensures SumBelow(m, {p}, n) == if p < n then Size(m[p]) else 0
    decreases n
  {
    if n > 0 {
      SumOne(m, p, n - 1);
    }
  }

  lemma {:induction false} SumMore(m: Mem, s: set<nat>, t: set<nat>, n: nat)
    requires s <= t
    ensures SumBelow(m, s, n) <= SumBelow(m, t, n)
    decreases n
  {
    if n > 0 {
      SumMore(m, s, t, n - 1);
    }
  }

  // ---------------------------------------------------------------- lists

  function ListSize(m: Mem, l: seq<nat>): nat {
    if |l| == 0 then 0 else (if l[0] in m then Size(m[l[0]]) else 0) + ListSize(m, l[1..])
  }

  ghost predicate Distinct(l: seq<nat>) {
    forall i, j :: 0 <= i < j < |l| ==> l[i] != l[j]
  }

  ghost function Members(l: seq<nat>): set<nat> {
    set p | p in l
  }

  lemma {:induction false} ListSum(m: Mem, l: seq<nat>, n: nat)
    requires Distinct(l) && forall p :: p in l ==> p in m && p < n
    ensures ListSize(m, l) == SumBelow(m, Members(l), n)
    decreases |l|
  {
    if |l| == 0 {
      SumSplit(m, {}, {}, n);
      assert Members(l) == {} && {} + {} == Members(l);
    } else {
      ListSum(m, l[1..], n);
      SumOne(m, l[0], n);
      SumSplit(m, {l[0]}, Members(l[1..]), n);
      assert Members(l) == {l[0]} + Members(l[1..]);
    }
  }

  function LiveSize(m: Mem, live: seq<seq<nat>>): nat {
    if |live| == 0 then 0 else LiveSize(m, live[..|live| - 1]) + ListSize(m, live[|live| - 1])
  }

  function OwnedBy(own: seq<set<nat>>): (s: set<nat>)
    ensures forall p :: p in s <==> exists i :: 0 <= i < |own| && p in own[i]
  {
    if |own| == 0 then {} else OwnedBy(own[..|own| - 1]) + own[|own| - 1]
  }

  /** List by list, the records are different ones. */
  ghost predicate Separate(m: Mem, live: seq<seq<nat>>, own: seq<set<nat>>, n: nat) {
    && |own| == |live|
    && (forall i :: 0 <= i < |live| ==>
          Distinct(live[i]) && forall p :: p in live[i] ==> p in own[i] && p in m && p < n)
    && (forall i, j :: 0 <= i < j < |live| ==> own[i] !! own[j])
  }

  lemma {:induction false} LiveSum(m: Mem, live: seq<seq<nat>>, own: seq<set<nat>>, n: nat)
    requires Separate(m, live, own, n)
    ensures LiveSize(m, live) <= SumBelow(m, OwnedBy(own), n)
    decreases |live|
  {
    if |live| > 0 {
      var k := |live| - 1;
      LiveSum(m, live[..k], own[..k], n);
      ListSum(m, live[k], n);
      SumMore(m, Members(live[k]), own[k], n);
      SumSplit(m, OwnedBy(own[..k]), own[k], n);
    }
  }

  // ---------------------------------------------------------------- a whole buffer

  lemma {:induction false} EntriesSize(m: Mem, c: Content, l: seq<nat>)
    requires Coded(m, c) && forall k :: 0 <= k < |l| ==> l[k] in c
    ensures RecordSizes(Entries(c, l)) == ListSize(m, l)
    decreases |l|
  {
    hide RecordSize, Encodes;
    if |l| > 0 {
      EntriesSize(m, c, l[1..]);
      EncodesSize(m[l[0]].data, c[l[0]]);
      assert Entries(c, l)[1..] == Entries(c, l[1..]);
    }
  }

  lemma ListSeparate(t: Term, m: Mem, c: Content, l: seq<nat>, own: set<nat>, chunk: seq<byte>, ps: seq<Posting>)
    requires TermOk(t, m, c, l, own, chunk, ps)
    ensures Distinct(l) && forall p :: p in l ==> p in own && p in m
  {}

  /** The records in use are between the slots and the end of the segment. */
  lemma RecordsFit(b: Segment)
    requires BufferOk(b)
    ensures LiveSize(b.recs, b.live) <= SEGMENT_SIZE - Base(b)
  {
    hide Coded, TermOk, ChunkBytes, Voids;
    var n: nat :| n == SEGMENT_SIZE;
    forall i | 0 <= i < |b.live|
      ensures Distinct(b.live[i]) && forall p :: p in b.live[i] ==> p in b.own[i] && p in b.recs && p < n
    {
      ListSeparate(b.terms[i], b.recs, b.content, b.live[i], b.own[i], b.chunk, b.stored[i]);
      assert forall p :: p in b.recs ==> p < n;
    }
    LiveSum(b.recs, b.live, b.own, n);
    SumFits(b.recs, OwnedBy(b.own), Base(b), n, SEGMENT_SIZE);
  }

  lemma PendingSize(b: Segment, i: nat)
    requires BufferOk(b) && i < |b.terms|
    ensures i < |b.live| && RecordSizes(Pending(b, i)) == ListSize(b.recs, b.live[i])
  {
    hide TermsOk, Space;
    PendingDefined(b, i);
    EntriesSize(b.recs, b.content, b.live[i]);
  }

  // ---------------------------------------------------------------- a term

  lemma HoldsCost(s: seq<byte>, ps: seq<Posting>)
    requires Holds(s, ps)
    ensures Sorted(NONE, ps) && Cost(ps) <= |s|
  {}

  /** The headers and positions that a flush writes for a term are no more than it had, in chunk and buffer. */
  lemma SlotCost(b: Segment, i: nat)
    requires BufferOk(b) && i < |b.terms| && b.terms[i].tid != 0
    ensures i < |b.live| && Cost(SlotPostings(b, i)) <= b.terms[i].sizeInChunk + ListSize(b.recs, b.live[i])
  {
    hide BufferOk, Holds, Merge, Cost, RecordSizes, ListSize, SlotPostings, Pending;
    SlotFacts(b, i);
    SlotIs(b, i);
    var t := b.terms[i];
    HoldsCost(b.chunk[t.posInChunk..t.posInChunk + t.sizeInChunk], b.stored[i]);
    PendingSize(b, i);
    MergeCost(b.stored[i], Pending(b, i));
  }
}
