/**
 * Whole buffers (`lib/inv.c`, struct sen_inv_buffer): records are carved off the end of the
 * segment downwards, term slots grow upwards, and each term has its list and its chunk part.
 */
module Buffers {
  import opened ByteCodec
  import opened PostingCodec
  import opened Records
  import opened BufferList
  import opened Merging
  import opened ChunkReaders
  import opened FlushTerms

  /** Every record encodes what it is known to. */
  ghost predicate Coded(m: Mem, c: Content) {
    m.Keys == c.Keys && forall p :: p in m ==> Encodes(m[p].data, c[p])
  }

  function Size(r: Rec): nat {
    REC_SIZE + |r.data|
  }

  /** Records lie between `base` and the end of the segment, and do not overlap. */
  ghost predicate Space(m: Mem, base: int) {
    && (forall p :: p in m ==> base <= REC_SIZE * p && REC_SIZE * p + Size(m[p]) <= SEGMENT_SIZE)
    && (forall p, q :: p in m && q in m && p < q ==> REC_SIZE * p + Size(m[p]) <= REC_SIZE * q)
  }

  /** The bytes from record position `pos` on are unused. */
  ghost predicate Unused(m: Mem, base: int, pos: nat, size: nat) {
    && base <= REC_SIZE * pos && REC_SIZE * pos + size <= SEGMENT_SIZE
    && (forall p :: p in m ==> REC_SIZE * p + Size(m[p]) <= REC_SIZE * pos || REC_SIZE * pos + size <= REC_SIZE * p)
  }

  /** The records and the chunk part of one term. */
  ghost predicate TermOk(t: Term, m: Mem, c: Content, l: seq<nat>, own: set<nat>, chunk: seq<byte>, ps: seq<Posting>) {
    if t.tid == 0 then l == [] && own == {}
    else
      && Chain(m, c, t.posInBuffer, l) && Jumps(m, c, l, own)
      && (t.sizeInBuffer > 0 ==> l != [])
      && t.posInChunk + t.sizeInChunk <= |chunk|
      && Holds(chunk[t.posInChunk..t.posInChunk + t.sizeInChunk], ps)
  }

  function Voids(ts: seq<Term>): (n: nat)
    ensures n <= |ts|
  {
    if |ts| == 0 then 0 else Voids(ts[..|ts| - 1]) + if ts[|ts| - 1].tid == 0 then 1 else 0
  }

  /** The parts of the chunk that the terms have, together. */
  function ChunkBytes(ts: seq<Term>): nat {
    if |ts| == 0 then 0
    else ChunkBytes(ts[..|ts| - 1]) + if ts[|ts| - 1].tid == 0 then 0 else ts[|ts| - 1].sizeInChunk
  }

  ghost predicate TermsOk(ts: seq<Term>, m: Mem, c: Content, live: seq<seq<nat>>, own: seq<set<nat>>,
                          chunk: seq<byte>, stored: seq<seq<Posting>>) {
    && |live| == |ts| && |own| == |ts| && |stored| == |ts|
    && (forall i :: 0 <= i < |ts| ==> TermOk(ts[i], m, c, live[i], own[i], chunk, stored[i]))
    && (forall i, j :: 0 <= i < j < |ts| ==> own[i] !! own[j])
  }

  function Base(b: Segment): int
    reads b
  {
    HEADER_SIZE + TERM_SIZE * |b.terms| + b.free
  }

  ghost predicate BufferOk(b: Segment)
    reads b
  {
    && Coded(b.recs, b.content)
    && b.free >= 0 && Base(b) % REC_SIZE == 0 && Base(b) <= SEGMENT_SIZE
    && Space(b.recs, Base(b))
    && TermsOk(b.terms, b.recs, b.content, b.live, b.own, b.chunk, b.stored)
    && b.nvoid == Voids(b.terms) && ChunkBytes(b.terms) <= |b.chunk|
  }

  /** The updates in the buffer for term slot `i`. */
  ghost function Pending(b: Segment, i: nat): (r: seq<Posting>)
    requires BufferOk(b) && i < |b.terms|
    reads b
  {
    PendingDefined(b, i);
    Entries(b.content, b.live[i])
  }

  lemma PendingDefined(b: Segment, i: nat)
    requires BufferOk(b) && i < |b.terms|
    ensures i < |b.live| && forall k :: 0 <= k < |b.live[i]| ==> b.live[i][k] in b.content
  {}

  lemma CodedReads(m: Mem, c: Content)
    requires Coded(m, c)
    ensures IdsRead(m, c)
  {
    hide ReadId, ReadCount, EncGaps, Padding, RecordBytes;
    forall p | p in m ensures ReadId(m[p].data).0 == c[p].id {
      ReadRecordBack(m[p].data, c[p]);
    }
  }

  /** A term whose records are untouched is as before. */
  lemma TermFrame(t: Term, m: Mem, c: Content, m2: Mem, c2: Content, l: seq<nat>, own: set<nat>,
                  chunk: seq<byte>, ps: seq<Posting>)
    requires TermOk(t, m, c, l, own, chunk, ps)
    requires forall p :: p in own && p in m ==> p in m2 && m2[p] == m[p]
    requires forall p :: p in own && p in c ==> p in c2 && c2[p] == c[p]
    ensures TermOk(t, m2, c2, l, own, chunk, ps)
    ensures (forall k :: 0 <= k < |l| ==> l[k] in c && l[k] in c2) && Entries(c2, l) == Entries(c, l)
  {
    hide Holds;
    if t.tid != 0 {
      assert forall k :: 0 <= k < |l| ==> l[k] in own;
      assert Chain(m2, c2, t.posInBuffer, l);
    }
  }

  lemma TermAt(b: Segment, i: nat)
    requires BufferOk(b) && i < |b.terms|
    ensures i < |b.live| && i < |b.own| && i < |b.stored|
    ensures TermOk(b.terms[i], b.recs, b.content, b.live[i], b.own[i], b.chunk, b.stored[i])
  {}

  /** Room for `size` bytes of records; `pos` is the lowest. */
  method Reserve(b: Segment, size: nat) returns (pos: nat)
    requires BufferOk(b) && size % REC_SIZE == 0 && size <= b.free
    modifies b`free
    ensures BufferOk(b) && b.free == old(b.free) - size
    ensures REC_SIZE * pos == Base(b) && Unused(b.recs, Base(b), pos, size)
    ensures forall j :: 0 <= j < |b.terms| && b.terms[j].tid != 0 ==> SlotPostings(b, j) == old(SlotPostings(b, j))
  {
    hide Coded, TermsOk, Merge;
    b.free := b.free - size;
    pos := (HEADER_SIZE + TERM_SIZE * |b.terms| + b.free) / REC_SIZE;
  }

  lemma SpaceAdd(m: Mem, m2: Mem, base: int, pos: nat, bs: seq<byte>)
    requires Space(m, base) && Unused(m, base, pos, REC_SIZE + |bs|)
    requires m2.Keys == m.Keys + {pos} && m2[pos].data == bs
    requires forall p :: p in m ==> m2[p].data == m[p].data
    ensures pos !in m && Space(m2, base)
  {}

  lemma CodedAdd(m: Mem, m2: Mem, c: Content, pos: nat, bs: seq<byte>, e: Posting)
    requires Coded(m, c) && Encodes(bs, e)
    requires pos !in m && m2.Keys == m.Keys + {pos} && m2[pos].data == bs
    requires forall p :: p in m ==> m2[p].data == m[p].data
    ensures Coded(m2, c[pos := e])
  {
    hide Encodes;
  }

  lemma TermsPut(ts: seq<Term>, m: Mem, c: Content, live: seq<seq<nat>>, own: seq<set<nat>>, chunk: seq<byte>,
                 stored: seq<seq<Posting>>, i: nat, m2: Mem, c2: Content, t2: Term, l2: seq<nat>, pos: nat)
    requires TermsOk(ts, m, c, live, own, chunk, stored) && i < |ts| && ts[i].tid != 0
    requires pos !in m && (forall p :: p in m && p !in own[i] ==> p in m2 && m2[p] == m[p])
    requires forall p :: p in c && p != pos ==> p in c2 && c2[p] == c[p]
    requires t2 == ts[i].(posInBuffer := t2.posInBuffer, sizeInBuffer := t2.sizeInBuffer)
    requires Chain(m2, c2, t2.posInBuffer, l2) && Jumps(m2, c2, l2, own[i] + {pos}) && l2 != []
    ensures TermsOk(ts[i := t2], m2, c2, live[i := l2], own[i := own[i] + {pos}], chunk, stored)
    ensures forall j :: 0 <= j < |ts| ==>
              (forall k :: 0 <= k < |live[j]| ==> live[j][k] in c && live[j][k] in c2)
              && Entries(c2, live[j]) == Entries(c, live[j])
  {
    hide Chain, Holds, Jumps;
    EntriesSame(ts[i], m, c, c2, live[i], own[i], chunk, stored[i], pos);
    var own2 := own[i := own[i] + {pos}];
    forall j | 0 <= j < |ts|
      ensures pos !in own[j]
    {
      OwnsAllocated(ts[j], m, c, live[j], own[j], chunk, stored[j]);
    }
    forall j | 0 <= j < |ts| && j != i
      ensures TermOk(ts[j], m2, c2, live[j], own2[j], chunk, stored[j])
      ensures forall k :: 0 <= k < |live[j]| ==> live[j][k] in c && live[j][k] in c2
      ensures Entries(c2, live[j]) == Entries(c, live[j])
    {
      assert own[i] !! own[j];
      assert own2[j] == own[j];
      TermFrame(ts[j], m, c, m2, c2, live[j], own[j], chunk, stored[j]);
    }
  }

  lemma EntriesSame(t: Term, m: Mem, c: Content, c2: Content, l: seq<nat>, own: set<nat>, chunk: seq<byte>,
                    ps: seq<Posting>, pos: nat)
    requires TermOk(t, m, c, l, own, chunk, ps) && pos !in m
    requires forall p :: p in c && p != pos ==> p in c2 && c2[p] == c[p]
    ensures (forall k :: 0 <= k < |l| ==> l[k] in c && l[k] in c2) && Entries(c2, l) == Entries(c, l)
  {}

  lemma OwnsAllocated(t: Term, m: Mem, c: Content, l: seq<nat>, own: set<nat>, chunk: seq<byte>, ps: seq<Posting>)
    requires TermOk(t, m, c, l, own, chunk, ps)
    ensures forall p :: p in own ==> p in m && p in c
  {}

  lemma VoidsSame(ts: seq<Term>, i: nat, t: Term)
    requires i < |ts| && t.tid == ts[i].tid && t.sizeInChunk == ts[i].sizeInChunk
    ensures Voids(ts[i := t]) == Voids(ts) && ChunkBytes(ts[i := t]) == ChunkBytes(ts)
  {
    if i + 1 < |ts| {
      VoidsSame(ts[..|ts| - 1], i, t);
      assert ts[i := t][..|ts| - 1] == ts[..|ts| - 1][i := t];
    } else {
      assert ts[i := t][..i] == ts[..i];
    }
  }

  /** buffer_put into the list of term slot `i`, with the record's bytes at `pos`. */
  method PutAt(b: Segment, i: nat, pos: nat, bs: seq<byte>, id: DocId, ghost e: Posting)
    requires BufferOk(b) && i < |b.terms| && b.terms[i].tid != 0
    requires Encodes(bs, e) && id == e.id
    requires Unused(b.recs, Base(b), pos, REC_SIZE + |bs|)
    modifies b`recs, b`content, b`terms, b`live, b`own
    ensures BufferOk(b) && |b.terms| == old(|b.terms|)
    ensures forall j :: 0 <= j < |b.terms| ==> b.terms[j].tid == old(b.terms[j].tid)
    ensures b.recs.Keys == old(b.recs.Keys) + {pos} && b.recs[pos].data == bs
    ensures forall p :: p in old(b.recs) ==> b.recs[p].data == old(b.recs)[p].data
    ensures Pending(b, i) == PutSpec(old(Pending(b, i)), e)
    ensures forall j :: 0 <= j < |b.terms| && j != i ==> Pending(b, j) == old(Pending(b, j))
  {
    hide Chain, Jumps, IdsRead, Coded, Space, TermsOk, Encodes, Holds, PutSpec, ReadId;
    ghost var m, c, ts, live, own := b.recs, b.content, b.terms, b.live, b.own;
    CodedReads(b.recs, b.content);
    ListAt(b, i);
    NotAllocated(b.recs, Base(b), pos, REC_SIZE + |bs|);
    EncodesReads(bs, e);
    var t := b.terms[i];
    var head, size;
    ghost var l2;
    head, size, l2 := b.BufferPut(t.posInBuffer, t.sizeInBuffer, pos, bs, id, e, b.live[i], b.own[i]);
    var t2 := t.(posInBuffer := head, sizeInBuffer := size);
    TermsPut(ts, m, c, live, own, b.chunk, b.stored, i, b.recs, b.content, t2, l2, pos);
    VoidsSame(ts, i, t2);
    SpaceAdd(m, b.recs, Base(b), pos, bs);
    CodedAdd(m, b.recs, c, pos, bs, e);
    b.terms, b.live, b.own := b.terms[i := t2], b.live[i := l2], b.own[i := b.own[i] + {pos}];
  }

  lemma ListAt(b: Segment, i: nat)
    requires BufferOk(b) && i < |b.terms| && b.terms[i].tid != 0
    ensures |b.live| == |b.own| == |b.terms|
    ensures Chain(b.recs, b.content, b.terms[i].posInBuffer, b.live[i]) && Jumps(b.recs, b.content, b.live[i], b.own[i])
    ensures b.terms[i].sizeInBuffer > 0 ==> |b.live[i]| > 0
  {}

  lemma NotAllocated(m: Mem, base: int, pos: nat, size: nat)
    requires Unused(m, base, pos, size) && size > 0 && base >= HEADER_SIZE
    ensures pos !in m && pos > 1
  {}

  lemma EncodesReads(bs: seq<byte>, e: Posting)
    requires Encodes(bs, e)
    ensures ReadId(bs).0 == e.id
  {
    ReadRecordBack(bs, e);
  }

  /** What the chunk and the buffer of term slot `i` mean together. */
  ghost function SlotPostings(b: Segment, i: nat): (ps: seq<Posting>)
    requires BufferOk(b) && i < |b.terms| && b.terms[i].tid != 0
    reads b
    ensures Sorted(NONE, ps)
  {
    SlotFacts(b, i);
    MergeSorted(NONE, b.stored[i], Pending(b, i));
    Merge(b.stored[i], Pending(b, i))
  }

  lemma SlotFacts(b: Segment, i: nat)
    requires BufferOk(b) && i < |b.terms| && b.terms[i].tid != 0
    ensures i < |b.stored| && i < |b.live| && Sorted(NONE, b.stored[i]) && Buffered(Pending(b, i))
    ensures TermRecords(b.recs, b.content, b.terms[i].posInBuffer, b.live[i])
    ensures b.terms[i].posInChunk + b.terms[i].sizeInChunk <= |b.chunk|
    ensures Holds(b.chunk[b.terms[i].posInChunk..b.terms[i].posInChunk + b.terms[i].sizeInChunk], b.stored[i])
  {
    hide Encodes, Headers, Jumps, Space;
    TermAt(b, i);
    PendingDefined(b, i);
    ChainEntries(b.recs, b.content, b.terms[i].posInBuffer, b.live[i]);
  }

  lemma SlotIs(b: Segment, i: nat)
    requires BufferOk(b) && i < |b.terms| && b.terms[i].tid != 0
    ensures i < |b.stored| && Sorted(NONE, b.stored[i]) && Buffered(Pending(b, i))
    ensures SlotPostings(b, i) == Merge(b.stored[i], Pending(b, i))
  {
    SlotFacts(b, i);
  }

  lemma EncodesValid(bs: seq<byte>, e: Posting)
    requires Encodes(bs, e)
    ensures ValidRecord(e)
  {}

  /** buffer_put for one term: its record applies to the term's map, and no other term changes. */
  method PutSlot(b: Segment, i: nat, pos: nat, bs: seq<byte>, id: DocId, ghost e: Posting)
    requires BufferOk(b) && i < |b.terms| && b.terms[i].tid != 0
    requires Encodes(bs, e) && id == e.id
    requires Unused(b.recs, Base(b), pos, REC_SIZE + |bs|)
    modifies b`recs, b`content, b`terms, b`live, b`own
    ensures BufferOk(b) && |b.terms| == old(|b.terms|)
    ensures forall j :: 0 <= j < |b.terms| ==> b.terms[j].tid == old(b.terms[j].tid)
    ensures b.recs.Keys == old(b.recs.Keys) + {pos} && b.recs[pos].data == bs
    ensures forall p :: p in old(b.recs) ==> b.recs[p].data == old(b.recs)[p].data
    ensures ToMap(SlotPostings(b, i)) == Apply(ToMap(old(SlotPostings(b, i))), e)
    ensures forall j :: 0 <= j < |b.terms| && j != i && b.terms[j].tid != 0 ==>
              SlotPostings(b, j) == old(SlotPostings(b, j))
  {
    hide BufferOk, Pending, SlotPostings, Encodes, Unused, Base, ToMap, Apply, PutSpec, Merge;
    forall j | 0 <= j < |b.terms| && b.terms[j].tid != 0
      ensures j < |b.stored| && SlotPostings(b, j) == Merge(b.stored[j], Pending(b, j))
    {
      SlotIs(b, j);
    }
    SlotIs(b, i);
    ghost var stored, pending := b.stored[i], Pending(b, i);
    EncodesValid(bs, e);
    PutApplies(stored, pending, e);
    PutAt(b, i, pos, bs, id, e);
    forall j | 0 <= j < |b.terms| && b.terms[j].tid != 0
      ensures j < |b.stored| && SlotPostings(b, j) == Merge(b.stored[j], Pending(b, j))
    {
      SlotIs(b, j);
    }
  }

  /** Reserve bytes below the others and put the record there. */
  method PutBelow(b: Segment, i: nat, bs: seq<byte>, id: DocId, ghost e: Posting)
    requires BufferOk(b) && i < |b.terms| && b.terms[i].tid != 0
    requires Encodes(bs, e) && id == e.id && |bs| % REC_SIZE == 0 && REC_SIZE + |bs| <= b.free
    modifies b`free, b`recs, b`content, b`terms, b`live, b`own
    ensures BufferOk(b) && |b.terms| == old(|b.terms|) && b.free == old(b.free) - REC_SIZE - |bs|
    ensures forall j :: 0 <= j < |b.terms| ==> b.terms[j].tid == old(b.terms[j].tid)
    ensures ToMap(SlotPostings(b, i)) == Apply(ToMap(old(SlotPostings(b, i))), e)
    ensures forall j :: 0 <= j < |b.terms| && j != i && b.terms[j].tid != 0 ==>
              SlotPostings(b, j) == old(SlotPostings(b, j))
  {
    hide BufferOk, Encodes, Unused, Base, ToMap, Apply, Merge, SlotPostings;
    var pos := Reserve(b, REC_SIZE + |bs|);
    PutSlot(b, i, pos, bs, id, e);
  }

  lemma SomeVoid(ts: seq<Term>)
    requires Voids(ts) > 0
    ensures exists i :: 0 <= i < |ts| && ts[i].tid == 0
  {}

  lemma VoidsFill(ts: seq<Term>, i: nat, t: Term)
    requires i < |ts| && t.tid != 0 && ts[i].tid == 0 && t.sizeInChunk == 0
    ensures Voids(ts) > 0 && Voids(ts[i := t]) == Voids(ts) - 1 && ChunkBytes(ts[i := t]) == ChunkBytes(ts)
  {
    if i + 1 < |ts| {
      VoidsFill(ts[..|ts| - 1], i, t);
      assert ts[i := t][..|ts| - 1] == ts[..|ts| - 1][i := t];
    } else {
      assert ts[i := t][..i] == ts[..i];
    }
  }

  lemma VoidsSnoc(ts: seq<Term>, t: Term)
    ensures Voids(ts + [t]) == Voids(ts) + if t.tid == 0 then 1 else 0
    ensures ChunkBytes(ts + [t]) == ChunkBytes(ts) + if t.tid == 0 then 0 else t.sizeInChunk
  {}

  lemma TermsFill(ts: seq<Term>, m: Mem, c: Content, live: seq<seq<nat>>, own: seq<set<nat>>, chunk: seq<byte>,
                  stored: seq<seq<Posting>>, i: nat, key: nat)
    requires TermsOk(ts, m, c, live, own, chunk, stored) && i < |ts| && ts[i].tid == 0 && key != 0
    ensures live[i] == []
    ensures TermsOk(ts[i := Term(key, 0, 0, 0, 0)], m, c, live, own, chunk, stored[i := []])
  {}

  lemma TermsSnoc(ts: seq<Term>, m: Mem, c: Content, live: seq<seq<nat>>, own: seq<set<nat>>, chunk: seq<byte>,
                  stored: seq<seq<Posting>>, key: nat)
    requires TermsOk(ts, m, c, live, own, chunk, stored) && key != 0
    ensures TermsOk(ts + [Term(key, 0, 0, 0, 0)], m, c, live + [[]], own + [{}], chunk, stored + [[]])
  {}

  // ---------------------------------------------------------------- what a buffer has room for

  /** The terms of the slots, the free bytes, and the size of the chunk. */
  datatype Shape = Shape(slots: seq<nat>, free: int, chunk: nat)

  function Tids(ts: seq<Term>): (r: seq<nat>)
    ensures |r| == |ts|
  {
    seq(|ts|, i requires 0 <= i < |ts| => ts[i].tid)
  }

  function ShapeOf(b: Segment): Shape
    reads b
  {
    Shape(Tids(b.terms), b.free, |b.chunk|)
  }

  /** The first slot that was cleared, or the one behind all. */
  function FirstVoid(slots: seq<nat>): (i: nat)
    ensures i <= |slots| && (i < |slots| ==> slots[i] == 0) && forall j :: 0 <= j < i ==> slots[j] != 0
  {
    if |slots| == 0 || slots[0] == 0 then 0 else FirstVoid(slots[1..]) + 1
  }

  /** With one more slot in use, and `size` bytes of records. */
  function Placed(sh: Shape, key: nat, size: nat): Shape {
    var i := FirstVoid(sh.slots);
    if i < |sh.slots| then sh.(slots := sh.slots[i := key], free := sh.free - size)
    else sh.(slots := sh.slots + [key], free := sh.free - (size + TERM_SIZE))
  }

  lemma PlacedAt(sh: Shape, key: nat, size: nat, i: nat)
    requires i <= |sh.slots| && (i < |sh.slots| ==> sh.slots[i] == 0) && forall j :: 0 <= j < i ==> sh.slots[j] != 0
    ensures
      Placed(sh, key, size) ==
        if i < |sh.slots| then sh.(slots := sh.slots[i := key], free := sh.free - size)
        else sh.(slots := sh.slots + [key], free := sh.free - (size + TERM_SIZE))
  {}

  lemma NoVoid(ts: seq<Term>)
    requires Voids(ts) == 0
    ensures forall i :: 0 <= i < |ts| ==> ts[i].tid != 0
  {}

  /** buffer_new: the first slot that was cleared. */
  method FindVoid(ts: seq<Term>) returns (i: nat)
    requires Voids(ts) > 0
    ensures i < |ts| && ts[i].tid == 0 && forall j :: 0 <= j < i ==> ts[j].tid != 0
  {
    hide Voids;
    SomeVoid(ts);
    i := 0;
    while ts[i].tid != 0
      invariant i < |ts| && exists k :: i <= k < |ts| && ts[k].tid == 0
      invariant forall j :: 0 <= j < i ==> ts[j].tid != 0
      decreases |ts| - i
    {
      i := i + 1;
    }
  }

  /** A slot that was cleared is used again. */
  method FillVoid(b: Segment, key: nat, size: nat) returns (i: nat)
    requires BufferOk(b) && key != 0 && size % REC_SIZE == 0 && size <= b.free && b.nvoid > 0
    modifies b`terms, b`free, b`nvoid, b`stored
    ensures BufferOk(b) && Base(b) == old(Base(b)) - size
    ensures i < |b.terms| == |old(b.terms)| && old(b.terms)[i].tid == 0 && b.terms[i].tid == key
    ensures b.free == old(b.free) - size && forall j :: 0 <= j < i ==> old(b.terms)[j].tid != 0
    ensures SameSlot(b, i, [], [])
    ensures forall j :: 0 <= j < |old(b.terms)| && j != i ==>
              b.terms[j] == old(b.terms)[j] && SameSlot(b, j, old(Pending(b, j)), old(b.stored[j]))
  {
    hide Coded, TermsOk, TermOk, Voids, ChunkBytes, Chain, Jumps, Holds, Entries;
    LensOk(b);
    i := FindVoid(b.terms);
    TermsFill(b.terms, b.recs, b.content, b.live, b.own, b.chunk, b.stored, i, key);
    VoidsFill(b.terms, i, Term(key, 0, 0, 0, 0));
    b.nvoid := b.nvoid - 1;
    b.free := b.free - size;
    b.terms := b.terms[i := Term(key, 0, 0, 0, 0)];
    b.stored := b.stored[i := []];
  }

  /** A slot behind the others. */
  method AddSlot(b: Segment, key: nat, size: nat) returns (i: nat)
    requires BufferOk(b) && key != 0 && size % REC_SIZE == 0 && size + TERM_SIZE <= b.free
    modifies b`terms, b`free, b`live, b`own, b`stored
    ensures BufferOk(b) && Base(b) == old(Base(b)) - size
    ensures i == |old(b.terms)| && |b.terms| == i + 1 && b.terms[i].tid == key
    ensures b.free == old(b.free) - (size + TERM_SIZE)
    ensures SameSlot(b, i, [], [])
    ensures forall j :: 0 <= j < i ==>
              b.terms[j] == old(b.terms)[j] && SameSlot(b, j, old(Pending(b, j)), old(b.stored[j]))
  {
    hide Coded, TermsOk;
    LensOk(b);
    TermsSnoc(b.terms, b.recs, b.content, b.live, b.own, b.chunk, b.stored, key);
    VoidsSnoc(b.terms, Term(key, 0, 0, 0, 0));
    i := |b.terms|;
    b.free := b.free - (size + TERM_SIZE);
    b.terms := b.terms + [Term(key, 0, 0, 0, 0)];
    b.live, b.own, b.stored := b.live + [[]], b.own + [{}], b.stored + [[]];
  }

  /** buffer_new, in a segment with room: a slot for `key`, and `size` bytes for records. */
  method NewSlot(b: Segment, key: nat, size: nat) returns (i: nat, pos: nat)
    requires BufferOk(b) && key != 0 && size % REC_SIZE == 0 && size + TERM_SIZE <= b.free
    modifies b`terms, b`free, b`nvoid, b`live, b`own, b`stored
    ensures BufferOk(b) && i < |b.terms| && b.terms[i].tid == key
    ensures ShapeOf(b) == Placed(old(ShapeOf(b)), key, size)
    ensures SameSlot(b, i, [], [])
    ensures REC_SIZE * pos == Base(b) && Unused(b.recs, Base(b), pos, size)
    ensures i <= |old(b.terms)| && (i < |old(b.terms)| ==> old(b.terms)[i].tid == 0)
    ensures |b.terms| == if i < |old(b.terms)| then |old(b.terms)| else i + 1
    ensures forall j :: 0 <= j < |old(b.terms)| && j != i ==>
              b.terms[j] == old(b.terms)[j] && SameSlot(b, j, old(Pending(b, j)), old(b.stored[j]))
  {
    hide BufferOk, Space, Unused, SameSlot, Pending, Placed, FirstVoid;
    ghost var base, sh := Base(b), ShapeOf(b);
    SpaceOf(b);
    if b.nvoid > 0 {
      i := FillVoid(b, key, size);
    } else {
      VoidsOf(b);
      NoVoid(b.terms);
      i := AddSlot(b, key, size);
    }
    PlacedAt(sh, key, size, i);
    assert Tids(b.terms) == if i < |sh.slots| then sh.slots[i := key] else sh.slots + [key];
    SpaceOf(b);
    pos := (HEADER_SIZE + TERM_SIZE * |b.terms| + b.free) / REC_SIZE;
    SpaceLower(b.recs, base, Base(b), pos, size);
  }

  lemma VoidsOf(b: Segment)
    requires BufferOk(b)
    ensures b.nvoid == Voids(b.terms)
  {}

  lemma LensOk(b: Segment)
    requires BufferOk(b)
    ensures |b.live| == |b.own| == |b.stored| == |b.terms|
  {}

  ghost predicate SameSlot(b: Segment, j: nat, pending: seq<Posting>, stored: seq<Posting>)
    requires BufferOk(b) && j < |b.terms|
    reads b
  {
    Pending(b, j) == pending && j < |b.stored| && b.stored[j] == stored
  }

  lemma SpaceOf(b: Segment)
    requires BufferOk(b)
    ensures Space(b.recs, Base(b)) && HEADER_SIZE <= Base(b) <= SEGMENT_SIZE && Base(b) % REC_SIZE == 0
    ensures |b.live| == |b.own| == |b.stored| == |b.terms|
  {}

  lemma SpaceLower(m: Mem, base: int, base2: int, pos: nat, size: nat)
    requires Space(m, base) && base2 + size <= base <= SEGMENT_SIZE && REC_SIZE * pos == base2
    ensures Unused(m, base2, pos, size)
  {}

  lemma UnusedPart(m: Mem, base: int, pos: nat, size: nat, pos2: nat, size2: nat)
    requires Unused(m, base, pos, size)
    requires REC_SIZE * pos <= REC_SIZE * pos2 && REC_SIZE * pos2 + size2 <= REC_SIZE * pos + size
    ensures Unused(m, base, pos2, size2)
  {}

  lemma UnusedAbove(m: Mem, m2: Mem, base: int, pos: nat, bs: seq<byte>, pos2: nat, size2: nat)
    requires Unused(m, base, pos2, size2) && REC_SIZE * pos + REC_SIZE + |bs| <= REC_SIZE * pos2
    requires m2.Keys == m.Keys + {pos} && m2[pos].data == bs
    requires forall p :: p in m ==> m2[p].data == m[p].data
    ensures Unused(m2, base, pos2, size2)
  {}

  lemma EmptySlot(b: Segment, i: nat)
    requires BufferOk(b) && i < |b.terms| && b.terms[i].tid != 0 && SameSlot(b, i, [], [])
    ensures ToMap(SlotPostings(b, i)) == map[]
  {
    SlotIs(b, i);
  }

  lemma SameSlotMeans(b: Segment, j: nat, pending: seq<Posting>, stored: seq<Posting>)
    requires BufferOk(b) && j < |b.terms| && b.terms[j].tid != 0 && SameSlot(b, j, pending, stored)
    ensures SlotPostings(b, j) == Merge(stored, pending)
  {
    SlotIs(b, j);
  }

  /** Slots other than `i` are as they were. */
  twostate predicate OthersKept(b: Segment, i: nat)
    reads b
    requires old(BufferOk(b)) && BufferOk(b)
  {
    && old(|b.terms|) <= |b.terms|
    && forall j :: 0 <= j < old(|b.terms|) && j != i ==>
         && b.terms[j].tid == old(b.terms[j].tid)
         && (b.terms[j].tid != 0 ==> SlotPostings(b, j) == old(SlotPostings(b, j)))
  }

  /** The bytes of a record. */
  ghost predicate IsRecord(bs: seq<byte>, id: DocId, e: Posting) {
    Encodes(bs, e) && id == e.id && |bs| % REC_SIZE == 0
  }

  /** What one record makes of nothing, or a second one after it. */
  ghost function MapOf(had: bool, e2: Posting, e: Posting): Postings {
    Apply(if had then Apply(map[], e2) else map[], e)
  }

  /** The bytes of one record, or of two. */
  function BytesOf(had: bool, bs2: seq<byte>, bs: seq<byte>): nat {
    REC_SIZE + |bs| + if had then REC_SIZE + |bs2| else 0
  }

  /** buffer_new for a term that had no slot, or only a packed posting (`had`, with record `bs2`). */
  method PutFirst(b: Segment, key: nat, had: bool, bs2: seq<byte>, id2: DocId, ghost e2: Posting,
                  bs: seq<byte>, id: DocId, ghost e: Posting) returns (i: nat)
    requires BufferOk(b) && key != 0
    requires IsRecord(bs, id, e) && (had ==> IsRecord(bs2, id2, e2)) && BytesOf(had, bs2, bs) + TERM_SIZE <= b.free
    modifies b`free, b`terms, b`nvoid, b`recs, b`content, b`live, b`own, b`stored
    ensures ShapeOf(b) == Placed(old(ShapeOf(b)), key, BytesOf(had, bs2, bs))
    ensures BufferOk(b) && i < |b.terms| && b.terms[i].tid == key
    ensures ToMap(SlotPostings(b, i)) == MapOf(had, e2, e)
    ensures |b.terms| == if i < |old(b.terms)| then |old(b.terms)| else i + 1
    ensures i <= |old(b.terms)| && (i < |old(b.terms)| ==> old(b.terms)[i].tid == 0)
    ensures OthersKept(b, i)
  {
    hide BufferOk, Encodes, Unused, ToMap, Apply, Merge, SlotPostings, Pending, Placed;
    forall j | 0 <= j < |b.terms| && b.terms[j].tid != 0
      ensures j < |b.stored| && SlotPostings(b, j) == Merge(b.stored[j], Pending(b, j))
    {
      SlotIs(b, j);
    }
    var size2 := if had then REC_SIZE + |bs2| else 0;
    var pos;
    i, pos := NewSlot(b, key, REC_SIZE + |bs| + size2);
    EmptySlot(b, i);
    forall j | 0 <= j < |old(b.terms)| && j != i && b.terms[j].tid != 0
      ensures SlotPostings(b, j) == old(SlotPostings(b, j))
    {
      SameSlotMeans(b, j, old(Pending(b, j)), old(b.stored[j]));
    }
    var pos1 := pos + size2 / REC_SIZE;
    UnusedPart(b.recs, Base(b), pos, REC_SIZE + |bs| + size2, pos1, REC_SIZE + |bs|);
    if had {
      UnusedPart(b.recs, Base(b), pos, REC_SIZE + |bs| + size2, pos, size2);
      ghost var m, tids := b.recs, Tids(b.terms);
      PutSlot(b, i, pos, bs2, id2, e2);
      assert Tids(b.terms) == tids;
      UnusedAbove(m, b.recs, Base(b), pos, bs2, pos1, REC_SIZE + |bs|);
    }
    ghost var tids := Tids(b.terms);
    PutSlot(b, i, pos1, bs, id, e);
    assert Tids(b.terms) == tids;
  }
}
