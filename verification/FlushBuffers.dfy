/**
 * buffer_flush (`lib/inv.c`): every term of a buffer is merged into a new chunk, or into a single
 * packed word when only one small posting is left of it, or dropped when none is.
 */
module FlushBuffers {
  import opened ByteCodec
  import opened PostingCodec
  import opened BufferList
  import opened Merging
  import opened PostingWriters
  import opened ChunkReaders
  import opened FlushTerms
  import opened Buffers
  import opened ImageBounds
  import opened BufferSizes

  // ---------------------------------------------------------------- packed words

  const RID_LIMIT := 0x10_0000
  const SID_LIMIT := 0x800
  const POS_LIMIT := 0x4000

  function PackedWord(id: DocId): nat {
    id.rid * 0x1000 + id.sid * 2 + 1
  }

  function PackedId(w: nat): DocId
    requires w / 0x1000 < RID_LIMIT
  {
    DocId(w / 0x1000, w / 2 % 0x800)
  }

  lemma PackedIdBack(id: DocId)
    requires id.rid < RID_LIMIT && id.sid < SID_LIMIT
    ensures
      var w := PackedWord(id);
      w % 2 == 1 && w / 0x1000 == id.rid && PackedId(w) == id
  {
    var w := PackedWord(id);
    assert w / 2 == id.rid * 0x800 + id.sid;
  }

  /** What becomes of a term when its buffer is flushed. */
  datatype Outcome = Gone | Sole(id: DocId, pos: u32) | Kept(image: seq<byte>)

  /** Postings that need no slot: none, or a single one that fits into a word. */
  predicate Compact(ps: seq<Posting>) {
    ps == [] || (|ps| == 1 && Packable(ps[0]))
  }

  predicate Packable(p: Posting) {
    && p.id.rid < RID_LIMIT && p.id.sid < SID_LIMIT
    && |p.gaps| == 1 && p.score == 0 && p.gaps[0] < POS_LIMIT
  }

  /** The bytes of the new chunk that postings take. */
  ghost function ImageSize(ps: seq<Posting>): nat {
    if !Compact(ps) && Sorted(NONE, ps) && |Headers(CLEAR, NONE, ps)| < TWO32 then |Image(ps)| else 0
  }

  ghost function ImageSizes(lists: seq<seq<Posting>>): nat {
    if |lists| == 0 then 0 else ImageSizes(lists[..|lists| - 1]) + ImageSize(lists[|lists| - 1])
  }

  lemma ImageSizesSnoc(lists: seq<seq<Posting>>, ps: seq<Posting>)
    ensures ImageSizes(lists + [ps]) == ImageSizes(lists) + ImageSize(ps)
  {}

  /** The postings of every slot. */
  ghost function SlotLists(b: Segment): (r: seq<seq<Posting>>)
    requires BufferOk(b)
    reads b
    ensures |r| == |b.terms|
  {
    seq(|b.terms|, i requires 0 <= i < |b.terms| reads b requires BufferOk(b) =>
      if b.terms[i].tid == 0 then [] else SlotPostings(b, i))
  }

  /** What the images of the first n slots come to. */
  lemma {:induction false} ImagesUpTo(b: Segment, n: nat)
    requires BufferOk(b) && n <= |b.terms|
    ensures n <= |b.live|
    ensures ImageSizes(SlotLists(b)[..n]) <= ChunkBytes(b.terms[..n]) + LiveSize(b.recs, b.live[..n]) + 5 * n
    decreases n
  {
    hide BufferOk, ImageSize, Cost, ListSize, SlotPostings;
    LensOk(b);
    if n > 0 {
      var k := n - 1;
      ImagesUpTo(b, k);
      assert SlotLists(b)[..n][..k] == SlotLists(b)[..k] && b.terms[..n][..k] == b.terms[..k];
      assert b.live[..n][..k] == b.live[..k];
      if b.terms[k].tid != 0 {
        SlotCost(b, k);
        ImageCost(SlotPostings(b, k));
      } else {
        NoImages();
      }
    }
  }

  lemma ImageCost(ps: seq<Posting>)
    requires Sorted(NONE, ps)
    ensures ImageSize(ps) <= Cost(ps) + 5
  {}

  /** The space that buffer_flush reserves, for the old images and a segment more, is enough for the new ones. */
  lemma ImagesFit(b: Segment)
    requires BufferOk(b)
    ensures ImageSizes(SlotLists(b)) <= |b.chunk| + SEGMENT_SIZE
    ensures forall i :: 0 <= i < |b.terms| && b.terms[i].tid != 0 ==>
        Cost(SlotPostings(b, i)) <= |b.chunk| + SEGMENT_SIZE
  {
    hide ImageSizes, Cost, ListSize, LiveSize, SlotPostings, ChunkBytes, SlotLists, BufferOk;
    LensOk(b);
    ImagesUpTo(b, |b.terms|);
    RecordsFit(b);
    ChunkBytesOf(b);
    assert SlotLists(b)[..|b.terms|] == SlotLists(b) && b.terms[..|b.terms|] == b.terms && b.live[..|b.live|] == b.live;
    forall i | 0 <= i < |b.terms| && b.terms[i].tid != 0
      ensures Cost(SlotPostings(b, i)) <= |b.chunk| + SEGMENT_SIZE
    {
      SlotCost(b, i);
      PartOfAll(b.terms, i);
      ListOfLive(b.recs, b.live, i);
    }
  }

  lemma ChunkBytesOf(b: Segment)
    requires BufferOk(b)
    ensures ChunkBytes(b.terms) <= |b.chunk| && b.free >= 0
  {}

  lemma PartOfAll(ts: seq<Term>, i: nat)
    requires i < |ts|
    ensures ts[i].tid != 0 ==> ts[i].sizeInChunk <= ChunkBytes(ts)
  {}

  lemma ListOfLive(m: Mem, live: seq<seq<nat>>, i: nat)
    requires i < |live|
    ensures ListSize(m, live[i]) <= LiveSize(m, live)
  {}

  /** The outcome stands for the postings `ps`. */
  ghost predicate Keeps(o: Outcome, ps: seq<Posting>) {
    match o
    case Gone => ps == []
    case Sole(id, pos) =>
      && 1 <= id.rid < RID_LIMIT && 1 <= id.sid < SID_LIMIT && pos < POS_LIMIT
      && ps == [Posting(id, 0, [pos])]
    case Kept(image) => Holds(image, ps) && !Compact(ps)
  }

  lemma SolePosition(p: Posting, ps: seq<Posting>)
    requires |ps| == 1 && ps[0] == p && |p.gaps| == 1
    ensures DecB(Bodies(ps)) == (p.gaps[0], [])
  {
    hide EncB, DecB;
    assert Bodies(ps[1..]) == [] && EncGaps(p.gaps[1..]) == [];
    assert Bodies(ps) == EncGaps(p.gaps) + [];
    assert EncGaps(p.gaps) == EncB(p.gaps[0]) + [];
    assert Bodies(ps) == EncB(p.gaps[0]) + [];
    DecEncB(p.gaps[0], []);
  }

  lemma ImageBytes(ps: seq<Posting>)
    requires Sorted(NONE, ps) && |Headers(CLEAR, NONE, ps)| < TWO32
    ensures Image(ps) == EncB(|Headers(CLEAR, NONE, ps)|) + Headers(CLEAR, NONE, ps) + Bodies(ps)
  {}

  /** One term of buffer_flush. The header length fits its 32-bit field, as space was found for the chunk. */
  method FlushSlot(sb: Segment, i: nat) returns (o: Outcome)
    requires BufferOk(sb) && i < |sb.terms| && sb.terms[i].tid != 0 && |sb.chunk| + SEGMENT_SIZE < TWO32
    ensures Keeps(o, SlotPostings(sb, i))
  {
    hide EncB, DecB, Holds, TermRecords, Headers, Bodies, BufferOk, TermOk, Merge, Sorted, ImageSizes, SlotLists;
    SlotFacts(sb, i);
    ImagesFit(sb);
    var bt := sb.terms[i];
    var sc := sb.chunk[bt.posInChunk..bt.posInChunk + bt.sizeInChunk];
    var w := MergeTerm(sc, sb.recs, bt.posInBuffer, sb.stored[i], sb.content, sb.live[i]);
    ghost var ps := SlotPostings(sb, i);
    assert w.plan == ps;
    o := Gone;
    if w.ndf == 0 {
      return;
    }
    if w.ndf == 1 && w.id.rid < RID_LIMIT && w.id.sid < SID_LIMIT && w.tf == 1 && w.score == 0 {
      ghost var p := ps[0];
      SolePosition(p, ps);
      FirstStored(ps);
      var (pos, _) := DecB(w.tp);
      if pos < POS_LIMIT {
        o := Sole(w.id, pos);
        assert p.gaps == [pos];
        assert ps == [Posting(w.id, 0, [pos])];
        return;
      }
    }
    ImageBytes(ps);
    ImageHolds(ps);
    o := Kept(EncB(|w.tc|) + w.tc + w.tp);
  }

  lemma FirstStored(ps: seq<Posting>)
    requires Sorted(NONE, ps) && |ps| > 0
    ensures Stored(ps[0])
  {}

  lemma ImageHolds(ps: seq<Posting>)
    requires Sorted(NONE, ps) && |Headers(CLEAR, NONE, ps)| < TWO32
    ensures Holds(Image(ps), ps)
  {}

  // ---------------------------------------------------------------- the whole buffer

  /** The words of an index: 0, a packed posting, or (even) the address of a term slot. */
  type Words = map<nat, nat>
  type Pockets = map<nat, u32>

  function WordAt(a: Words, t: nat): nat {
    if t in a then a[t] else 0
  }

  ghost predicate WordOk(a: Words, pk: Pockets, t: nat) {
    var w := WordAt(a, t);
    w % 2 == 1 ==>
      && 1 <= w / 0x1000 < RID_LIMIT && PackedId(w).sid >= 1
      && t in pk && pk[t] < POS_LIMIT
  }

  /** The posting that a packed word stands for. */
  ghost function PackedList(a: Words, pk: Pockets, t: nat): (ps: seq<Posting>)
    requires WordOk(a, pk, t)
    ensures WordAt(a, t) % 2 == 1 || WordAt(a, t) == 0 ==> Sorted(NONE, ps)
  {
    var w := WordAt(a, t);
    if w % 2 == 1 then [Posting(PackedId(w), 0, [pk[t]])] else []
  }

  /** A word, outside any buffer, that stands for `ps`. */
  ghost predicate Packed(a: Words, pk: Pockets, t: nat, ps: seq<Posting>) {
    && WordOk(a, pk, t) && (WordAt(a, t) == 0 || WordAt(a, t) % 2 == 1)
    && PackedList(a, pk, t) == ps
  }

  /** Slot `i` of the old buffer has been dealt with: `t2` and the chunk `dc`, or the word, stand for `ps`. */
  ghost predicate Done(key: nat, ps: seq<Posting>, t2: Term, stored2: seq<Posting>, dc: seq<byte>,
                       a: Words, a2: Words, pk2: Pockets) {
    && t2.sizeInBuffer == 0 && t2.posInBuffer == 0
    && if t2.tid == 0 then Packed(a2, pk2, key, ps)
       else
         && !Compact(ps) && t2.tid == key && stored2 == ps && WordAt(a2, key) == WordAt(a, key)
         && t2.posInChunk + t2.sizeInChunk <= |dc|
         && Holds(dc[t2.posInChunk..t2.posInChunk + t2.sizeInChunk], stored2)
  }

  lemma DoneFrame(key: nat, ps: seq<Posting>, t2: Term, stored2: seq<Posting>, dc: seq<byte>, more: seq<byte>,
                  a: Words, a2: Words, pk2: Pockets, a3: Words, pk3: Pockets)
    requires Done(key, ps, t2, stored2, dc, a, a2, pk2)
    requires WordAt(a3, key) == WordAt(a2, key) && (key in pk2 ==> key in pk3 && pk3[key] == pk2[key])
    ensures Done(key, ps, t2, stored2, dc + more, a, a3, pk3)
  {
    hide Holds;
    if t2.tid != 0 {
      var x, n := t2.posInChunk, t2.sizeInChunk;
      assert (dc + more)[x..x + n] == dc[x..x + n];
    }
  }

  lemma DoneGone(key: nat, ps: seq<Posting>, o: Outcome, dc: seq<byte>, a: Words, a2: Words, pk2: Pockets)
    requires o.Gone? && Keeps(o, ps) && a2 == a2[key := 0]
    ensures Done(key, ps, Term(0, 0, 0, 0, 0), [], dc, a, a2, pk2)
  {}

  lemma DoneSole(key: nat, ps: seq<Posting>, o: Outcome, dc: seq<byte>, a: Words, a2: Words, pk2: Pockets)
    requires o.Sole? && Keeps(o, ps) && a2 == a2[key := PackedWord(o.id)] && pk2 == pk2[key := o.pos]
    ensures Done(key, ps, Term(0, 0, 0, 0, 0), [], dc, a, a2, pk2)
  {}

  lemma DoneKept(key: nat, ps: seq<Posting>, o: Outcome, dc: seq<byte>, a: Words, a2: Words, pk2: Pockets)
    requires o.Kept? && Keeps(o, ps) && key != 0 && WordAt(a2, key) == WordAt(a, key)
    ensures Done(key, ps, Term(key, |o.image|, |dc|, 0, 0), ps, dc + o.image, a, a2, pk2)
  {}

  /** Slots have different terms. */
  ghost predicate DistinctTerms(ts: seq<Term>) {
    forall i, j :: 0 <= i < j < |ts| && ts[i].tid != 0 ==> ts[i].tid != ts[j].tid
  }

  /** The words of the terms in the first `n` slots may have changed, and no others. */
  ghost predicate Untouched(ts: seq<Term>, n: nat, a: Words, pk: Pockets, a2: Words, pk2: Pockets)
    requires n <= |ts|
  {
    && (forall t :: WordAt(a2, t) != WordAt(a, t) || (t in pk && (t !in pk2 || pk2[t] != pk[t])) ==>
          exists j :: 0 <= j < n && ts[j].tid == t && t != 0)
    && (forall t :: t in a2 ==> t in a || t != 0)
  }

  lemma UntouchedNext(ts: seq<Term>, n: nat, a: Words, pk: Pockets, a2: Words, pk2: Pockets, a3: Words, pk3: Pockets)
    requires n < |ts| && Untouched(ts, n, a, pk, a2, pk2)
    requires forall t :: t != ts[n].tid || t == 0 ==>
               WordAt(a3, t) == WordAt(a2, t) && (t in pk2 ==> t in pk3 && pk3[t] == pk2[t])
    requires forall t :: t in a3 ==> t in a2 || t != 0
    ensures Untouched(ts, n + 1, a, pk, a3, pk3)
  {}

  lemma UntouchedWord(ts: seq<Term>, n: nat, a: Words, pk: Pockets, a2: Words, pk2: Pockets)
    requires n < |ts| && DistinctTerms(ts) && ts[n].tid != 0 && Untouched(ts, n, a, pk, a2, pk2)
    ensures WordAt(a2, ts[n].tid) == WordAt(a, ts[n].tid)
  {}

  /** The first `n` slots of `sb` are dealt with. */
  ghost predicate AllDone(sb: Segment, n: nat, ts: seq<Term>, stored: seq<seq<Posting>>, dc: seq<byte>,
                          a: Words, a2: Words, pk2: Pockets)
    requires BufferOk(sb) && n <= |sb.terms|
    reads sb
  {
    && |ts| == n && |stored| == n
    && forall i :: 0 <= i < n ==>
         if sb.terms[i].tid == 0 then ts[i] == Term(0, 0, 0, 0, 0)
         else Done(sb.terms[i].tid, SlotPostings(sb, i), ts[i], stored[i], dc, a, a2, pk2)
  }

  lemma AllDoneNext(sb: Segment, n: nat, ts: seq<Term>, stored: seq<seq<Posting>>, dc: seq<byte>, more: seq<byte>,
                    a: Words, a2: Words, pk2: Pockets, a3: Words, pk3: Pockets, t: Term, ps: seq<Posting>)
    requires BufferOk(sb) && n < |sb.terms| && DistinctTerms(sb.terms)
    requires AllDone(sb, n, ts, stored, dc, a, a2, pk2)
    requires if sb.terms[n].tid == 0 then t == Term(0, 0, 0, 0, 0)
             else Done(sb.terms[n].tid, SlotPostings(sb, n), t, ps, dc + more, a, a3, pk3)
    requires forall k :: k != sb.terms[n].tid || k == 0 ==>
               WordAt(a3, k) == WordAt(a2, k) && (k in pk2 ==> k in pk3 && pk3[k] == pk2[k])
    ensures AllDone(sb, n + 1, ts + [t], stored + [ps], dc + more, a, a3, pk3)
  {
    hide Done, SlotPostings;
    forall i | 0 <= i < n && sb.terms[i].tid != 0
      ensures Done(sb.terms[i].tid, SlotPostings(sb, i), ts[i], stored[i], dc + more, a, a3, pk3)
    {
      DoneFrame(sb.terms[i].tid, SlotPostings(sb, i), ts[i], stored[i], dc, more, a, a2, pk2, a3, pk3);
    }
  }

  /** buffer_flush: the terms of `sb`, one after the other, into a new chunk. */
  method FlushAll(sb: Segment, a: Words, pk: Pockets)
    returns (dc: seq<byte>, ts: seq<Term>, nvoid: nat, a2: Words, pk2: Pockets, ghost stored: seq<seq<Posting>>)
    requires BufferOk(sb) && DistinctTerms(sb.terms) && |sb.chunk| + SEGMENT_SIZE < TWO32
    ensures AllDone(sb, |sb.terms|, ts, stored, dc, a, a2, pk2) && |dc| == ImageSizes(SlotLists(sb)) == ChunkBytes(ts)
    ensures Untouched(sb.terms, |sb.terms|, a, pk, a2, pk2) && nvoid == Voids(ts)
  {
    hide BufferOk, Done, Keeps, SlotPostings, Untouched, AllDone, DistinctTerms, ImageSize, ImageSizes;
    ghost var lists := SlotLists(sb);
    NoImages();
    dc, ts, nvoid, a2, pk2, stored := [], [], 0, a, pk, [];
    var n := 0;
    UntouchedNone(sb.terms, a, pk);
    AllDoneNone(sb, a, pk);
    while n < |sb.terms|
      invariant n <= |sb.terms|
      invariant AllDone(sb, n, ts, stored, dc, a, a2, pk2)
      invariant |dc| == ImageSizes(lists[..n]) == ChunkBytes(ts)
      invariant Untouched(sb.terms, n, a, pk, a2, pk2) && nvoid == Voids(ts)
    {
      var key := sb.terms[n].tid;
      var t, more, a3, pk3 := Term(0, 0, 0, 0, 0), [], a2, pk2;
      ghost var ps := [];
      assert lists[..n + 1] == lists[..n] + [lists[n]];
      ImageSizesSnoc(lists[..n], lists[n]);
      if key != 0 {
        ps := SlotPostings(sb, n);
        UntouchedWord(sb.terms, n, a, pk, a2, pk2);
        var o := FlushSlot(sb, n);
        OutcomeSize(o, ps);
        match o {
          case Gone =>
            a3, pk3 := a2[key := 0], pk2[key := 0];
            DoneGone(key, ps, o, dc + more, a, a3, pk3);
            ps := [];
          case Sole(id, pos) =>
            a3, pk3 := a2[key := PackedWord(id)], pk2[key := pos];
            DoneSole(key, ps, o, dc + more, a, a3, pk3);
            ps := [];
          case Kept(image) =>
            t, more := Term(key, |image|, |dc|, 0, 0), image;
            DoneKept(key, ps, o, dc, a, a3, pk3);
        }
      }
      AllDoneNext(sb, n, ts, stored, dc, more, a, a2, pk2, a3, pk3, t, ps);
      UntouchedNext(sb.terms, n, a, pk, a2, pk2, a3, pk3);
      VoidsSnoc(ts, t);
      if t.tid == 0 {
        nvoid := nvoid + 1;
      }
      dc, ts, stored, a2, pk2 := dc + more, ts + [t], stored + [ps], a3, pk3;
      n := n + 1;
    }
    assert lists[..n] == lists;
  }

  lemma NoImages()
    ensures ImageSizes([]) == 0 && ImageSize([]) == 0
  {}

  lemma OutcomeSize(o: Outcome, ps: seq<Posting>)
    requires Keeps(o, ps)
    ensures ImageSize(ps) == if o.Kept? then |o.image| else 0
  {}

  lemma UntouchedNone(ts: seq<Term>, a: Words, pk: Pockets)
    ensures Untouched(ts, 0, a, pk, a, pk)
  {}

  lemma AllDoneNone(sb: Segment, a: Words, pk: Pockets)
    requires BufferOk(sb)
    ensures AllDone(sb, 0, [], [], [], a, a, pk)
  {}

  /** The slot of a buffer after a flush: still there with the same postings, or moved to its word. */
  ghost predicate Flushed(sb: Segment, db: Segment, i: nat, a: Words, a2: Words, pk2: Pockets)
    requires BufferOk(sb) && BufferOk(db) && i < |sb.terms| && i < |db.terms|
    reads sb, db
  {
    if sb.terms[i].tid == 0 then db.terms[i].tid == 0
    else if db.terms[i].tid == 0 then Packed(a2, pk2, sb.terms[i].tid, SlotPostings(sb, i))
    else
      && !Compact(SlotPostings(sb, i))
      && db.terms[i].tid == sb.terms[i].tid && WordAt(a2, sb.terms[i].tid) == WordAt(a, sb.terms[i].tid)
      && SlotPostings(db, i) == SlotPostings(sb, i)
  }

  lemma EmptyListOk(t: Term, dc: seq<byte>, ps: seq<Posting>)
    requires t.tid != 0 ==>
               && t.posInBuffer == 0 && t.sizeInBuffer == 0 && t.posInChunk + t.sizeInChunk <= |dc|
               && Holds(dc[t.posInChunk..t.posInChunk + t.sizeInChunk], ps)
    ensures TermOk(t, map[], map[], [], {}, dc, ps)
  {}

  /** buffer_flush: a new segment takes the buffer's place. */
  method FlushInto(sb: Segment, a: Words, pk: Pockets) returns (db: Segment, a2: Words, pk2: Pockets)
    requires BufferOk(sb) && DistinctTerms(sb.terms) && |sb.chunk| + SEGMENT_SIZE < TWO32
    ensures fresh(db) && BufferOk(db)
    ensures |db.chunk| == ImageSizes(SlotLists(sb)) <= |sb.chunk| + SEGMENT_SIZE
    ensures |db.terms| == |sb.terms| && db.free == SEGMENT_SIZE - HEADER_SIZE - TERM_SIZE * |db.terms|
    ensures forall i :: 0 <= i < |sb.terms| ==> Flushed(sb, db, i, a, a2, pk2)
    ensures Untouched(sb.terms, |sb.terms|, a, pk, a2, pk2)
  {
    hide Untouched, DistinctTerms, Holds, Packed, SlotPostings, SlotLists, ImageSizes, Merge, Voids, ChunkBytes, Cost;
    var dc, ts, nvoid;
    ghost var stored;
    dc, ts, nvoid, a2, pk2, stored := FlushAll(sb, a, pk);
    ImagesFit(sb);
    forall i | 0 <= i < |ts| ensures TermOk(ts[i], map[], map[], [], {}, dc, stored[i]) {
      EmptyListOk(ts[i], dc, stored[i]);
    }
    hide TermOk;
    SpaceOf(sb);
    db := new Segment(dc, ts, nvoid, stored);
    forall i | 0 <= i < |ts| ensures Flushed(sb, db, i, a, a2, pk2) {
      if ts[i].tid != 0 {
        NothingPending(db, i);
      }
    }
  }

  lemma NothingPending(b: Segment, i: nat)
    requires BufferOk(b) && i < |b.terms| && b.terms[i].tid != 0 && i < |b.live| && b.live[i] == [] && i < |b.stored|
    ensures SlotPostings(b, i) == b.stored[i]
  {}

  lemma EmptyBufferOk(b: Segment)
    requires b.chunk == [] && b.terms == [] && b.nvoid == 0 && b.stored == [] && b.recs == map[] && b.content == map[]
    requires b.live == [] && b.own == [] && b.free == SEGMENT_SIZE - HEADER_SIZE
    ensures BufferOk(b)
  {}
}
