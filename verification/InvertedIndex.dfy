/**
 * The inverted index (`lib/inv.c`): term -> postings, through packed words, buffers and chunks.
 */
module InvertedIndex {
  import opened ByteCodec
  import opened PostingCodec
  import opened Records
  import opened BufferList
  import opened Merging
  import opened Buffers
  import opened FlushBuffers
  import opened WordArrays
  import opened ChunkReaders
  import opened FlushTerms
  import opened Cursors
  import opened ImageBounds
  import opened IndexStates
  import ChunkSpaces

  /** Buffers, by logical segment. */
  type Segments = map<nat, Segment>

  ghost function Objects(segs: Segments): set<object> {
    set s | s in segs :: segs[s]
  }

  ghost function SlotsOf(segs: Segments): Slots
    reads Objects(segs)
  {
    map s | s in segs :: segs[s].terms
  }

  ghost predicate BuffersOk(segs: Segments)
    reads Objects(segs)
  {
    && (forall s :: s in segs ==> s < MAX_SEGMENT && BufferOk(segs[s]))
    && (forall s, s2 :: s in segs && s2 in segs && s != s2 ==> segs[s] != segs[s2])
  }

  ghost predicate IndexOk(a: Words, pk: Pockets, segs: Segments)
    reads Objects(segs)
  {
    BuffersOk(segs) && WordsOk(a, pk, SlotsOf(segs))
  }

  /** The postings of term `t`, in order. */
  ghost function ListIn(a: Words, pk: Pockets, segs: Segments, t: nat): (ps: seq<Posting>)
    requires IndexOk(a, pk, segs)
    reads Objects(segs)
    ensures Sorted(NONE, ps)
  {
    var w := WordAt(a, t);
    if IsSlot(w) then
      SlotFound(a, pk, segs, t);
      SlotPostings(segs[SegOf(w)], SlotOf(w))
    else PackedList(a, pk, t)
  }

  lemma SlotFound(a: Words, pk: Pockets, segs: Segments, t: nat)
    requires IndexOk(a, pk, segs) && IsSlot(WordAt(a, t))
    ensures
      var w := WordAt(a, t);
      && t != 0 && w % SEGMENT_SIZE >= HEADER_SIZE && SegOf(w) in segs && BufferOk(segs[SegOf(w)])
      && SlotOf(w) < |segs[SegOf(w)].terms| && segs[SegOf(w)].terms[SlotOf(w)].tid == t
      && w == SlotWord(SegOf(w), SlotOf(w))
  {
    hide BufferOk;
    assert Addresses(WordAt(a, t), SlotsOf(segs), t);
  }

  lemma BufferAt(a: Words, pk: Pockets, segs: Segments, s: nat)
    requires IndexOk(a, pk, segs) && s in segs
    ensures BufferOk(segs[s]) && DistinctTerms(segs[s].terms) && s < MAX_SEGMENT
    ensures forall k :: k in segs && k != s ==> segs[k] != segs[s]
  {
    SlotsDistinct(a, pk, SlotsOf(segs), s);
  }

  // ---------------------------------------------------------------- flush

  lemma FlushedWord(sb: Segment, db: Segment, i: nat, a: Words, a2: Words, pk2: Pockets)
    requires BufferOk(sb) && BufferOk(db) && i < |sb.terms| && i < |db.terms|
    requires Flushed(sb, db, i, a, a2, pk2)
    ensures
      var key := sb.terms[i].tid;
      if key == 0 then db.terms[i].tid == 0
      else if db.terms[i].tid == 0 then
        WordOk(a2, pk2, key) && !IsSlot(WordAt(a2, key)) && PackedList(a2, pk2, key) == SlotPostings(sb, i)
      else
        db.terms[i].tid == key && WordAt(a2, key) == WordAt(a, key) && SlotPostings(db, i) == SlotPostings(sb, i)
    ensures sb.terms[i].tid != 0 ==> (db.terms[i].tid == 0 <==> Compact(SlotPostings(sb, i)))
  {}

  /** After a flush of its segment, a term still has its slot iff its postings do not fit into a word. */
  ghost predicate KeepsSlot(w: nat, w2: nat, s: nat, ps: seq<Posting>) {
    && (w2 == w || !IsSlot(w2))
    && if IsSlot(w) && SegOf(w) == s then IsSlot(w2) <==> !Compact(ps) else w2 == w
  }

  /** A flush of segment `s` leaves the words of terms elsewhere alone. */
  lemma FlushCases(a: Words, pk: Pockets, slots: Slots, s: nat, t: nat, a2: Words, pk2: Pockets)
    requires WordsOk(a, pk, slots) && s in slots && Untouched(slots[s], |slots[s]|, a, pk, a2, pk2)
    ensures IsSlot(WordAt(a, t)) && SegOf(WordAt(a, t)) != s ==> WordAt(a2, t) == WordAt(a, t)
    ensures !IsSlot(WordAt(a, t)) ==> WordAt(a2, t) == WordAt(a, t) && (t in pk ==> t in pk2 && pk2[t] == pk[t])
    ensures WordOk(a, pk, t)
  {
    if i: nat :| i < |slots[s]| && slots[s][i].tid == t && t != 0 {
      SlotOfTerm(a, pk, slots, s, i);
    }
  }

  /** The buffer `db` is what a flush makes of the buffer of segment `s`. */
  ghost predicate FlushOf(a: Words, pk: Pockets, segs: Segments, s: nat, db: Segment, a2: Words, pk2: Pockets)
    reads Objects(segs), db
  {
    && IndexOk(a, pk, segs) && s in segs && BufferOk(db) && db !in Objects(segs)
    && |db.terms| == |segs[s].terms|
    && (forall i :: 0 <= i < |db.terms| ==> Flushed(segs[s], db, i, a, a2, pk2))
    && Untouched(segs[s].terms, |segs[s].terms|, a, pk, a2, pk2)
  }

  lemma FlushOk(a: Words, pk: Pockets, segs: Segments, s: nat, db: Segment, a2: Words, pk2: Pockets)
    requires FlushOf(a, pk, segs, s, db, a2, pk2)
    ensures IndexOk(a2, pk2, segs[s := db])
  {
    hide BufferOk, SlotPostings, Untouched, WordsOk, Flushed;
    var slots: Slots := SlotsOf(segs);
    forall i | 0 <= i < |db.terms|
      ensures
        var key := slots[s][i].tid;
        if key == 0 then db.terms[i].tid == 0
        else if db.terms[i].tid == 0 then WordOk(a2, pk2, key) && !IsSlot(WordAt(a2, key))
        else db.terms[i].tid == key && WordAt(a2, key) == WordAt(a, key)
    {
      FlushedWord(segs[s], db, i, a, a2, pk2);
    }
    WordsFlushed(a, pk, slots, s, db.terms, a2, pk2);
    assert SlotsOf(segs[s := db]) == slots[s := db.terms];
  }

  /** Flushing changes no term's postings, only where they are kept. */
  lemma FlushKeeps(a: Words, pk: Pockets, segs: Segments, s: nat, db: Segment, a2: Words, pk2: Pockets, t: nat)
    requires FlushOf(a, pk, segs, s, db, a2, pk2)
    requires IndexOk(a2, pk2, segs[s := db])
    ensures ListIn(a2, pk2, segs[s := db], t) == ListIn(a, pk, segs, t)
    ensures KeepsSlot(WordAt(a, t), WordAt(a2, t), s, ListIn(a, pk, segs, t))
  {
    hide BufferOk, SlotPostings, Untouched, WordsOk, Flushed, Compact;
    var w := WordAt(a, t);
    FlushCases(a, pk, SlotsOf(segs), s, t, a2, pk2);
    if IsSlot(w) {
      SlotFound(a, pk, segs, t);
      if SegOf(w) == s {
        FlushedWord(segs[s], db, SlotOf(w), a, a2, pk2);
      }
    }
  }

  // ---------------------------------------------------------------- the state, seen from outside

  ghost function LayoutOf(segs: Segments): map<nat, Shape>
    reads Objects(segs)
  {
    map s | s in segs :: ShapeOf(segs[s])
  }

  function HomeIn(w: nat): int {
    if IsSlot(w) then SegOf(w) else NOWHERE
  }

  ghost function StateIn(nseg0: nat, total: nat, arrays: set<nat>, space: ChunkSpaces.Space, a: Words, pk: Pockets,
                         segs: Segments): (r: State)
    requires IndexOk(a, pk, segs)
    reads Objects(segs)
    ensures forall t: nat :: t in r.home && t in r.lists && Homed(r, t)
    ensures forall t: nat :: HomeOf(r, t) == HomeIn(WordAt(a, t)) && PostingsOf(r, t) == ListIn(a, pk, segs, t)
  {
    AllHomed(a, pk, segs);
    State(nseg0, total, arrays, LayoutOf(segs), space, imap t: nat | true :: HomeIn(WordAt(a, t)),
      imap t: nat | true :: ListIn(a, pk, segs, t))
  }

  lemma AllHomed(a: Words, pk: Pockets, segs: Segments)
    requires IndexOk(a, pk, segs)
    ensures forall t: nat :: IsSlot(WordAt(a, t)) ==> SegOf(WordAt(a, t)) in segs
  {}

  lemma StateIs(s: State, a: Words, pk: Pockets, segs: Segments)
    requires IndexOk(a, pk, segs) && s.segs == LayoutOf(segs)
    requires (forall t: nat :: t in s.home && s.home[t] == HomeIn(WordAt(a, t)))
    requires (forall t: nat :: t in s.lists && s.lists[t] == ListIn(a, pk, segs, t))
    ensures s == StateIn(s.nseg0, s.total, s.arrays, s.space, a, pk, segs)
  {
    hide IndexOk, ListIn, LayoutOf;
    assert s.home == StateIn(s.nseg0, s.total, s.arrays, s.space, a, pk, segs).home;
    assert s.lists == StateIn(s.nseg0, s.total, s.arrays, s.space, a, pk, segs).lists;
  }

  /** State `st` is about these words and buffers. */
  ghost predicate About(st: State, a: Words, pk: Pockets, segs: Segments)
    requires IndexOk(a, pk, segs)
    reads Objects(segs)
  {
    st.segs == LayoutOf(segs) && forall t: nat :: PostingsOf(st, t) == ListIn(a, pk, segs, t)
  }

  /** The lists of a buffer's slots are those of their terms. */
  lemma SlotListsAre(st: State, a: Words, pk: Pockets, segs: Segments, s: nat)
    requires IndexOk(a, pk, segs) && s in segs && About(st, a, pk, segs)
    ensures BufferOk(segs[s]) && SlotLists(segs[s]) == ListsIn(st, ShapeOf(segs[s]).slots)
  {
    hide BufferOk, SlotPostings, PackedList;
    var b := segs[s];
    var lists := ListsIn(st, ShapeOf(b).slots);
    forall i | 0 <= i < |b.terms| ensures SlotLists(b)[i] == lists[i] {
      if b.terms[i].tid != 0 {
        SlotOfTerm(a, pk, SlotsOf(segs), s, i);
      }
    }
  }

  /** The buffer that a flush leaves has the shape that the state foretells. */
  lemma ShapeFlushed(st: State, a: Words, pk: Pockets, segs: Segments, s: nat, db: Segment, a2: Words, pk2: Pockets)
    requires FlushOf(a, pk, segs, s, db, a2, pk2) && About(st, a, pk, segs)
    requires |db.chunk| == ImageSizes(SlotLists(segs[s]))
    requires db.free == SEGMENT_SIZE - HEADER_SIZE - TERM_SIZE * |db.terms|
    ensures s in st.segs && ShapeOf(db) == ShapeAfter(st, s)
  {
    hide BufferOk, SlotPostings, PackedList, Untouched, Flushed, ImageSizes, Compact;
    SlotListsAre(st, a, pk, segs, s);
    var sb := segs[s];
    var after := ShapeAfter(st, s).slots;
    forall i | 0 <= i < |db.terms| ensures Tids(db.terms)[i] == after[i] {
      FlushedWord(sb, db, i, a, a2, pk2);
      NoneCompact();
    }
    assert Tids(db.terms) == after;
  }

  lemma NoneCompact()
    ensures Compact([])
  {}

  /** A slot has the postings of its term. */
  lemma SlotHas(a: Words, pk: Pockets, segs: Segments, s: nat, i: nat)
    requires IndexOk(a, pk, segs) && s in segs && i < |segs[s].terms| && segs[s].terms[i].tid != 0
    ensures BufferOk(segs[s]) && ListIn(a, pk, segs, segs[s].terms[i].tid) == SlotPostings(segs[s], i)
  {
    hide BufferOk, SlotPostings, PackedList;
    SlotOfTerm(a, pk, SlotsOf(segs), s, i);
  }

  lemma SegmentAdded(a: Words, pk: Pockets, segs: Segments, pick: nat, b: Segment)
    requires IndexOk(a, pk, segs) && pick !in segs && pick < MAX_SEGMENT && b !in Objects(segs)
    requires BufferOk(b) && b.terms == []
    ensures IndexOk(a, pk, segs[pick := b]) && LayoutOf(segs[pick := b]) == LayoutOf(segs)[pick := ShapeOf(b)]
    ensures forall k :: ListIn(a, pk, segs[pick := b], k) == ListIn(a, pk, segs, k)
  {
    hide BufferOk, WordsOk, SlotPostings, PackedList;
    var segs2: Segments := segs[pick := b];
    assert forall k :: k in segs ==> segs[k] in Objects(segs);
    WordsAdded(a, pk, SlotsOf(segs), SlotsOf(segs2), pick);
    LayoutSet(segs, pick, b);
    forall k ensures ListIn(a, pk, segs2, k) == ListIn(a, pk, segs, k) {
      if IsSlot(WordAt(a, k)) {
        SlotFound(a, pk, segs2, k);
        SlotFound(a, pk, segs, k);
      }
    }
  }

  /** Terms that have something have a word in an array segment. */
  ghost predicate ArraysOk(a: Words, arrays: set<nat>) {
    forall t :: WordAt(a, t) != 0 ==> HasWord(arrays, t)
  }

  /** A buffer with images has its run of the space for chunks, and the others have none. */
  ghost predicate ChunksOk(segs: map<nat, Shape>, space: ChunkSpaces.Space) {
    && (forall s :: s in space.owners ==> s in segs)
    && (forall s :: s in segs ==>
          if segs[s].chunk == 0 then s !in space.owners
          else s in space.owners && space.owners[s].size == segs[s].chunk)
  }

  ghost predicate SpaceOk(a: Words, arrays: set<nat>, segs: map<nat, Shape>, space: ChunkSpaces.Space) {
    && ArraysOk(a, arrays) && ChunksOk(segs, space)
    && ChunkSpaces.Conserved(space.marks, space.base, space.owners)
  }

  lemma LayoutStays(a: Words, arrays: set<nat>, layout: map<nat, Shape>, layout2: map<nat, Shape>,
                    sp: ChunkSpaces.Space)
    requires SpaceOk(a, arrays, layout, sp) && layout.Keys <= layout2.Keys
    requires forall s :: s in layout2 ==> layout2[s].chunk == if s in layout then layout[s].chunk else 0
    ensures SpaceOk(a, arrays, layout2, sp)
  {}

  lemma WordStays(a: Words, arrays: set<nat>, layout: map<nat, Shape>, sp: ChunkSpaces.Space, t: nat, w: nat)
    requires SpaceOk(a, arrays, layout, sp) && HasWord(arrays, t)
    ensures SpaceOk(a[t := w], arrays, layout, sp)
  {}

  lemma ArraysStay(a: Words, arrays: set<nat>, layout: map<nat, Shape>, sp: ChunkSpaces.Space, seg: nat)
    requires SpaceOk(a, arrays, layout, sp)
    ensures SpaceOk(a, arrays + {seg}, layout, sp)
  {}

  /** A flush changes the words of terms that have one. */
  lemma ArraysFlushed(a: Words, pk: Pockets, slots: Slots, s: nat, a2: Words, pk2: Pockets, arrays: set<nat>)
    requires WordsOk(a, pk, slots) && s in slots && Untouched(slots[s], |slots[s]|, a, pk, a2, pk2)
        && ArraysOk(a, arrays)
    ensures ArraysOk(a2, arrays)
  {}

  lemma SpaceFlushed(a: Words, pk: Pockets, slots: Slots, s: nat, a2: Words, pk2: Pockets, arrays: set<nat>,
                     layout: map<nat, Shape>, sh: Shape, sp: ChunkSpaces.Space)
    requires WordsOk(a, pk, slots) && s in slots && Untouched(slots[s], |slots[s]|, a, pk, a2, pk2)
    requires SpaceOk(a, arrays, layout, sp) && s in layout && ChunkSpaces.CanReserve(sp, s)
    requires sh.chunk <= ChunkSpaces.Reserved(sp.owners, s)
    ensures SpaceOk(a2, arrays, layout[s := sh], ChunkSpaces.SpaceAfter(sp, s, sh.chunk))
  {
    hide WordsOk, Untouched, ArraysOk, ChunkSpaces.Conserved, ChunkSpaces.CanReserve, ChunkSpaces.FirstFit,
         ChunkSpaces.Exchanged;
    ArraysFlushed(a, pk, slots, s, a2, pk2, arrays);
    ChunkSpaces.SpaceKept(sp, s, sh.chunk);
  }

  /** The words and buffers of a flush are in order, and its space is as well. */
  lemma FlushReady(a: Words, pk: Pockets, segs: Segments, s: nat, db: Segment, a2: Words, pk2: Pockets,
                   arrays: set<nat>, sp: ChunkSpaces.Space)
    requires FlushOf(a, pk, segs, s, db, a2, pk2) && SpaceOk(a, arrays, LayoutOf(segs), sp)
    requires |db.chunk| <= ChunkSpaces.Reserved(sp.owners, s)
    ensures IndexOk(a2, pk2, segs[s := db]) && LayoutOf(segs[s := db]) == LayoutOf(segs)[s := ShapeOf(db)]
    ensures forall t :: ListIn(a2, pk2, segs[s := db], t) == ListIn(a, pk, segs, t)
    ensures forall t :: KeepsSlot(WordAt(a, t), WordAt(a2, t), s, ListIn(a, pk, segs, t))
    ensures ChunkSpaces.CanReserve(sp, s) ==>
              SpaceOk(a2, arrays, LayoutOf(segs[s := db]), ChunkSpaces.SpaceAfter(sp, s, |db.chunk|))
  {
    hide BuffersOk, BufferOk, WordsOk, Untouched, Flushed, KeepsSlot, ListIn, SpaceOk, LayoutOf, ChunkSpaces.CanReserve,
         ChunkSpaces.SpaceAfter, ChunkSpaces.Reserved;
    FlushOk(a, pk, segs, s, db, a2, pk2);
    FlushKeepsAll(a, pk, segs, s, db, a2, pk2);
    LayoutSet(segs, s, db);
    if ChunkSpaces.CanReserve(sp, s) {
      SpaceFlushed(a, pk, SlotsOf(segs), s, a2, pk2, arrays, LayoutOf(segs), ShapeOf(db), sp);
    }
  }

  class Inv {
    var a: Words                     // the array: a word per term
    var pocket: Pockets              // positions of packed postings, kept in the lexicon
    var segs: Segments
    const nseg0: nat                 // initial_n_segments
    var total: nat                   // total_chunk_size
    var arrays: set<nat>             // array segments assigned
    const space: ChunkSpaces.ChunkSpace

    ghost predicate Valid()
      reads this, Objects(segs), space, space.marks
    {
      IndexOk(a, pocket, segs) && 0 < nseg0 <= MAX_SEGMENT && total < TWO32
        && SpaceOk(a, arrays, LayoutOf(segs), space.Now())
    }

    ghost function Layout(): map<nat, Shape>
      reads this, Objects(segs)
    {
      LayoutOf(segs)
    }

    ghost function Now(): (r: State)
      requires Valid()
      reads this, Objects(segs), space, space.marks
      ensures r.segs == Layout() && r.nseg0 == nseg0 && r.total == total && Sound(r)
      ensures r.arrays == arrays && r.space == space.Now()
      ensures forall t: nat :: t in r.home && t in r.lists
      ensures forall t: nat :: HomeOf(r, t) == HomeIn(WordAt(a, t)) && PostingsOf(r, t) == ListOf(t)
    {
      StateIn(nseg0, total, arrays, space.Now(), a, pocket, segs)
    }

    ghost function ListOf(t: nat): (ps: seq<Posting>)
      requires Valid()
      reads this, Objects(segs), space, space.marks
      ensures Sorted(NONE, ps)
    {
      ListIn(a, pocket, segs, t)
    }

    /** The map an index stands for. */
    ghost function View(t: nat): Postings
      requires Valid()
      reads this, Objects(segs), space, space.marks
    {
      ToMap(ListOf(t))
    }

    /** sen_inv_create; `base` units of the first file of chunks are taken by its header. */
    constructor (nseg0: nat, base: nat)
      requires 0 < nseg0 <= MAX_SEGMENT
      ensures Valid() && (forall t :: View(t) == map[]) && segs == map[] && arrays == {} && this.nseg0 == nseg0
      ensures total == 0
      ensures fresh(space) && fresh(space.marks) && space.base == base
          && space.marks.Length == nseg0 * ChunkSpaces.MAX_CHUNK_RATIO
    {
      a, pocket, segs, total, arrays := map[], map[], map[], 0, {};
      this.nseg0 := nseg0;
      space := new ChunkSpaces.ChunkSpace(base, nseg0 * ChunkSpaces.MAX_CHUNK_RATIO);
    }

    /** Chunks are smaller than a file. */
    lemma ChunkBounded(s: nat)
      requires Valid() && s in segs
      ensures |segs[s].chunk| + SEGMENT_SIZE < TWO32
      ensures ChunkSpaces.Reserved(space.owners, s) == |segs[s].chunk| + SEGMENT_SIZE
    {
      hide IndexOk;
      assert ShapeOf(segs[s]).chunk == LayoutOf(segs)[s].chunk;
      if s in space.owners {
        ChunkSpaces.RunBounded(space.marks[..], space.base, space.owners, s);
      }
    }

    /** The new buffer and words of a flush of segment `s`. */
    method Merged(s: nat) returns (db: Segment, a2: Words, pk2: Pockets)
      requires Valid() && s in segs
      ensures Valid() && fresh(db) && Now() == old(Now())
      ensures FlushOf(a, pocket, segs, s, db, a2, pk2) && ShapeOf(db) == ShapeAfter(Now(), s)
      ensures |db.chunk| <= ChunkSpaces.Reserved(space.owners, s)
    {
      hide BufferOk, IndexOk, ListIn, LayoutOf, SpaceOk, Untouched, Flushed, SlotPostings, SlotLists, ImageSizes,
           ShapeAfter, StateIn, ChunkSpaces.Reserved;
      BufferAt(a, pocket, segs, s);
      ChunkBounded(s);
      db, a2, pk2 := FlushInto(segs[s], a, pocket);
      assert unchanged(Objects(segs)) && db !in Objects(segs);
      assert IndexOk(a, pocket, segs);
      assert LayoutOf(segs) == old(LayoutOf(segs));
      assert Valid();
      ShapeFlushed(Now(), a, pocket, segs, s, db, a2, pk2);
    }

    /** Replace the words and buffers by ones that are in order. */
    method Install(a2: Words, pk2: Pockets, segs2: Segments, total2: nat)
      requires 0 < nseg0 <= MAX_SEGMENT && total2 < TWO32 && IndexOk(a2, pk2, segs2)
      requires SpaceOk(a2, arrays, LayoutOf(segs2), space.Now())
      modifies this
      ensures Valid() && a == a2 && pocket == pk2 && segs == segs2 && total == total2
          && Layout() == old(LayoutOf(segs2))
      ensures arrays == old(arrays) && space.Now() == old(space.Now())
      ensures forall t :: ListOf(t) == old(ListIn(a2, pk2, segs2, t))
    {
      hide IndexOk, ListIn, LayoutOf, SpaceOk;
      assert this !in Objects(segs2);
      segs, a, pocket, total := segs2, a2, pk2, total2;
    }

    /** The space for the chunk of segment `s` is exchanged, and nothing else. */
    method TakeSpace(s: nat, size: nat, ghost a2: Words, ghost pk2: Pockets, ghost segs2: Segments) returns (ok: bool)
      requires Valid() && size <= ChunkSpaces.Reserved(space.owners, s) && IndexOk(a2, pk2, segs2)
      modifies space, space.marks
      ensures ok <==> ChunkSpaces.CanReserve(old(space.Now()), s)
      ensures space.Now() == if ok then ChunkSpaces.SpaceAfter(old(space.Now()), s, size) else old(space.Now())
      ensures IndexOk(a2, pk2, segs2) && forall t :: ListIn(a2, pk2, segs2, t) == old(ListIn(a2, pk2, segs2, t))
      ensures LayoutOf(segs2) == old(LayoutOf(segs2))
      ensures IndexOk(a, pocket, segs) && forall t :: ListIn(a, pocket, segs, t) == old(ListIn(a, pocket, segs, t))
      ensures LayoutOf(segs) == old(LayoutOf(segs))
    {
      hide IndexOk, ListIn, LayoutOf, ChunkSpaces.CanReserve, ChunkSpaces.SpaceAfter, ChunkSpaces.Reserved;
      assert space !in Objects(segs) && space.marks !in Objects(segs);
      assert space !in Objects(segs2) && space.marks !in Objects(segs2);
      ok := space.Flush(s, size, true);
    }

    /** The buffer `db` takes the place of that of segment `s`, if there is room for its chunk. */
    method Exchange(s: nat, db: Segment, a2: Words, pk2: Pockets) returns (ok: bool)
      requires Valid() && s in segs && FlushOf(a, pocket, segs, s, db, a2, pk2)
      requires ShapeOf(db) == ShapeAfter(Now(), s) && |db.chunk| <= ChunkSpaces.Reserved(space.owners, s)
      modifies this, space, space.marks
      ensures Valid() && (forall t :: ListOf(t) == old(ListOf(t)))
      ensures ok <==> ChunkSpaces.CanReserve(old(space.Now()), s)
      ensures Now() == if ok then AfterFlush(old(Now()), s) else old(Now())
      ensures !ok ==> a == old(a) && segs == old(segs) && pocket == old(pocket)
      ensures arrays == old(arrays) && (ok ==> segs == old(segs)[s := db])
      ensures ok ==> forall t :: KeepsSlot(old(WordAt(a, t)), WordAt(a, t), s, ListOf(t))
    {
      hide IndexOk, ListIn, FlushOf, BufferOk, KeepsSlot, LayoutOf, ShapeAfter, AfterFlush, StateIn, Compact,
           SpaceOk, TotalAfter, ChunkSpaces.CanReserve, ChunkSpaces.SpaceAfter, ChunkSpaces.Reserved;
      ghost var st := Now();
      FlushReady(a, pocket, segs, s, db, a2, pk2, arrays, space.Now());
      LayoutSet(segs, s, db);
      ok := TakeSpace(s, |db.chunk|, a2, pk2, segs[s := db]);
      if ok {
        Install(a2, pk2, segs[s := db], TotalAfter(total, |segs[s].chunk|, |db.chunk|));
        FlushedState(st, s, old(a), a, pocket, segs);
      } else {
        StateIs(st, a, pocket, segs);
      }
    }

    /**
     * buffer_flush, for the buffer of segment `s`: no term's postings change, and terms with small
     * ones leave the buffer. It fails exactly when there is no physical segment for the new buffer, or
     * no room for its chunk. (The space is taken after the merge, which only writes memory of its own.)
     */
    method Flush(s: nat) returns (ok: bool)
      requires Valid() && s in segs
      modifies this, space, space.marks
      ensures Valid() && (forall t :: ListOf(t) == old(ListOf(t)))
      ensures ok <==> old(CanFlush(Now(), s))
      ensures Now() == if ok then AfterFlush(old(Now()), s) else old(Now())
      ensures arrays == old(arrays) && (!ok ==> a == old(a) && segs == old(segs) && pocket == old(pocket))
      ensures ok ==> s in segs && segs == old(segs)[s := segs[s]] && fresh(segs[s])
      ensures ok ==> forall t :: KeepsSlot(old(WordAt(a, t)), WordAt(a, t), s, ListOf(t))
    {
      hide IndexOk, FlushOf, KeepsSlot, LayoutOf, ShapeAfter, AfterFlush, StateIn, ChunkSpaces.CanReserve,
           ChunkSpaces.Reserved, Inv.Valid, Inv.ListOf, Inv.Now;
      LayoutKeys(segs);
      if !Spare(arrays, |segs|) {
        return false;
      }
      ghost var st := Now();
      forall t: nat ensures PostingsOf(st, t) == ListOf(t) {}
      var db, a2, pk2 := Merged(s);
      ok := Exchange(s, db, a2, pk2);
    }

    /** buffer_put, for slot `i` of segment `s`. */
    method PutInto(s: nat, i: nat, bs: seq<byte>, id: DocId, ghost e: Posting)
      requires s in segs && BufferOk(segs[s]) && i < |segs[s].terms| && segs[s].terms[i].tid != 0
      requires IndexOk(a, pocket, segs)
      requires Encodes(bs, e) && id == e.id && |bs| % REC_SIZE == 0 && REC_SIZE + |bs| <= segs[s].free
      modifies segs[s]
      ensures BufferOk(segs[s]) && |segs[s].terms| == old(|segs[s].terms|)
          && segs[s].terms[i].tid == old(segs[s].terms[i].tid)
      ensures ToMap(SlotPostings(segs[s], i)) == Apply(ToMap(old(SlotPostings(segs[s], i))), e)
      ensures OthersKept(segs[s], i)
      ensures IndexOk(a, pocket, segs)
      ensures LayoutOf(segs) ==
          old(LayoutOf(segs))[s := old(ShapeOf(segs[s])).(free := old(segs[s].free) - (REC_SIZE + |bs|))]
    {
      hide BufferOk, WordsOk, SlotPostings, Encodes, ToMap, Apply, LayoutOf;
      ghost var slots, layout := SlotsOf(segs), LayoutOf(segs);
      BufferAt(a, pocket, segs, s);
      LayoutAll(segs);
      PutBelow(segs[s], i, bs, id, e);
      assert Tids(segs[s].terms) == old(Tids(segs[s].terms));
      assert forall k :: k in segs && k != s ==> segs[k].terms == old(segs[k].terms) && BufferOk(segs[k]);
      WordsSameTids(a, pocket, slots, SlotsOf(segs));
      LayoutChanged(segs, layout, s);
    }

    /** buffer_put for a term that has a slot: its record applies to the term's map. */
    method PutRecord(s: nat, i: nat, t: nat, bs: seq<byte>, id: DocId, ghost e: Posting)
      requires Valid() && s in segs && i < |segs[s].terms| && segs[s].terms[i].tid == t && t != 0
      requires Encodes(bs, e) && id == e.id && |bs| % REC_SIZE == 0 && REC_SIZE + |bs| <= segs[s].free
      modifies segs[s]
      ensures Valid()
      ensures View(t) == Apply(old(View(t)), e)
      ensures forall k :: k != t ==> ListOf(k) == old(ListOf(k))
      ensures Layout() == old(Layout())[s := old(ShapeOf(segs[s])).(free := old(segs[s].free) - (REC_SIZE + |bs|))]
    {
      hide BufferOk, WordsOk, SlotPostings, PackedList, Encodes, ToMap, Apply, SpaceOk, LayoutOf;
      SlotHas(a, pocket, segs, s, i);
      LayoutSet(segs, s, segs[s]);
      PutInto(s, i, bs, id, e);
      LayoutStays(a, arrays, old(Layout()), LayoutOf(segs), space.Now());
      SlotHas(a, pocket, segs, s, i);
      forall k | k != t ensures ListIn(a, pocket, segs, k) == old(ListIn(a, pocket, segs, k)) {
        if IsSlot(WordAt(a, k)) {
          SlotFound(a, pocket, segs, k);
        }
      }
    }

    lemma HomeAt(t: nat)
      requires Valid() && IsSlot(WordAt(a, t))
      ensures
        var w := WordAt(a, t);
        && t != 0 && w % SEGMENT_SIZE >= HEADER_SIZE && SegOf(w) in segs && SlotOf(w) < |segs[SegOf(w)].terms|
        && segs[SegOf(w)].terms[SlotOf(w)].tid == t
        && SegOf(w) in Layout() && Layout()[SegOf(w)] == ShapeOf(segs[SegOf(w)])
    {
      hide BufferOk;
      SlotFound(a, pocket, segs, t);
    }

    /** The state is `r` when record `e` has been applied to the postings of term `t`. */
    lemma NowIs(st: State, r: State, t: nat, e: Posting)
      requires Valid() && r.segs == Layout() && r.nseg0 == nseg0 && r.total == total
          && r.lists == Applied(st, t, e).lists
      requires r.arrays == arrays && r.space == space.Now()
      requires forall k: nat :: k in st.lists && (k != t ==> PostingsOf(st, k) == ListOf(k))
      requires Sorted(NONE, PostingsOf(st, t)) && ValidRecord(e) && View(t) == Apply(ToMap(PostingsOf(st, t)), e)
      requires forall k: nat :: k in r.home && r.home[k] == HomeIn(WordAt(a, k))
      ensures Now() == r
    {
      hide IndexOk, ListIn, LayoutOf, ToMap, Apply, Merge;
      AppliedState(st, r, t, e, a, pocket, segs);
    }

    lemma Views()
      requires Valid()
      ensures InOrder(Now()) && forall k: nat :: View(k) == MapIn(Now(), k)
    {
      hide IndexOk, ListIn, StateIn, ToMap;
    }

    // ---------------------------------------------------------------- buffer_new

    /** buffer_segment_new: an empty buffer for segment `pick`. */
    method AddSegment(pick: nat)
      requires Valid() && pick !in segs && pick < MAX_SEGMENT
      modifies this
      ensures Valid() && (forall k :: ListOf(k) == old(ListOf(k)))
      ensures a == old(a) && pocket == old(pocket)
      ensures pick in segs && segs == old(segs)[pick := segs[pick]] && fresh(segs[pick])
      ensures Layout() == old(Layout())[pick := Shape([], SEGMENT_SIZE - HEADER_SIZE, 0)] && total == old(total)
      ensures arrays == old(arrays)
    {
      hide BufferOk, IndexOk, ListIn, LayoutOf, SpaceOk;
      var b := new Segment([], [], 0, []);
      EmptyBufferOk(b);
      assert unchanged(Objects(segs)) && b !in Objects(segs);
      assert forall k :: ListIn(a, pocket, segs, k) == old(ListIn(a, pocket, segs, k));
      assert ShapeOf(b) == Shape([], SEGMENT_SIZE - HEADER_SIZE, 0);
      SegmentAdded(a, pocket, segs, pick, b);
      LayoutKeys(segs);
      LayoutStays(a, arrays, Layout(), LayoutOf(segs[pick := b]), space.Now());
      Install(a, pocket, segs[pick := b], total);
    }

    /** A slot for `t` in segment `s`, with a record of its packed posting (`had`) and a new record. */
    method FillSlot(t: nat, s: nat, had: bool, bs2: seq<byte>, id2: DocId, ghost e2: Posting,
                    bs: seq<byte>, id: DocId, ghost e: Posting) returns (i: nat)
      requires t != 0 && !IsSlot(WordAt(a, t)) && s in segs && BufferOk(segs[s])
      requires IndexOk(a, pocket, segs)
      requires IsRecord(bs, id, e) && (had ==> IsRecord(bs2, id2, e2))
      requires BytesOf(had, bs2, bs) + TERM_SIZE <= segs[s].free
      modifies segs[s]
      ensures HEADER_SIZE + TERM_SIZE * i < SEGMENT_SIZE
      ensures BufferOk(segs[s]) && i < |segs[s].terms| && segs[s].terms[i].tid == t
      ensures ToMap(SlotPostings(segs[s], i)) == MapOf(had, e2, e)
      ensures OthersKept(segs[s], i)
      ensures IndexOk(a[t := SlotWord(s, i)], pocket[t := 0], segs)
      ensures LayoutOf(segs) == old(LayoutOf(segs))[s := Placed(old(ShapeOf(segs[s])), t, BytesOf(had, bs2, bs))]
    {
      hide BufferOk, WordsOk, SlotPostings, IsRecord, ToMap, MapOf, Placed, BytesOf, LayoutOf;
      ghost var layout := LayoutOf(segs);
      BufferAt(a, pocket, segs, s);
      LayoutAll(segs);
      i := PutFirst(segs[s], t, had, bs2, id2, e2, bs, id, e);
      assert forall k :: k in segs && k != s ==> segs[k].terms == old(segs[k].terms) && BufferOk(segs[k]);
      RoomOf(segs[s]);
      WordsPlaced(a, pocket, old(SlotsOf(segs)), SlotsOf(segs), s, i, t);
      LayoutChanged(segs, layout, s);
    }

    /** ... and the lists of the other terms are as they were. */
    method GiveSlot(t: nat, s: nat, had: bool, bs2: seq<byte>, id2: DocId, ghost e2: Posting,
                    bs: seq<byte>, id: DocId, ghost e: Posting) returns (i: nat)
      requires t != 0 && !IsSlot(WordAt(a, t)) && s in segs && IndexOk(a, pocket, segs)
      requires IsRecord(bs, id, e) && (had ==> IsRecord(bs2, id2, e2))
      requires BytesOf(had, bs2, bs) + TERM_SIZE <= segs[s].free
      modifies segs[s]
      ensures HEADER_SIZE + TERM_SIZE * i < SEGMENT_SIZE && IndexOk(a[t := SlotWord(s, i)], pocket[t := 0], segs)
      ensures forall k :: k != t ==>
                ListIn(a[t := SlotWord(s, i)], pocket[t := 0], segs, k) == old(ListIn(a, pocket, segs, k))
      ensures ToMap(ListIn(a[t := SlotWord(s, i)], pocket[t := 0], segs, t)) == MapOf(had, e2, e)
      ensures LayoutOf(segs) == old(LayoutOf(segs))[s := Placed(old(ShapeOf(segs[s])), t, BytesOf(had, bs2, bs))]
    {
      hide BufferOk, WordsOk, SlotPostings, PackedList, IsRecord, ToMap, MapOf, LayoutOf, Placed, BytesOf;
      ghost var slots := SlotsOf(segs);
      i := FillSlot(t, s, had, bs2, id2, e2, bs, id, e);
      SlotWordBack(s, i);
      ghost var a2, pk2 := a[t := SlotWord(s, i)], pocket[t := 0];
      SlotHas(a2, pk2, segs, s, i);
      forall k | k != t ensures ListIn(a2, pk2, segs, k) == old(ListIn(a, pocket, segs, k)) {
        if IsSlot(WordAt(a2, k)) {
          SlotFound(a2, pk2, segs, k);
          SlotIn(a, pocket, slots, k);
        } else {
          WordOkAt(a2, pk2, SlotsOf(segs), k);
          PackedSame(a2, pk2, a, pocket, k);
        }
      }
    }

    /** A term that has no slot gets one in segment `s`. */
    method PlaceIn(t: nat, s: nat, had: bool, bs2: seq<byte>, id2: DocId, ghost e2: Posting,
                   bs: seq<byte>, id: DocId, ghost e: Posting)
      requires Valid() && t != 0 && !IsSlot(WordAt(a, t)) && HasWord(arrays, t) && s in segs
      requires IsRecord(bs, id, e) && (had ==> IsRecord(bs2, id2, e2))
      requires BytesOf(had, bs2, bs) + TERM_SIZE <= segs[s].free
      modifies this, segs[s]
      ensures Valid() && (forall k :: k != t ==> ListOf(k) == old(ListOf(k)))
      ensures View(t) == MapOf(had, e2, e)
      ensures segs == old(segs) && total == old(total) && arrays == old(arrays)
      ensures forall k: nat :: HomeIn(WordAt(a, k)) == if k == t then s else old(HomeIn(WordAt(a, k)))
      ensures Layout() == old(Layout())[s := Placed(old(ShapeOf(segs[s])), t, BytesOf(had, bs2, bs))]
    {
      hide IndexOk, ListIn, IsRecord, ToMap, MapOf, LayoutOf, SpaceOk, BytesOf;
      LayoutSet(segs, s, segs[s]);
      var i := GiveSlot(t, s, had, bs2, id2, e2, bs, id, e);
      SlotWordBack(s, i);
      LayoutStays(a, arrays, old(Layout()), LayoutOf(segs), space.Now());
      WordStays(a, arrays, LayoutOf(segs), space.Now(), t, SlotWord(s, i));
      Install(a[t := SlotWord(s, i)], pocket[t := 0], segs, total);
    }

    /** buffer_open_if_capable, or no buffer at all. */
    predicate Usable(seg: nat, size: nat)
      requires Valid()
      reads this, Objects(segs), space, space.marks
    {
      seg !in segs ||
      var b, nterms := segs[seg], |segs[seg].terms| - segs[seg].nvoid;
      (nterms < 4096 || Shr(total, nterms / 0x100 - 6) > |b.chunk|) && b.free >= size + TERM_SIZE
    }

    lemma UsableStops(seg: nat, size: nat)
      requires Valid()
      ensures Usable(seg, size) == Stops(Now(), seg, size)
    {
      hide BufferOk, WordsOk, ListIn;
      if seg in segs {
        BufferAt(a, pocket, segs, seg);
        VoidsOf(segs[seg]);
        InUseIs(segs[seg].terms);
      }
    }

    /** A segment where the search has stopped, with an empty buffer if it had none. */
    method OpenSegment(s: nat, size: nat)
      requires Valid() && s < MAX_SEGMENT && Stops(Now(), s, size) && size + HEADER_SIZE + TERM_SIZE <= SEGMENT_SIZE
      modifies this
      ensures Valid() && (forall k :: ListOf(k) == old(ListOf(k)))
      ensures a == old(a) && total == old(total) && arrays == old(arrays) && s in segs
          && size + TERM_SIZE <= segs[s].free
      ensures Layout() == old(Layout())[s := ShapeOf(segs[s])] && ShapeOf(segs[s]) == ShapeFound(old(Now()), s)
      ensures fresh(Objects(segs) - old(Objects(segs)))
    {
      hide BufferOk, IndexOk, ListIn, StateIn, Capable;
      if s in segs {
        Roomy(Now(), s, size);
      } else {
        AddSegment(s);
      }
      LayoutSet(segs, s, segs[s]);
    }

    /** buffer_segment_new: the first segment without a buffer. */
    method FreeSegment() returns (seg: nat)
      requires Valid()
      ensures Valid() && Now() == old(Now()) && seg == FirstFree(Now(), 0)
    {
      hide IndexOk, StateIn, LayoutOf, ListIn, Inv.Valid, Inv.ListOf, Inv.Now;
      LayoutKeys(segs);
      seg := 0;
      while seg < MAX_SEGMENT && seg in segs
        invariant Valid() && Now() == old(Now()) && FirstFree(Now(), 0) == FirstFree(Now(), seg)
      {
        seg := seg + 1;
      }
    }

    /** buffer_new, its loops: the search for a segment with room for `size` bytes of records, from `hint` on. */
    method FindSegment(hint: nat, size: nat) returns (r: int)
      requires Valid()
      ensures Valid() && Now() == old(Now()) && r == Found(Now(), hint, size)
    {
      hide IndexOk, Stops, Usable, StateIn, NextOf, FirstOf, SegMaxOf, LayoutOf, ListIn, HomeIn, WordAt, Inv.Valid,
           Inv.ListOf, Inv.Now;
      if size + HEADER_SIZE + TERM_SIZE > SEGMENT_SIZE {
        return NOWHERE;
      }
      ghost var st := Now();
      var seg0, segmax := FirstOf(hint, nseg0), SegMaxOf(total, nseg0);
      var seg: nat := seg0;
      while seg < segmax && seg < MAX_SEGMENT
        invariant Valid() && Now() == st
        invariant Along(st, size, seg0) == Along(st, size, seg)
      {
        UsableStops(seg, size);
        if Usable(seg, size) {
          return seg;
        }
        seg := seg + nseg0;
      }
      seg := NextOf(seg0, nseg0);
      while seg != seg0
        invariant Valid() && Now() == st
        invariant seg < nseg0 && Around(st, size, NextOf(seg0, nseg0), seg0) == Around(st, size, seg, seg0)
        decreases if seg <= seg0 then seg0 - seg else seg0 + nseg0 - seg
      {
        UsableStops(seg, size);
        if Usable(seg, size) {
          return seg;
        }
        seg := NextOf(seg, nseg0);
      }
      seg := nseg0;
      while seg < MAX_SEGMENT
        invariant Valid() && Now() == st
        invariant Beyond(st, size, nseg0) == Beyond(st, size, seg)
      {
        UsableStops(seg, size);
        if Usable(seg, size) {
          return seg;
        }
        seg := seg + 1;
      }
      seg := FreeSegment();
      r := if seg < MAX_SEGMENT then seg else NOWHERE;
    }

    /** buffer_new: the segment for `size` bytes of records, if there is one. */
    method BufferNew(hint: nat, size: nat) returns (r: int)
      requires Valid()
      ensures Valid() && Now() == old(Now()) && r == Search(Now(), hint, size)
    {
      hide Found, Inv.Valid, StateIn;
      LayoutKeys(segs);
      r := FindSegment(hint, size);
      if r != NOWHERE && r !in segs && !Spare(arrays, |segs|) {
        r := NOWHERE;
      }
    }

    /** array_get: a word for the term. */
    method GetWord(t: nat) returns (ok: bool)
      requires Valid()
      modifies this`arrays
      ensures Valid() && (ok <==> old(GetsWord(Now(), t))) && (ok ==> HasWord(arrays, t))
      ensures Now() == if ok then WithWord(old(Now()), t) else old(Now())
    {
      hide IndexOk, ListIn, StateIn, SpaceOk, LayoutOf;
      LayoutKeys(segs);
      assert this !in Objects(segs);
      if t > MAX_ID || (t / ARRAY_SIZE !in arrays && !Spare(arrays, |segs|)) {
        return false;
      }
      ghost var st := Now();
      ArraysStay(a, arrays, LayoutOf(segs), space.Now(), t / ARRAY_SIZE);
      arrays := arrays + {t / ARRAY_SIZE};
      StateIs(WithWord(st, t), a, pocket, segs);
      ok := true;
    }

    /** A term that has no slot gets one where the search has stopped. */
    method OpenPlace(t: nat, s: nat, had: bool, bs2: seq<byte>, id2: DocId, ghost e2: Posting,
                     bs: seq<byte>, id: DocId, ghost e: Posting)
      requires Valid() && t != 0 && !IsSlot(WordAt(a, t)) && HasWord(arrays, t)
      requires IsRecord(bs, id, e) && (had ==> IsRecord(bs2, id2, e2))
      requires s < MAX_SEGMENT && Stops(Now(), s, BytesOf(had, bs2, bs))
      requires BytesOf(had, bs2, bs) + HEADER_SIZE + TERM_SIZE <= SEGMENT_SIZE
      modifies this, Objects(segs)
      ensures Valid() && (forall k :: k != t ==> ListOf(k) == old(ListOf(k)))
      ensures total == old(total) && arrays == old(arrays) && View(t) == MapOf(had, e2, e)
      ensures forall k: nat :: HomeIn(WordAt(a, k)) == if k == t then s else old(HomeIn(WordAt(a, k)))
      ensures Layout() == WithSlot(old(Now()), t, s, BytesOf(had, bs2, bs))
      ensures fresh(Objects(segs) - old(Objects(segs)))
    {
      hide BufferOk, IndexOk, ListIn, IsRecord, ToMap, MapOf, Placed, StateIn, HomeIn, Stops, LayoutOf,
           BytesOf, WithSlot, SegOf, Inv.Valid, Inv.Now, Inv.ListOf, Inv.View, Inv.Layout;
      var size := BytesOf(had, bs2, bs);
      WithSlotIs(Now(), t, s, size);
      OpenSegment(s, size);
      PlaceIn(t, s, had, bs2, id2, e2, bs, id, e);
    }

    /** The single posting of a term's word goes into a slot together with the new record (buffer_new). */
    method PlaceTerm(t: nat, hint: nat, had: bool, bs2: seq<byte>, id2: DocId, ghost e2: Posting,
                     bs: seq<byte>, id: DocId, ghost e: Posting) returns (r: int)
      requires Valid() && t != 0 && !IsSlot(WordAt(a, t)) && HasWord(arrays, t)
      requires IsRecord(bs, id, e) && (had ==> IsRecord(bs2, id2, e2))
      requires ValidRecord(e) && MapOf(had, e2, e) == Apply(View(t), e)
      modifies this, Objects(segs)
      ensures Valid() && fresh(Objects(segs) - old(Objects(segs)))
      ensures r == Search(old(Now()), hint, BytesOf(had, bs2, bs))
      ensures Now() == if r == NOWHERE then old(Now()) else AfterPlace(old(Now()), t, e, r, BytesOf(had, bs2, bs))
    {
      hide IndexOk, ListIn, IsRecord, ToMap, MapOf, Apply, Merge, Search, StateIn, HomeIn, Stops, LayoutOf,
           BytesOf, WithSlot, AfterPlace, Inv.Valid, Inv.Now, Inv.ListOf, Inv.Layout;
      var size := BytesOf(had, bs2, bs);
      ghost var st := Now();
      r := BufferNew(hint, size);
      if r != NOWHERE {
        PlaceFields(st, t, e, r, size);
        OpenPlace(t, r, had, bs2, id2, e2, bs, id, e);
        NowIs(st, AfterPlace(st, t, e, r, size), t, e);
      }
    }

    /** The word of a term that has no slot is packed, or cleared. */
    method SetWord(t: nat, w: nat, pos: u32)
      requires Valid() && t != 0 && !IsSlot(WordAt(a, t)) && HasWord(arrays, t) && !IsSlot(w)
      requires WordOk(map[t := w], map[t := pos], t)
      modifies this
      ensures Valid() && (forall k :: k != t ==> ListOf(k) == old(ListOf(k)))
      ensures segs == old(segs) && Layout() == old(Layout()) && total == old(total) && arrays == old(arrays)
      ensures forall k: nat :: HomeIn(WordAt(a, k)) == old(HomeIn(WordAt(a, k)))
      ensures WordOk(map[t := w], map[t := pos], t) && ListOf(t) == PackedList(map[t := w], map[t := pos], t)
    {
      hide BufferOk, WordsOk, SlotPostings, PackedList, SpaceOk;
      ghost var a2, pk2 := a[t := w], pocket[t := pos];
      WordStays(a, arrays, LayoutOf(segs), space.Now(), t, w);
      WordsPacked(a, pocket, SlotsOf(segs), t, w, pos);
      forall k ensures WordOk(a2, pk2, k) {
        WordOkAt(a2, pk2, SlotsOf(segs), k);
      }
      forall k | k != t ensures ListIn(a2, pk2, segs, k) == ListIn(a, pocket, segs, k) {
        if IsSlot(WordAt(a2, k)) {
          SlotFound(a2, pk2, segs, k);
        } else {
          WordOkAt(a, pocket, SlotsOf(segs), k);
          PackedSame(a2, pk2, a, pocket, k);
        }
      }
      PackedSame(a2, pk2, map[t := w], map[t := pos], t);
      Install(a[t := w], pocket[t := pos], segs, total);
    }

    /** A term that has no slot has at most one posting, a packed one. */
    lemma WordFacts(t: nat)
      requires Valid() && !IsSlot(WordAt(a, t))
      ensures WordOk(a, pocket, t)
      ensures
        var w, ps := WordAt(a, t), ListOf(t);
        if w == 0 then ps == []
        else
          && w % 2 == 1 && t in pocket && 1 <= w / 0x1000 < RID_LIMIT
          && ps == [Posting(PackedId(w), 0, [pocket[t]])] && Stored(ps[0]) && Packable(ps[0])
    {}

    /** A term that has no slot gets a small posting, as its word. */
    method PackWord(t: nat, u: UpdSpec)
      requires Valid() && t != 0 && !IsSlot(WordAt(a, t)) && HasWord(arrays, t) && ValidSpec(u) && u.sid >= 1
          && |u.positions| == 1
      requires StaysPacked(ListOf(t), RecordOf(u, false))
      modifies this
      ensures Valid() && segs == old(segs) && Now() == Applied(old(Now()), t, RecordOf(u, false))
    {
      hide IndexOk, ListIn, PackedList, ToMap, Apply, RecordOf, WordOk, Packable, Stored, Merge, StateIn, LayoutOf,
           HomeIn, Inv.Valid, Inv.Now, Inv.ListOf, Inv.Layout;
      ghost var st, e := Now(), RecordOf(u, false);
      SpecFacts(u);
      WordFacts(t);
      ReplaceSingle(ListOf(t), e);
      PackSpec(u, t);
      SetWord(t, PackedWord(DocId(u.rid, u.sid)), u.positions[0]);
      SingleMap(e);
      NowIs(st, Applied(st, t, e), t, e);
    }

    /** A term that has no slot, but a packed posting perhaps (`had`), gets a slot. */
    method MoveWord(t: nat, u: UpdSpec, bs: seq<byte>, had: bool, hint: nat) returns (ghost fate: Fate)
      requires Valid() && t != 0 && !IsSlot(WordAt(a, t)) && HasWord(arrays, t) && ValidSpec(u)
      requires |u.positions| >= 1 && u.sid >= 1 && Encodes(bs, RecordOf(u, false)) && |bs| % REC_SIZE == 0
      requires had == (ListOf(t) != [] && ListOf(t)[0].id != RecordOf(u, false).id)
      modifies this, Objects(segs)
      ensures Valid() && fresh(Objects(segs) - old(Objects(segs)))
      ensures (Now(), fate) == MoveUpdate(old(Now()), t, RecordOf(u, false), hint)
    {
      hide IndexOk, ListIn, Encodes, ToMap, Apply, RecordOf, Search, MoveUpdate, AfterPlace, StateIn, RecordSize, MapOf,
           BytesOf, OldSize, Inv.Valid, Inv.Now, Inv.ListOf;
      ghost var st, e, ps := Now(), RecordOf(u, false), ListOf(t);
      SpecFacts(u);
      WordFacts(t);
      var bs2: seq<byte>, id2 := [], NONE;
      ghost var e2 := e;
      if had {
        bs2, id2, e2 := RecordOfWord(PackedId(WordAt(a, t)), pocket[t]);
      }
      HadWord(ps, had, bs2, e2, bs, e);
      MoveIs(st, t, e, hint);
      var r := PlaceTerm(t, hint, had, bs2, id2, e2, bs, DocId(u.rid, u.sid), e);
      fate := if r == NOWHERE then Dropped else Accepted;
    }

    /** The update of a term that has no slot. */
    method UpdateWord(t: nat, u: UpdSpec, bs: seq<byte>, hint: nat) returns (ghost fate: Fate)
      requires Valid() && t != 0 && !IsSlot(WordAt(a, t)) && HasWord(arrays, t) && ValidSpec(u)
      requires |u.positions| >= 1 && u.sid >= 1 && Encodes(bs, RecordOf(u, false)) && |bs| % REC_SIZE == 0
      modifies this, Objects(segs)
      ensures Valid() && (Now(), fate) == WordUpdate(old(Now()), t, RecordOf(u, false), hint)
      ensures fresh(Objects(segs) - old(Objects(segs)))
    {
      hide IndexOk, ListIn, Encodes, PackedList, RecordOf, WordOk, Packable, Stored, Merge, Search, StateIn,
           RecordSize, LayoutOf, HomeIn, Sound, Applied, MoveUpdate, Inv.Valid, Inv.Now, Inv.ListOf, Inv.View,
           Inv.Layout;
      SpecFacts(u);
      WordFacts(t);
      var w := WordAt(a, t);
      var had := w % 2 == 1 && PackedId(w) != DocId(u.rid, u.sid);
      if !had && u.rid < RID_LIMIT && u.sid < SID_LIMIT && |u.positions| == 1 && u.score == 0
        && u.positions[0] < POS_LIMIT {
        PackWord(t, u);
        fate := Accepted;
      } else {
        fate := MoveWord(t, u, bs, had, hint);
      }
    }

    /** buffer_put for a term that has a slot. */
    method PutInSlot(t: nat, bs: seq<byte>, id: DocId, ghost e: Posting)
      requires Valid() && IsSlot(WordAt(a, t)) && SegOf(WordAt(a, t)) in segs
      requires Encodes(bs, e) && id == e.id && |bs| % REC_SIZE == 0 && REC_SIZE + |bs| <= segs[SegOf(WordAt(a, t))].free
      modifies Objects(segs)
      ensures Valid() && Now() == AfterPut(old(Now()), t, e)
    {
      hide BufferOk, IndexOk, ListIn, Encodes, ToMap, Apply, Merge, StateIn, RecordSize, Inv.Valid, Inv.Now,
           Inv.ListOf, Inv.Layout;
      var w := WordAt(a, t);
      ghost var st := Now();
      HomeAt(t);
      EncodesSize(bs, e);
      PutRecord(SegOf(w), SlotOf(w), t, bs, id, e);
      NowIs(st, AfterPut(st, t, e), t, e);
    }

    /** The deletion of a packed posting, or none. */
    method DeleteWord(t: nat, u: UpdSpec)
      requires Valid() && t != 0 && !IsSlot(WordAt(a, t)) && HasWord(arrays, t) && ValidSpec(u)
      modifies this
      ensures Valid() && Now() == Applied(old(Now()), t, RecordOf(u, true)) && segs == old(segs)
    {
      hide IndexOk, ListIn, ToMap, Apply, Merge, StateIn, Inv.Valid, Inv.Now, Inv.ListOf, Inv.Layout;
      var w := WordAt(a, t);
      ghost var st, e := Now(), RecordOf(u, true);
      WordFacts(t);
      DeleteSingle(ListOf(t), e);
      if w % 2 == 1 {
        var id := PackedId(w);
        if u.rid == id.rid && (u.sid == 0 || u.sid == id.sid) {
          PackedIs(map[t := 0], map[t := 0], t);
          SetWord(t, 0, 0);
        }
      }
      NowIs(st, Applied(st, t, e), t, e);
    }

    /** Room for `n` bytes of records in the buffer of term `t`, after a flush if there is none before. */
    method MakeRoom(t: nat, n: nat) returns (room: Room)
      requires Valid() && IsSlot(WordAt(a, t))
      modifies this, space, space.marks
      ensures Valid() && (room, Now()) == RoomIn(old(Now()), t, n) && arrays == old(arrays)
      ensures room == Fits ==> SegOf(WordAt(a, t)) in segs && n <= segs[SegOf(WordAt(a, t))].free
      ensures fresh(Objects(segs) - old(Objects(segs)))
    {
      hide BufferOk, IndexOk, ListIn, Compact, CanFlush, StateIn, ShapeAfter, Inv.Valid, Inv.Now, Inv.ListOf,
           Inv.View, Inv.Layout;
      var w := WordAt(a, t);
      HomeAt(t);
      var s := SegOf(w);
      if n <= segs[s].free {
        return Fits;
      }
      var ok := Flush(s);
      if !ok {
        return Full;
      }
      if WordAt(a, t) != w {
        return Moved;
      }
      HomeAt(t);
      room := if n <= segs[s].free then Fits else Full;
    }

    /** sen_inv_delete: what the state before foretells. */
    method Delete(t: nat, u: UpdSpec) returns (ghost fate: Fate, rc: Rc)
      requires Valid() && t != 0 && ValidSpec(u)
      modifies this, space, space.marks, Objects(segs)
      ensures Valid() && (Now(), fate) == DeleteSpec(old(Now()), t, u) && rc == RcOf(fate)
      ensures forall k: nat :: View(k) ==
                if k == t && fate == Accepted then Apply(old(View(k)), RecordOf(u, true)) else old(View(k))
      ensures fresh(Objects(segs) - old(Objects(segs)))
    {
      hide BufferOk, IndexOk, ListIn, Encodes, RoomIn, StateIn, Merge, RecordSize, AfterPut, Applied, Sound,
           LayoutOf, RecordOf, ToMap, Apply, MapIn, InOrder, Inv.Valid, Inv.Now, Inv.ListOf, Inv.View, Inv.Layout;
      ghost var st, e := Now(), RecordOf(u, true);
      Views();
      DeleteMaps(st, t, u);
      if !HasWord(arrays, t) {
        return NoWord, Invalid;
      }
      var w := WordAt(a, t);
      var room := Moved;
      if w != 0 && w % 2 == 0 {
        var bs := EncodeRec(u, true);
        EncodesSize(bs, e);
        room := MakeRoom(t, REC_SIZE + |bs|);
        if room == Fits {
          RecordIs(u, true);
          PutInSlot(t, bs, DocId(u.rid, u.sid), e);
        }
      }
      if room == Moved {
        DeleteWord(t, u);
      }
      rc := if room == Full then Exhausted else Success;
      fate := if room == Full then NoRoom else Accepted;
      Views();
    }

    /** The update of a term that has a word: into its buffer, or into its word or a new slot. */
    method UpdateTerm(t: nat, u: UpdSpec, hint: nat) returns (ghost fate: Fate, rc: Rc)
      requires Valid() && t != 0 && ValidSpec(u) && |u.positions| >= 1 && u.sid >= 1 && HasWord(arrays, t)
      modifies this, space, space.marks, Objects(segs)
      ensures Valid() && (Now(), fate) == UpdateAt(old(Now()), t, RecordOf(u, false), hint) && rc == RcOf(fate)
      ensures fresh(Objects(segs) - old(Objects(segs)))
    {
      hide BufferOk, IndexOk, ListIn, Encodes, RoomIn, StateIn, Merge, RecordSize, WordUpdate, AfterPut, Sound,
           LayoutOf, RecordOf, Inv.Valid, Inv.Now, Inv.ListOf, Inv.Layout;
      ghost var e := RecordOf(u, false);
      RecordIs(u, false);
      var bs := EncodeRec(u, false);
      EncodesSize(bs, e);
      var room := Moved;
      if IsSlot(WordAt(a, t)) {
        room := MakeRoom(t, REC_SIZE + |bs|);
      }
      fate, rc := Accepted, Success;
      match room {
        case Full => fate, rc := NoRoom, Exhausted;
        case Fits => PutInSlot(t, bs, DocId(u.rid, u.sid), e);
        case Moved =>
          WordFate(Now(), t, e, hint);
          fate := UpdateWord(t, u, bs, hint);
      }
    }

    /**
     * sen_inv_update: what the state before foretells. When no segment is left for a record that
     * needs a slot, the update is lost and the caller is not told.
     */
    method Update(t: nat, u: UpdSpec, hint: nat) returns (ghost fate: Fate, rc: Rc)
      requires Valid() && t != 0 && ValidSpec(u)
      modifies this, space, space.marks, Objects(segs)
      ensures Valid() && (Now(), fate) == UpdateSpec(old(Now()), t, u, hint) && rc == RcOf(fate)
      ensures forall k: nat :: View(k) ==
                if k == t && fate == Accepted then Apply(old(View(k)), RecordOf(u, false)) else old(View(k))
      ensures fresh(Objects(segs) - old(Objects(segs)))
    {
      hide StateIn, UpdateAt, DeleteSpec, Sound, RecordOf, ToMap, Apply, MapIn, InOrder, WithWord, GetsWord, Inv.Valid,
           Inv.Now, Inv.ListOf, Inv.View, Inv.Layout;
      Views();
      UpdateMaps(Now(), t, u, hint);
      if |u.positions| == 0 || u.sid == 0 {
        fate, rc := Delete(t, u);
      } else {
        var found := GetWord(t);
        if found {
          fate, rc := UpdateTerm(t, u, hint);
        } else {
          fate, rc := NoRoom, Exhausted;
        }
      }
      Views();
    }

    /** sen_inv_cursor_open: a cursor that lists the term's postings, or none when its word is 0. */
    method OpenCursor(t: nat, withPos: bool) returns (c: Cursor?)
      requires Valid()
      ensures c == null <==> WordAt(a, t) == 0
      ensures c == null ==> old(ListOf(t)) == []
      ensures c != null ==> fresh(c) && c.withPos == withPos && c.Opened(old(ListOf(t)))
    {
      hide BufferOk, WordsOk, SlotPostings, PackedList, TermRecords, Holds, Merge, Pending, Cursor.Valid;
      ghost var ps := ListOf(t);
      var w := WordAt(a, t);
      c := null;
      if !HasWord(arrays, t) {
        WordFacts(t);
        return;
      }
      if !IsSlot(w) {
        WordFacts(t);
      }
      if w % 2 == 1 {
        c := new Cursor.Sole(withPos, PackedId(w), pocket[t]);
      } else if w != 0 {
        SlotFound(a, pocket, segs, t);
        var b, i := segs[SegOf(w)], SlotOf(w);
        SlotFacts(b, i);
        SlotIs(b, i);
        PendingIsList(b, i);
        var bt := b.terms[i];
        c := new Cursor.Merged(withPos, b.chunk[bt.posInChunk..bt.posInChunk + bt.sizeInChunk], b.recs,
                               bt.posInBuffer, b.stored[i], b.content, b.live[i]);
      }
    }
  }

  /** The records of a packed posting and a new one, and what they make of the term's map. */
  lemma HadWord(ps: seq<Posting>, had: bool, bs2: seq<byte>, e2: Posting, bs: seq<byte>, e: Posting)
    requires Sorted(NONE, ps) && |ps| <= 1 && Stored(e) && Encodes(bs, e)
    requires had == (ps != [] && ps[0].id != e.id) && (had ==> e2 == ps[0] && Encodes(bs2, e2))
    ensures ValidRecord(e) && MapOf(had, e2, e) == Apply(ToMap(ps), e)
    ensures BytesOf(had, bs2, bs) == RecordSize(e) + OldSize(ps, e)
  {
    hide Encodes, RecordSize, Apply, ToMap;
    ReplaceSingle(ps, e);
    EncodesSize(bs, e);
    if had {
      EncodesSize(bs2, e2);
    }
  }

  lemma MoveIs(s: State, t: nat, e: Posting, hint: nat)
    requires Sound(s)
    ensures
      var size := RecordSize(e) + OldSize(PostingsOf(s, t), e);
      var seg := Search(s, hint, size);
      MoveUpdate(s, t, e, hint) == if seg == NOWHERE then (s, Dropped) else (AfterPlace(s, t, e, seg, size), Accepted)
  {
    hide Search, RecordSize, OldSize, AfterPlace;
  }

  lemma PlaceFields(s: State, t: nat, e: Posting, seg: nat, size: nat)
    ensures
      var r := AfterPlace(s, t, e, seg, size);
      && r.nseg0 == s.nseg0 && r.total == s.total && r.arrays == s.arrays && r.space == s.space
      && r.segs == WithSlot(s, t, seg, size) && r.home == s.home[t := seg] && r.lists == Applied(s, t, e).lists
  {}

  lemma WithSlotIs(s: State, t: nat, seg: nat, size: nat)
    ensures WithSlot(s, t, seg, size) == s.segs[seg := Placed(ShapeFound(s, seg), t, size)]
  {}

  /** A packed term's update succeeds, or at least says so. */
  lemma WordFate(s: State, t: nat, e: Posting, hint: nat)
    requires Sound(s)
    ensures RcOf(WordUpdate(s, t, e, hint).1) == Success
  {}

  lemma RecordIs(u: UpdSpec, deletep: bool)
    requires ValidSpec(u)
    ensures RecordOf(u, deletep).id == DocId(u.rid, u.sid)
  {}

  lemma InUseIs(ts: seq<Term>)
    ensures InUse(Tids(ts)) == |ts| - Voids(ts)
  {
    if |ts| > 0 {
      InUseIs(ts[..|ts| - 1]);
      assert Tids(ts)[..|ts| - 1] == Tids(ts[..|ts| - 1]);
    }
  }

  lemma Roomy(s: State, seg: nat, size: nat)
    requires seg in s.segs && Stops(s, seg, size)
    ensures s.segs[seg].free >= size + TERM_SIZE
  {}

  /** The list for the map with a record applied is the merge with that record. */
  lemma ListPut(ps: seq<Posting>, qs: seq<Posting>, e: Posting)
    requires Sorted(NONE, ps) && Sorted(NONE, qs) && ValidRecord(e) && ToMap(qs) == Apply(ToMap(ps), e)
    ensures qs == Merge(ps, [e])
  {
    hide ToMap, Apply;
    PutApplies(ps, [], e);
    assert PutSpec([], e) == [e] && Merge(ps, []) == ps;
    ListOfMap(qs, Merge(ps, [e]));
  }

  /** The state when a record has been applied to the postings of term `t`. */
  lemma AppliedState(st: State, r: State, t: nat, e: Posting, a: Words, pk: Pockets, segs: Segments)
    requires IndexOk(a, pk, segs) && r.segs == LayoutOf(segs)
    requires r.lists == Applied(st, t, e).lists
    requires forall k: nat :: k in st.lists && (k != t ==> PostingsOf(st, k) == ListIn(a, pk, segs, k))
    requires Sorted(NONE, PostingsOf(st, t)) && ValidRecord(e)
    requires ToMap(ListIn(a, pk, segs, t)) == Apply(ToMap(PostingsOf(st, t)), e)
    requires forall k: nat :: k in r.home && r.home[k] == HomeIn(WordAt(a, k))
    ensures StateIn(r.nseg0, r.total, r.arrays, r.space, a, pk, segs) == r
  {
    hide IndexOk, ListIn, LayoutOf, ToMap, Apply, Merge;
    ListPut(PostingsOf(st, t), ListIn(a, pk, segs, t), e);
    StateIs(r, a, pk, segs);
  }

  /** A packed posting, as a record. */
  method RecordOfWord(id: DocId, pos: u32) returns (bs: seq<byte>, id2: DocId, ghost e: Posting)
    requires id.rid >= 1
    ensures e == Posting(id, 0, [pos]) && id2 == id && Encodes(bs, e) && |bs| % REC_SIZE == 0
    ensures ValidRecord(e) && RecordSize(e) == REC_SIZE + |bs|
  {
    hide Encodes;
    bs := EncodeRec(UpdSpec(id.rid, id.sid, 0, [pos]), false);
    e, id2 := Posting(id, 0, [pos]), id;
    assert RecordOf(UpdSpec(id.rid, id.sid, 0, [pos]), false) == e;
    EncodesSize(bs, e);
  }

  lemma PackedIs(a: Words, pk: Pockets, t: nat)
    requires WordOk(a, pk, t) && !IsSlot(WordAt(a, t))
    ensures
      var w, ps := WordAt(a, t), PackedList(a, pk, t);
      if w == 0 then ps == []
      else
        && w % 2 == 1 && t in pk && ps == [Posting(PackedId(w), 0, [pk[t]])] && Stored(ps[0]) && Packable(ps[0])
        && GapsOf(0, [pk[t]]) == [pk[t]]
  {}

  lemma SingleMap(p: Posting)
    requires Stored(p)
    ensures Sorted(NONE, [p]) && ToMap([p]) == Apply(map[], p)
  {}

  /** A term with one posting, or none. */
  lemma ReplaceSingle(ps: seq<Posting>, e: Posting)
    requires Sorted(NONE, ps) && |ps| <= 1 && Stored(e)
    ensures ps == [] ==> ToMap(ps) == map[]
    ensures ps != [] ==> ToMap(ps) == Apply(map[], ps[0])
    ensures ps != [] && ps[0].id == e.id ==> Apply(ToMap(ps), e) == Apply(map[], e)
  {
    if ps != [] {
      SingleMap(ps[0]);
      assert ps == [ps[0]];
    }
  }

  lemma DeleteSingle(ps: seq<Posting>, e: Posting)
    requires Sorted(NONE, ps) && |ps| <= 1 && !Adds(e)
    ensures Apply(ToMap(ps), e) == if ps == [] || Kills(e.id, ps[0].id) then map[] else ToMap(ps)
    ensures ToMap([]) == map[]
  {}

  lemma SpecFacts(u: UpdSpec)
    requires ValidSpec(u) && u.sid >= 1 && |u.positions| >= 1
    ensures
      var e := RecordOf(u, false);
      && e.id == DocId(u.rid, u.sid) && Stored(e)
      && (Packable(e) <==>
            u.rid < RID_LIMIT && u.sid < SID_LIMIT && |u.positions| == 1 && u.score == 0 && u.positions[0] < POS_LIMIT)
  {}

  lemma PackSpec(u: UpdSpec, t: nat)
    requires ValidSpec(u) && u.sid >= 1 && |u.positions| == 1 && Packable(RecordOf(u, false))
    ensures
      var w, pos := PackedWord(DocId(u.rid, u.sid)), u.positions[0];
      && !IsSlot(w) && WordOk(map[t := w], map[t := pos], t)
      && PackedList(map[t := w], map[t := pos], t) == [RecordOf(u, false)]
  {
    PackedIdBack(DocId(u.rid, u.sid));
    var w, pos := PackedWord(DocId(u.rid, u.sid)), u.positions[0];
    PackedIs(map[t := w], map[t := pos], t);
    assert u.positions == [pos];
  }

  lemma PendingIsList(b: Segment, i: nat)
    requires BufferOk(b) && i < |b.terms|
    ensures i < |b.live| && (forall k :: 0 <= k < |b.live[i]| ==> b.live[i][k] in b.content)
    ensures Pending(b, i) == Entries(b.content, b.live[i])
  {}

  lemma SlotIn(a: Words, pk: Pockets, slots: Slots, t: nat)
    requires WordsOk(a, pk, slots) && IsSlot(WordAt(a, t))
    ensures Addresses(WordAt(a, t), slots, t)
  {}

  lemma WordOkAt(a: Words, pk: Pockets, slots: Slots, t: nat)
    requires WordsOk(a, pk, slots)
    ensures WordOk(a, pk, t)
  {}

  lemma PackedSame(a: Words, pk: Pockets, a2: Words, pk2: Pockets, t: nat)
    requires WordOk(a, pk, t) && WordOk(a2, pk2, t) && WordAt(a2, t) == WordAt(a, t)
    requires t in pk && t in pk2 ==> pk2[t] == pk[t]
    ensures PackedList(a2, pk2, t) == PackedList(a, pk, t)
  {}

  lemma WordsAdded(a: Words, pk: Pockets, slots: Slots, slots2: Slots, s: nat)
    requires WordsOk(a, pk, slots) && s !in slots && slots2 == slots[s := []]
    ensures WordsOk(a, pk, slots2)
  {}

  lemma RoomOf(b: Segment)
    requires BufferOk(b)
    ensures HEADER_SIZE + TERM_SIZE * |b.terms| <= SEGMENT_SIZE
  {}

  lemma LayoutKeys(segs: Segments)
    ensures (forall s: nat :: s in LayoutOf(segs) <==> s in segs) && |LayoutOf(segs)| == |segs|
  {
    assert LayoutOf(segs).Keys == segs.Keys;
  }

  lemma LayoutAll(segs: Segments)
    ensures forall k :: k in LayoutOf(segs) <==> k in segs
    ensures forall k :: k in segs ==> LayoutOf(segs)[k] == ShapeOf(segs[k])
  {}

  /** Only the shape of segment `s` has changed. */
  lemma LayoutChanged(segs: Segments, before: map<nat, Shape>, s: nat)
    requires s in segs && forall k :: k in before <==> k in segs
    requires forall k :: k in segs && k != s ==> before[k] == ShapeOf(segs[k])
    ensures LayoutOf(segs) == before[s := ShapeOf(segs[s])]
  {}

  lemma LayoutSet(segs: Segments, s: nat, db: Segment)
    ensures s in segs ==> s in LayoutOf(segs) && LayoutOf(segs)[s] == ShapeOf(segs[s])
    ensures LayoutOf(segs[s := db]) == LayoutOf(segs)[s := ShapeOf(db)]
  {}

  /** The state after a flush of segment `s`. */
  lemma FlushedState(st: State, s: nat, a: Words, a2: Words, pk2: Pockets, segs2: Segments)
    requires IndexOk(a2, pk2, segs2) && s in st.segs
    requires LayoutOf(segs2) == st.segs[s := ShapeAfter(st, s)]
    requires forall t: nat :: t in st.lists && PostingsOf(st, t) == ListIn(a2, pk2, segs2, t)
    requires forall t: nat :: HomeOf(st, t) == HomeIn(WordAt(a, t))
    requires forall t: nat :: KeepsSlot(WordAt(a, t), WordAt(a2, t), s, PostingsOf(st, t))
    ensures
      var chunk := ShapeAfter(st, s).chunk;
      StateIn(st.nseg0, TotalAfter(st.total, st.segs[s].chunk, chunk), st.arrays,
        ChunkSpaces.SpaceAfter(st.space, s, chunk), a2, pk2, segs2) == AfterFlush(st, s)
  {
    hide IndexOk, ListIn, LayoutOf, ShapeAfter, TotalAfter, Compact, ChunkSpaces.SpaceAfter;
    var r := AfterFlush(st, s);
    forall t: nat ensures HomeAfter(st, s, t) == HomeIn(WordAt(a2, t)) {
      assert KeepsSlot(WordAt(a, t), WordAt(a2, t), s, PostingsOf(st, t));
    }
    StateIs(r, a2, pk2, segs2);
  }

  lemma FlushKeepsAll(a: Words, pk: Pockets, segs: Segments, s: nat, db: Segment, a2: Words, pk2: Pockets)
    requires FlushOf(a, pk, segs, s, db, a2, pk2) && IndexOk(a2, pk2, segs[s := db])
    ensures |db.terms| == |segs[s].terms|
    ensures forall t :: ListIn(a2, pk2, segs[s := db], t) == ListIn(a, pk, segs, t)
    ensures forall t :: KeepsSlot(WordAt(a, t), WordAt(a2, t), s, ListIn(a, pk, segs, t))
  {
    hide ListIn, BufferOk, Flushed, Untouched, WordsOk, KeepsSlot;
    forall t
      ensures ListIn(a2, pk2, segs[s := db], t) == ListIn(a, pk, segs, t)
      ensures KeepsSlot(WordAt(a, t), WordAt(a2, t), s, ListIn(a, pk, segs, t))
    {
      FlushKeeps(a, pk, segs, s, db, a2, pk2, t);
    }
  }
}
