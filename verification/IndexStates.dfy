/**
 * The inverted index seen from outside (`lib/inv.c`): where every term is, how full the buffers
 * are, and what becomes of an update or a deletion, all decided by the state before it.
 */
module IndexStates {
  import opened ByteCodec
  import opened PostingCodec
  import opened Records
  import opened BufferList
  import opened Merging
  import opened Buffers
  import opened FlushBuffers
  import opened WordArrays
  import opened ImageBounds
  import ChunkSpaces

  const NOWHERE := -1

  /**
   * initial_n_segments and total_chunk_size of the header, the array segments and the buffers that
   * are assigned (by logical segment), the space for chunks, the segment in which each term has a slot
   * (or NOWHERE), and the postings of each term.
   */
  datatype State = State(nseg0: nat, total: nat, arrays: set<nat>, segs: map<nat, Shape>, space: ChunkSpaces.Space,
                         home: imap<nat, int>, lists: imap<nat, seq<Posting>>)

  function HomeOf(s: State, t: nat): int {
    if t in s.home then s.home[t] else NOWHERE
  }

  function PostingsOf(s: State, t: nat): seq<Posting> {
    if t in s.lists then s.lists[t] else []
  }

  /** Terms are in buffers that exist. */
  ghost predicate Sound(s: State) {
    0 < s.nseg0 <= MAX_SEGMENT && forall t: nat :: Homed(s, t)
  }

  ghost predicate Homed(s: State, t: nat) {
    HomeOf(s, t) == NOWHERE || HomeOf(s, t) in s.segs
  }

  // ---------------------------------------------------------------- physical segments

  const MAX_ID := 0xfff_ffff
  const ARRAY_SIZE := 0x1_0000  // words in a segment

  /** segment_get: arrays and buffers take one physical segment each, of MAX_SEGMENT. */
  predicate Spare(arrays: set<nat>, buffers: nat) {
    |arrays| + buffers < MAX_SEGMENT
  }

  predicate SpareIn(s: State) {
    Spare(s.arrays, |s.segs|)
  }

  /** array_at: there is a word for the term. */
  predicate HasWord(arrays: set<nat>, t: nat) {
    t <= MAX_ID && t / ARRAY_SIZE in arrays
  }

  /** array_get: there is one, or one can be made. */
  predicate GetsWord(s: State, t: nat) {
    t <= MAX_ID && (t / ARRAY_SIZE in s.arrays || SpareIn(s))
  }

  ghost function WithWord(s: State, t: nat): (r: State)
    ensures Sound(s) ==> Sound(r)
  {
    var r := s.(arrays := s.arrays + {t / ARRAY_SIZE});
    assert forall k: nat :: Homed(s, k) ==> Homed(r, k);
    r
  }

  // ---------------------------------------------------------------- the segment search of buffer_new

  function InUse(slots: seq<nat>): nat {
    if |slots| == 0 then 0 else InUse(slots[..|slots| - 1]) + if slots[|slots| - 1] == 0 then 0 else 1
  }

  /** buffer_open_if_capable: few terms, or a chunk that is small for so many, and room. */
  predicate Capable(s: State, seg: nat, size: nat) {
    && seg in s.segs
    && var sh, n := s.segs[seg], InUse(s.segs[seg].slots);
       (n < 4096 || Shr(s.total, n / 0x100 - 6) > sh.chunk) && sh.free >= size + TERM_SIZE
  }

  /** The search ends at a segment without a buffer, or with a capable one. */
  predicate Stops(s: State, seg: nat, size: nat) {
    seg !in s.segs || Capable(s, seg, size)
  }

  /** segmax, a 16-bit number. */
  function SegMaxOf(total: nat, nseg0: nat): nat {
    (total / 0x80 % 0x1_0000 + nseg0) % 0x1_0000
  }

  function SegMax(s: State): nat {
    SegMaxOf(s.total, s.nseg0)
  }

  /** The segment that the search starts with. */
  function FirstOf(hint: nat, nseg0: nat): (r: nat)
    requires nseg0 > 0
    ensures r < nseg0
  {
    hint % nseg0
  }

  /** From `seg` on in strides; it ends behind the last segment there is room for. */
  function Along(s: State, size: nat, seg: nat): (r: nat)
    requires s.nseg0 > 0
    ensures r >= seg
    ensures r < SegMax(s) && r < MAX_SEGMENT ==> Stops(s, r, size)
    decreases if seg < MAX_SEGMENT then MAX_SEGMENT - seg else 0
  {
    if seg >= SegMax(s) || seg >= MAX_SEGMENT || Stops(s, seg, size) then seg
    else Along(s, size, seg + s.nseg0)
  }

  /** The next one of n segments, around. */
  function NextOf(seg: nat, n: nat): (r: nat)
    requires seg < n
    ensures r == if seg + 1 == n then 0 else seg + 1
  {
    (seg + 1) % n
  }

  /** Around the first segments, back to `seg0`. */
  function Around(s: State, size: nat, seg: nat, seg0: nat): (r: nat)
    requires seg < s.nseg0 && seg0 < s.nseg0
    ensures r < s.nseg0 && (r != seg0 ==> Stops(s, r, size))
    decreases if seg <= seg0 then seg0 - seg else seg0 + s.nseg0 - seg
  {
    if seg == seg0 || Stops(s, seg, size) then seg else Around(s, size, NextOf(seg, s.nseg0), seg0)
  }

  /** The rest of the segments. */
  function Beyond(s: State, size: nat, seg: nat): (r: nat)
    ensures r >= seg
    ensures r < MAX_SEGMENT ==> Stops(s, r, size)
    decreases if seg < MAX_SEGMENT then MAX_SEGMENT - seg else 0
  {
    if seg >= MAX_SEGMENT || Stops(s, seg, size) then seg else Beyond(s, size, seg + 1)
  }

  /** buffer_segment_new: the first segment without a buffer. */
  function FirstFree(s: State, seg: nat): (r: nat)
    ensures r < MAX_SEGMENT ==> r !in s.segs
    decreases if seg < MAX_SEGMENT then MAX_SEGMENT - seg else 0
  {
    if seg >= MAX_SEGMENT || seg !in s.segs then seg else FirstFree(s, seg + 1)
  }

  /** The segment that the search for `size` bytes comes to, if there is one. */
  function Found(s: State, hint: nat, size: nat): (r: int)
    requires 0 < s.nseg0 <= MAX_SEGMENT
    ensures
      r == NOWHERE || (0 <= r < MAX_SEGMENT && Stops(s, r, size) && size + HEADER_SIZE + TERM_SIZE <= SEGMENT_SIZE)
  {
    var seg0 := FirstOf(hint, s.nseg0);
    if size + HEADER_SIZE + TERM_SIZE > SEGMENT_SIZE then NOWHERE
    else
      var r1 := Along(s, size, seg0);
      if r1 < SegMax(s) && r1 < MAX_SEGMENT then r1
      else
        var r2 := Around(s, size, NextOf(seg0, s.nseg0), seg0);
        if r2 != seg0 then r2
        else
          var r3 := Beyond(s, size, s.nseg0);
          if r3 < MAX_SEGMENT then r3
          else
            var r4 := FirstFree(s, 0);
            if r4 < MAX_SEGMENT then r4 else NOWHERE
  }

  /** buffer_new: a segment without a buffer needs a physical one. */
  function Search(s: State, hint: nat, size: nat): (r: int)
    requires 0 < s.nseg0 <= MAX_SEGMENT
    ensures
      r == NOWHERE || (0 <= r < MAX_SEGMENT && Stops(s, r, size) && size + HEADER_SIZE + TERM_SIZE <= SEGMENT_SIZE)
    ensures r == NOWHERE || r in s.segs || SpareIn(s)
  {
    var r := Found(s, hint, size);
    if r == NOWHERE || (r !in s.segs && !SpareIn(s)) then NOWHERE else r
  }

  /** There is no segment for records of this size. */
  ghost predicate NoSegment(s: State, hint: nat, size: nat)
    requires 0 < s.nseg0 <= MAX_SEGMENT
  {
    || size + HEADER_SIZE + TERM_SIZE > SEGMENT_SIZE
    || (forall seg: nat :: seg < MAX_SEGMENT ==> Shut(s, hint, size, seg))
    || (!SpareIn(s) && Found(s, hint, size) !in s.segs)
  }

  /**
   * A segment with a buffer that has no room, or too many terms for so large a chunk, or that is the
   * first one, which the search passes when segmax has run over.
   */
  ghost predicate Shut(s: State, hint: nat, size: nat, seg: nat)
    requires s.nseg0 > 0
  {
    && seg in s.segs
    && var sh, n := s.segs[seg], |set i | 0 <= i < |s.segs[seg].slots| && s.segs[seg].slots[i] != 0|;
       || sh.free < size + TERM_SIZE
       || (n >= 4096 && s.total / TwoTo(n / 0x100 - 6) <= sh.chunk)
       || (seg == hint % s.nseg0 && (s.total / 0x80 % 0x1_0000 + s.nseg0) % 0x1_0000 <= seg)
  }

  lemma ShutIs(s: State, hint: nat, size: nat, seg: nat)
    requires s.nseg0 > 0
    ensures Shut(s, hint, size, seg) <==>
              seg in s.segs && (Capable(s, seg, size) ==> seg == FirstOf(hint, s.nseg0) && SegMax(s) <= seg)
  {
    hide Shr, InUse, TwoTo;
    if seg in s.segs {
      var slots := s.segs[seg].slots;
      InUseCount(slots);
      if InUse(slots) >= 4096 {
        ShrIs(s.total, InUse(slots) / 0x100 - 6);
      }
    }
  }

  lemma {:induction false} InUseCount(slots: seq<nat>)
    ensures InUse(slots) == |set i | 0 <= i < |slots| && slots[i] != 0|
  {
    if |slots| > 0 {
      var k := |slots| - 1;
      var before := set i | 0 <= i < k && slots[..k][i] != 0;
      InUseCount(slots[..k]);
      assert (set i | 0 <= i < |slots| && slots[i] != 0) == before + if slots[k] == 0 then {} else {k};
    }
  }

  function TwoTo(n: nat): (r: nat)
    ensures r > 0
  {
    if n == 0 then 1 else 2 * TwoTo(n - 1)
  }

  lemma {:induction false} ShrIs(x: nat, n: nat)
    ensures Shr(x, n) == x / TwoTo(n)
    decreases n
  {
    if n > 0 {
      ShrIs(x / 2, n - 1);
      HalfFirst(x, TwoTo(n - 1));
    }
  }

  lemma HalfFirst(x: nat, d: nat)
    requires d > 0
    ensures x / 2 / d == x / (2 * d)
  {
    var q := x / 2 / d;
    assert q * d <= x / 2 < q * d + d;
    Quotient(x, 2 * d, q);
  }

  lemma TimesUp(a: nat, b: nat, d: nat)
    requires a <= b
    ensures a * d <= b * d
  {}

  lemma Quotient(x: nat, d: nat, q: nat)
    requires d > 0 && q * d <= x < q * d + d
    ensures x / d == q
  {
    var p := x / d;
    assert p * d <= x < p * d + d;
    if p < q {
      TimesUp(p + 1, q, d);
    } else if q < p {
      TimesUp(q + 1, p, d);
    }
  }

  lemma {:induction false} AroundAll(s: State, size: nat, seg: nat, seg0: nat)
    requires seg < s.nseg0 && seg0 < s.nseg0 && Around(s, size, seg, seg0) == seg0
    ensures forall k: nat :: (if seg <= seg0 then seg <= k < seg0 else k < seg0 || seg <= k < s.nseg0) ==>
        !Stops(s, k, size)
    decreases if seg <= seg0 then seg0 - seg else seg0 + s.nseg0 - seg
  {
    hide Stops, NextOf;
    if seg != seg0 {
      AroundAll(s, size, NextOf(seg, s.nseg0), seg0);
    }
  }

  lemma {:induction false} BeyondAll(s: State, size: nat, seg: nat)
    requires Beyond(s, size, seg) >= MAX_SEGMENT
    ensures forall k: nat :: seg <= k < MAX_SEGMENT ==> !Stops(s, k, size)
    decreases if seg < MAX_SEGMENT then MAX_SEGMENT - seg else 0
  {
    hide Stops;
    if seg < MAX_SEGMENT {
      BeyondAll(s, size, seg + 1);
    }
  }

  lemma {:induction false} NoneFree(s: State, seg: nat)
    requires FirstFree(s, seg) >= MAX_SEGMENT
    ensures forall k: nat :: seg <= k < MAX_SEGMENT ==> k in s.segs
    decreases if seg < MAX_SEGMENT then MAX_SEGMENT - seg else 0
  {
    if seg < MAX_SEGMENT {
      NoneFree(s, seg + 1);
    }
  }

  /**
   * The search fails exactly when the records are too long, or every segment is shut, or it comes to
   * one without a buffer and no physical segment is left for it.
   */
  lemma SearchFails(s: State, hint: nat, size: nat)
    requires 0 < s.nseg0 <= MAX_SEGMENT
    ensures Search(s, hint, size) == NOWHERE <==> NoSegment(s, hint, size)
  {
    hide Shut, Capable, Along, Around, Beyond, FirstFree, SegMax, NextOf, FirstOf;
    var seg0 := FirstOf(hint, s.nseg0);
    if Found(s, hint, size) == NOWHERE {
      if size + HEADER_SIZE + TERM_SIZE <= SEGMENT_SIZE {
        NoneFree(s, 0);
        BeyondAll(s, size, s.nseg0);
        AroundRest(s, size, seg0);
        FirstTested(s, size, seg0);
        forall seg: nat | seg < MAX_SEGMENT ensures Shut(s, hint, size, seg) {
          assert seg == seg0 || !Stops(s, seg, size);
          ShutIs(s, hint, size, seg);
        }
      }
    } else {
      NotBack(s, hint, size);
      ShutIs(s, hint, size, Found(s, hint, size));
    }
  }

  lemma AroundRest(s: State, size: nat, seg0: nat)
    requires seg0 < s.nseg0 && Around(s, size, NextOf(seg0, s.nseg0), seg0) == seg0
    ensures forall k: nat :: k < s.nseg0 && k != seg0 ==> !Stops(s, k, size)
  {
    hide Stops, Around, NextOf;
    AroundAll(s, size, NextOf(seg0, s.nseg0), seg0);
  }

  /** The first segment of all is tested, unless segmax has run over. */
  lemma FirstTested(s: State, size: nat, seg0: nat)
    requires seg0 < s.nseg0 <= MAX_SEGMENT && !(Along(s, size, seg0) < SegMax(s) && Along(s, size, seg0) < MAX_SEGMENT)
    ensures seg0 < SegMax(s) ==> !Stops(s, seg0, size)
  {}

  /** The search ends at the first segment, with a buffer, only if it has tested it. */
  lemma NotBack(s: State, hint: nat, size: nat)
    requires 0 < s.nseg0 <= MAX_SEGMENT
    ensures var r := Found(s, hint, size); r == FirstOf(hint, s.nseg0) && r in s.segs ==> r < SegMax(s)
  {}

  // ---------------------------------------------------------------- a flush

  /** The postings of the terms of slots. */
  function ListsIn(s: State, slots: seq<nat>): (r: seq<seq<Posting>>)
    ensures |r| == |slots|
  {
    seq(|slots|, i requires 0 <= i < |slots| => if slots[i] == 0 then [] else PostingsOf(s, slots[i]))
  }

  /** The slots of terms whose postings do not fit into a word. */
  function SlotsAfter(slots: seq<nat>, lists: seq<seq<Posting>>): (r: seq<nat>)
    requires |lists| == |slots|
    ensures |r| == |slots|
  {
    seq(|slots|, i requires 0 <= i < |slots| => if Compact(lists[i]) then 0 else slots[i])
  }

  /** There is a physical segment for the new buffer, and chunk_new finds room. */
  ghost predicate CanFlush(s: State, seg: nat) {
    SpareIn(s) && ChunkSpaces.CanReserve(s.space, seg)
  }

  ghost function ShapeAfter(s: State, seg: nat): Shape
    requires seg in s.segs
  {
    var slots := s.segs[seg].slots;
    var lists := ListsIn(s, slots);
    Shape(SlotsAfter(slots, lists), SEGMENT_SIZE - HEADER_SIZE - TERM_SIZE * |slots|, ImageSizes(lists))
  }

  /** total_chunk_size, in units of 1024 bytes, after a chunk was exchanged. */
  function TotalAfter(total: nat, chunk: nat, chunk2: nat): (r: nat)
    ensures r < TWO32
  {
    (total + chunk2 / 0x400 - chunk / 0x400) % TWO32
  }

  function HomeAfter(s: State, seg: nat, t: nat): int {
    if HomeOf(s, t) == seg && Compact(PostingsOf(s, t)) then NOWHERE else HomeOf(s, t)
  }

  ghost function AfterFlush(s: State, seg: nat): (r: State)
    requires seg in s.segs
    ensures seg in r.segs && r.lists == s.lists && r.nseg0 == s.nseg0
  {
    var sh := ShapeAfter(s, seg);
    s.(segs := s.segs[seg := sh], total := TotalAfter(s.total, s.segs[seg].chunk, sh.chunk),
       space := ChunkSpaces.SpaceAfter(s.space, seg, sh.chunk),
       home := imap t: nat | true :: HomeAfter(s, seg, t))
  }

  // ---------------------------------------------------------------- records

  /** Record `e` applied to the postings of a term. */
  function Applied(s: State, t: nat, e: Posting): State {
    s.(lists := s.lists[t := Merge(PostingsOf(s, t), [e])])
  }

  /** ... and put into the buffer of the term. */
  function AfterPut(s: State, t: nat, e: Posting): State
    requires HomeOf(s, t) in s.segs
  {
    var seg: nat := HomeOf(s, t);
    Applied(s, t, e).(segs := s.segs[seg := s.segs[seg].(free := s.segs[seg].free - RecordSize(e))])
  }

  /** A segment as the search finds it: without a buffer it gets an empty one. */
  function ShapeFound(s: State, seg: nat): Shape {
    if seg in s.segs then s.segs[seg] else Shape([], SEGMENT_SIZE - HEADER_SIZE, 0)
  }

  function WithSlot(s: State, t: nat, seg: nat, size: nat): map<nat, Shape> {
    s.segs[seg := Placed(ShapeFound(s, seg), t, size)]
  }

  /** ... or put into a new slot of segment `seg`, with `size` bytes of records. */
  function AfterPlace(s: State, t: nat, e: Posting, seg: nat, size: nat): State {
    Applied(s, t, e).(segs := WithSlot(s, t, seg, size), home := s.home[t := seg])
  }

  // ---------------------------------------------------------------- updates and deletions

  /** Applied to the map; dropped, and yet reported as a success; no room; or no word to delete from. */
  datatype Fate = Accepted | Dropped | NoRoom | NoWord

  datatype Rc = Success | Exhausted | Invalid

  function RcOf(f: Fate): Rc {
    match f
    case NoRoom => Exhausted
    case NoWord => Invalid
    case _ => Success
  }

  /**
   * Where a record finds its term: with room in its buffer, without (also because the buffer cannot be
   * flushed), or now outside of any buffer.
   */
  datatype Room = Fits | Full | Moved

  /** Room for `n` bytes in the buffer of a term, after a flush if there is none before. */
  ghost function RoomIn(s: State, t: nat, n: nat): (r: (Room, State))
    requires Sound(s) && HomeOf(s, t) != NOWHERE
    ensures Sound(r.1) && r.1.lists == s.lists && r.1.segs.Keys == s.segs.Keys
    ensures if r.0 == Moved then HomeOf(r.1, t) == NOWHERE else HomeOf(r.1, t) == HomeOf(s, t)
  {
    assert Homed(s, t);
    var seg: nat := HomeOf(s, t);
    if n <= s.segs[seg].free then (Fits, s)
    else if !CanFlush(s, seg) then (Full, s)
    else
      FlushSound(s, seg);
      var s1 := AfterFlush(s, seg);
      if Compact(PostingsOf(s, t)) then (Moved, s1)
      else if n <= s1.segs[seg].free then (Fits, s1)
      else (Full, s1)
  }

  /** A term that is in no buffer needs no room there. */
  ghost function RoomFor(s: State, t: nat, n: nat): (r: (Room, State))
    requires Sound(s)
    ensures Sound(r.1) && r.1.lists == s.lists && r.1.segs.Keys == s.segs.Keys
    ensures if r.0 == Moved then HomeOf(r.1, t) == NOWHERE else HomeOf(r.1, t) == HomeOf(s, t) != NOWHERE
  {
    if HomeOf(s, t) == NOWHERE then (Moved, s) else RoomIn(s, t, n)
  }

  /** The bytes for the record of a packed posting that stays, when there is a new one. */
  function OldSize(ps: seq<Posting>, e: Posting): nat {
    if ps != [] && ps[0].id != e.id then RecordSize(ps[0]) else 0
  }

  /** The update of a term that has no slot stays in a word. */
  predicate StaysPacked(ps: seq<Posting>, e: Posting) {
    (ps == [] || ps[0].id == e.id) && Packable(e)
  }

  /** A term outside of any buffer gets a slot, for its packed posting and the new one. */
  ghost function MoveUpdate(s: State, t: nat, e: Posting, hint: nat): (r: (State, Fate))
    requires Sound(s)
    ensures Sound(r.0)
  {
    var size := RecordSize(e) + OldSize(PostingsOf(s, t), e);
    var seg := Search(s, hint, size);
    if seg == NOWHERE then (s, Dropped)
    else (PlaceSound(s, t, e, seg, size); (AfterPlace(s, t, e, seg, size), Accepted))
  }

  ghost function WordUpdate(s: State, t: nat, e: Posting, hint: nat): (r: (State, Fate))
    requires Sound(s)
    ensures Sound(r.0)
  {
    if StaysPacked(PostingsOf(s, t), e) then (AppliedSound(s, t, e); (Applied(s, t, e), Accepted))
    else MoveUpdate(s, t, e, hint)
  }

  ghost function DeleteSpec(s: State, t: nat, u: UpdSpec): (r: (State, Fate))
    requires Sound(s)
    ensures Sound(r.0)
  {
    var e := RecordOf(u, true);
    if !HasWord(s.arrays, t) then (s, NoWord)
    else
      var (room, s1) := RoomFor(s, t, RecordSize(e));
      match room
      case Fits => (PutSound(s1, t, e); (AfterPut(s1, t, e), Accepted))
      case Moved => (AppliedSound(s1, t, e); (Applied(s1, t, e), Accepted))
      case Full => (s1, NoRoom)
  }

  /** The update of a term that has a word. */
  ghost function UpdateAt(s: State, t: nat, e: Posting, hint: nat): (r: (State, Fate))
    requires Sound(s)
    ensures Sound(r.0)
  {
    var (room, s1) := RoomFor(s, t, RecordSize(e));
    match room
    case Fits => (PutSound(s1, t, e); (AfterPut(s1, t, e), Accepted))
    case Moved => WordUpdate(s1, t, e, hint)
    case Full => (s1, NoRoom)
  }

  ghost function UpdateSpec(s: State, t: nat, u: UpdSpec, hint: nat): (r: (State, Fate))
    requires Sound(s)
    ensures Sound(r.0)
  {
    if |u.positions| == 0 || u.sid == 0 then DeleteSpec(s, t, u)
    else if !GetsWord(s, t) then (s, NoRoom)
    else UpdateAt(WithWord(s, t), t, RecordOf(u, false), hint)
  }

  lemma FlushSound(s: State, seg: nat)
    requires Sound(s) && seg in s.segs
    ensures Sound(AfterFlush(s, seg))
  {
    hide ShapeAfter, TotalAfter, Compact;
    forall k: nat ensures Homed(AfterFlush(s, seg), k) {
      assert Homed(s, k);
    }
  }

  lemma AppliedSound(s: State, t: nat, e: Posting)
    requires Sound(s)
    ensures Sound(Applied(s, t, e))
  {
    hide Merge;
    forall k: nat ensures Homed(Applied(s, t, e), k) {
      assert Homed(s, k);
    }
  }

  lemma PutSound(s: State, t: nat, e: Posting)
    requires Sound(s) && HomeOf(s, t) != NOWHERE
    ensures HomeOf(s, t) in s.segs && Sound(AfterPut(s, t, e))
  {
    hide Merge, RecordSize;
    assert Homed(s, t);
    forall k: nat ensures Homed(AfterPut(s, t, e), k) {
      assert Homed(s, k);
    }
  }

  lemma PlaceSound(s: State, t: nat, e: Posting, seg: nat, size: nat)
    requires Sound(s)
    ensures Sound(AfterPlace(s, t, e, seg, size))
  {
    hide Merge, Placed;
    forall k: nat ensures Homed(AfterPlace(s, t, e, seg, size), k) {
      assert Homed(s, k);
    }
  }

  // ---------------------------------------------------------------- what they do to the postings

  /** Only the term's own postings change, and exactly if the call is accepted. */
  ghost predicate Writes(s: State, s2: State, t: nat, e: Posting, fate: Fate) {
    forall k: nat ::
      PostingsOf(s2, k) == if k == t && fate == Accepted then Merge(PostingsOf(s, t), [e]) else PostingsOf(s, k)
  }

  lemma DeleteWrites(s: State, t: nat, u: UpdSpec)
    requires Sound(s)
    ensures var (s2, fate) := DeleteSpec(s, t, u); Writes(s, s2, t, RecordOf(u, true), fate)
  {
    hide Merge, RecordSize, RoomFor;
  }

  lemma UpdateWrites(s: State, t: nat, u: UpdSpec, hint: nat)
    requires Sound(s)
    ensures
      var (s2, fate) := UpdateSpec(s, t, u, hint);
      Writes(s, s2, t, RecordOf(u, |u.positions| == 0 || u.sid == 0), fate)
  {
    hide Merge, RecordSize, RoomFor, DeleteSpec, Search, Placed, Packable;
    DeleteWrites(s, t, u);
  }

  ghost predicate InOrder(s: State) {
    forall k: nat :: Sorted(NONE, PostingsOf(s, k))
  }

  ghost function MapIn(s: State, t: nat): Postings
    requires InOrder(s)
  {
    ToMap(PostingsOf(s, t))
  }

  /** The maps of state `s2`, when record `e` of term `t` has been applied to those of `s` if it was accepted. */
  ghost predicate MapsAfter(s: State, s2: State, t: nat, e: Posting, fate: Fate)
    requires InOrder(s) && InOrder(s2)
  {
    forall k: nat :: MapIn(s2, k) == if k == t && fate == Accepted then Apply(MapIn(s, k), e) else MapIn(s, k)
  }

  lemma WritesMaps(s: State, s2: State, t: nat, e: Posting, fate: Fate)
    requires InOrder(s) && ValidRecord(e) && Writes(s, s2, t, e, fate)
    ensures InOrder(s2) && MapsAfter(s, s2, t, e, fate)
  {
    hide Merge, Apply, ToMap;
    var ps := PostingsOf(s, t);
    PutApplies(ps, [], e);
    assert PutSpec([], e) == [e];
    MergeNone(ps);
  }

  lemma MergeNone(ps: seq<Posting>)
    ensures Merge(ps, []) == ps
  {}

  /** A deletion applies to the map of its term, if it is accepted, and to no other. */
  lemma DeleteMaps(s: State, t: nat, u: UpdSpec)
    requires Sound(s) && InOrder(s) && ValidSpec(u)
    ensures var (s2, fate) := DeleteSpec(s, t, u); InOrder(s2) && MapsAfter(s, s2, t, RecordOf(u, true), fate)
  {
    hide DeleteSpec, Writes, MapsAfter, InOrder;
    DeleteWrites(s, t, u);
    WritesMaps(s, DeleteSpec(s, t, u).0, t, RecordOf(u, true), DeleteSpec(s, t, u).1);
  }

  /** An update without positions, or of section 0, is a deletion. */
  lemma ApplyNothing(m: Postings, u: UpdSpec)
    requires ValidSpec(u) && (|u.positions| == 0 || u.sid == 0)
    ensures Apply(m, RecordOf(u, true)) == Apply(m, RecordOf(u, false))
  {}

  lemma RecordValid(u: UpdSpec, deletep: bool)
    requires ValidSpec(u)
    ensures ValidRecord(RecordOf(u, deletep))
  {}

  /** An update applies to the map of its term, if it is accepted, and to no other. */
  lemma UpdateMaps(s: State, t: nat, u: UpdSpec, hint: nat)
    requires Sound(s) && InOrder(s) && ValidSpec(u)
    ensures var (s2, fate) := UpdateSpec(s, t, u, hint); InOrder(s2) && MapsAfter(s, s2, t, RecordOf(u, false), fate)
  {
    hide UpdateSpec, Writes, InOrder, Apply, RecordOf;
    var (s2, fate) := UpdateSpec(s, t, u, hint);
    var none := |u.positions| == 0 || u.sid == 0;
    UpdateWrites(s, t, u, hint);
    RecordValid(u, none);
    WritesMaps(s, s2, t, RecordOf(u, none), fate);
    if none {
      ApplyNothing(MapIn(s, t), u);
    }
  }

  // ---------------------------------------------------------------- what becomes of every call

  /** The `n` units of space from `start` on are free and in one file. */
  ghost predicate FreeFrom(sp: ChunkSpaces.Space, start: nat, n: nat) {
    && start + n <= |sp.marks|
    && forall k :: start <= k < start + n ==> !sp.marks[k] && (k + sp.base) / 0x1000 == (start + sp.base) / 0x1000
  }

  ghost predicate FreeRun(sp: ChunkSpaces.Space, n: nat) {
    exists start: nat :: FreeFrom(sp, start, n)
  }

  /** A flush needs a physical segment, and room for the old chunk and as much as a segment. */
  ghost predicate MayFlush(s: State, seg: nat) {
    && |s.arrays| + |s.segs| < 0x4000
    && var had := if seg in s.space.owners then s.space.owners[seg].size else 0;
       FreeRun(s.space, (had + 0x4_0000 + 0x3_ffff) / 0x4_0000)
  }

  lemma FreeFits(sp: ChunkSpaces.Space, start: nat, n: nat)
    ensures FreeFrom(sp, start, n) <==> ChunkSpaces.Fits(sp.marks, sp.base, start, n)
  {
    if ChunkSpaces.Fits(sp.marks, sp.base, start, n) || FreeFrom(sp, start, n) {
      assert forall k :: start <= k < start + n ==>
          !sp.marks[k] && ChunkSpaces.FileOf(sp.base, k) == ChunkSpaces.FileOf(sp.base, start);
    }
  }

  lemma MayFlushIs(s: State, seg: nat)
    ensures MayFlush(s, seg) <==> CanFlush(s, seg)
  {
    hide FreeFrom, ChunkSpaces.Fits;
    var sp := s.space;
    var n := ChunkSpaces.Units(ChunkSpaces.Reserved(sp.owners, seg));
    forall start: nat ensures FreeFrom(sp, start, n) <==> ChunkSpaces.Fits(sp.marks, sp.base, start, n) {
      FreeFits(sp, start, n);
    }
  }

  /** No postings, or a single small one: document below 2^20, section below 2^11, one position below 2^14, no score. */
  predicate InWord(ps: seq<Posting>) {
    |ps| == 0 ||
    (|ps| == 1 && ps[0].id.rid < 0x10_0000 && ps[0].id.sid < 0x800 && ps[0].score == 0
      && |ps[0].gaps| == 1 && ps[0].gaps[0] < 0x4000)
  }

  lemma InWordIs(ps: seq<Posting>, e: Posting)
    ensures InWord(ps) <==> Compact(ps)
    ensures StaysPacked(ps, e) <==> (ps == [] || ps[0].id == e.id) && InWord([e])
  {}

  /** The buffer of term `t` has no room for `n` bytes. */
  ghost predicate Crowded(s: State, t: nat, n: nat) {
    HomeOf(s, t) in s.segs && n > s.segs[HomeOf(s, t)].free
  }

  /** ... and no flush can help: it cannot be done, or the term stays and the records are too long. */
  ghost predicate NoHelp(s: State, t: nat, n: nat)
    requires HomeOf(s, t) in s.segs
  {
    || !MayFlush(s, HomeOf(s, t))
    || (!InWord(PostingsOf(s, t)) && n > SEGMENT_SIZE - HEADER_SIZE - TERM_SIZE * |s.segs[HomeOf(s, t)].slots|)
  }

  /** What RoomFor says, and which state it leaves. */
  lemma RoomIs(s: State, t: nat, n: nat)
    requires Sound(s)
    ensures
      var (room, s1) := RoomFor(s, t, n);
      && (room == Full <==> Crowded(s, t, n) && NoHelp(s, t, n))
      && (room == Moved <==>
            HomeOf(s, t) == NOWHERE
            || (Crowded(s, t, n) && MayFlush(s, HomeOf(s, t)) && InWord(PostingsOf(s, t))))
      && s1 == (if Crowded(s, t, n) && MayFlush(s, HomeOf(s, t)) then AfterFlush(s, HomeOf(s, t)) else s)
  {
    hide Compact, InWord, MayFlush, CanFlush, ImageSizes, TotalAfter, ChunkSpaces.SpaceAfter;
    InWordIs(PostingsOf(s, t), Posting(NONE, 0, []));
    assert Homed(s, t);
    if HomeOf(s, t) != NOWHERE {
      MayFlushIs(s, HomeOf(s, t));
    }
  }

  /** A deletion is refused when the term has no word, or its buffer has no room and no flush can help. */
  lemma DeleteFates(s: State, t: nat, u: UpdSpec)
    requires Sound(s)
    ensures
      var fate, n := DeleteSpec(s, t, u).1, RecordSize(RecordOf(u, true));
      var word := t <= 0xfff_ffff && t / 0x1_0000 in s.arrays;
      && fate == (if !word then NoWord else if Crowded(s, t, n) && NoHelp(s, t, n) then NoRoom else Accepted)
      && RcOf(fate) == (if fate == NoWord then Invalid else if fate == NoRoom then Exhausted else Success)
  {
    hide Crowded, NoHelp, RoomFor, RecordSize, RecordOf, AfterPut, Applied;
    RoomIs(s, t, RecordSize(RecordOf(u, true)));
  }

  lemma OldSizeIs(ps: seq<Posting>, e: Posting)
    ensures OldSize(ps, e) == if ps != [] && ps[0].id != e.id then RecordSize(ps[0]) else 0
  {}

  /** The state in which an update of a term that needs a slot looks for a segment. */
  ghost function Searched(s: State, t: nat, n: nat): State {
    if Crowded(s, t, n) then AfterFlush(s, HomeOf(s, t)) else s
  }

  /**
   * An update is refused when its term cannot get a word, or its buffer has no room and no flush can
   * help. It is dropped, and reported as a success, when it needs a new slot and no segment is left for
   * its records. In all other cases it is accepted.
   */
  lemma UpdateFates(s: State, t: nat, u: UpdSpec, hint: nat)
    requires Sound(s) && |u.positions| > 0 && u.sid > 0
    ensures Sound(WithWord(s, t)) && Sound(Searched(WithWord(s, t), t, RecordSize(RecordOf(u, false))))
    ensures
      var fate, e, ps, s0 := UpdateSpec(s, t, u, hint).1, RecordOf(u, false), PostingsOf(s, t), WithWord(s, t);
      var n := RecordSize(e);
      var word := t <= 0xfff_ffff && (t / 0x1_0000 in s.arrays || |s.arrays| + |s.segs| < 0x4000);
      && fate ==
           (if !word || (Crowded(s0, t, n) && NoHelp(s0, t, n)) then NoRoom
            else if (HomeOf(s, t) == NOWHERE || (Crowded(s0, t, n) && InWord(ps)))
              && !((ps == [] || ps[0].id == e.id) && InWord([e]))
              && NoSegment(Searched(s0, t, n), hint,
                   n + if ps != [] && ps[0].id != e.id then RecordSize(ps[0]) else 0) then Dropped
            else Accepted)
      && RcOf(fate) == (if fate == NoRoom then Exhausted else Success)
  {
    hide NoHelp, RoomFor, RecordSize, RecordOf, AfterPut, Applied, NoSegment, Search, OldSize, StaysPacked, AfterPlace,
         AfterFlush, InWord;
    var e, s0 := RecordOf(u, false), WithWord(s, t);
    var n := RecordSize(e);
    assert Homed(s0, t);
    if Crowded(s0, t, n) {
      FlushSound(s0, HomeOf(s0, t));
    }
    RoomIs(s0, t, n);
    InWordIs(PostingsOf(s, t), e);
    SearchFails(RoomFor(s0, t, n).1, hint, n + OldSize(PostingsOf(s, t), e));
    OldSizeIs(PostingsOf(s, t), e);
    HelpNeedsFlush(s0, t, n);
  }

  lemma HelpNeedsFlush(s: State, t: nat, n: nat)
    ensures Crowded(s, t, n) && !NoHelp(s, t, n) ==> MayFlush(s, HomeOf(s, t))
  {}
}
