/**
 * What updates and deletions take from buffers and chunks (`lib/inv.c` 293-359, 920-1249 and 1385-1604):
 * which segment the search of buffer_new comes to, what a flush leaves of a buffer, how many bytes every
 * call takes, and what total_chunk_size counts.
 */
module SpaceAccounts {
  import opened ByteCodec
  import opened PostingCodec
  import opened Records
  import opened BufferList
  import opened Buffers
  import opened FlushBuffers
  import opened WordArrays
  import opened ImageBounds
  import opened IndexStates
  import ChunkSpaces

  // ---------------------------------------------------------------- the segment that is found

  /** A segment without a buffer, or with room in its buffer and not too many terms for so large a chunk. */
  predicate Takes(s: State, size: nat, seg: nat) {
    seg in s.segs ==>
      var sh, n := s.segs[seg], |set i | 0 <= i < |s.segs[seg].slots| && s.segs[seg].slots[i] != 0|;
      sh.free >= size + 16 && (n < 4096 || s.total / TwoTo(n / 0x100 - 6) > sh.chunk)
  }

  lemma TakesIs(s: State, size: nat, seg: nat)
    ensures Takes(s, size, seg) <==> Stops(s, seg, size)
  {
    hide Shr, InUse, TwoTo;
    if seg in s.segs {
      var slots := s.segs[seg].slots;
      InUseCount(slots);
      if InUse(slots) >= 4096 {
        ShrIs(s.total, InUse(slots) / 0x100 - 6);
      }
    }
  }

  /** `k` strides of `n` from `seg` on. */
  function Strides(seg: nat, k: nat, n: nat): nat {
    seg + k * n
  }

  /** `r` is `k` strides from `seg` on, and none before it takes the records. */
  ghost predicate Strode(s: State, size: nat, seg: nat, r: nat, k: nat) {
    && r == Strides(seg, k, s.nseg0)
    && forall j: nat :: j < k ==> !Takes(s, size, Strides(seg, j, s.nseg0))
  }

  lemma {:induction false} AlongStrides(s: State, size: nat, seg: nat) returns (k: nat)
    requires s.nseg0 > 0
    ensures Strode(s, size, seg, Along(s, size, seg), k)
    decreases if seg < MAX_SEGMENT then MAX_SEGMENT - seg else 0
  {
    hide Takes, SegMax;
    TakesIs(s, size, seg);
    if seg >= SegMax(s) || seg >= MAX_SEGMENT || Takes(s, size, seg) {
      k := 0;
    } else {
      var k1 := AlongStrides(s, size, seg + s.nseg0);
      k := k1 + 1;
      forall j: nat | j < k ensures !Takes(s, size, Strides(seg, j, s.nseg0)) {
        if j > 0 {
          StridesFrom(seg, j - 1, s.nseg0);
        }
      }
      StridesFrom(seg, k1, s.nseg0);
    }
  }

  lemma StridesFrom(seg: nat, k: nat, n: nat)
    ensures Strides(seg + n, k, n) == Strides(seg, k + 1, n)
  {}

  lemma {:induction false} AroundFirst(s: State, size: nat, seg: nat, seg0: nat)
    requires seg < s.nseg0 && seg0 < s.nseg0
    ensures
      var r := Around(s, size, seg, seg0);
      && (seg <= seg0 ==> seg <= r <= seg0) && (seg > seg0 ==> r >= seg || r <= seg0)
      && forall k: nat :: (if seg <= r then seg <= k < r else seg <= k < s.nseg0 || k < r) ==> !Takes(s, size, k)
    decreases if seg <= seg0 then seg0 - seg else seg0 + s.nseg0 - seg
  {
    hide Takes, NextOf;
    TakesIs(s, size, seg);
    if seg != seg0 && !Takes(s, size, seg) {
      AroundFirst(s, size, NextOf(seg, s.nseg0), seg0);
    }
  }

  lemma {:induction false} BeyondFirst(s: State, size: nat, seg: nat)
    ensures forall k: nat :: seg <= k < Beyond(s, size, seg) ==> !Takes(s, size, k)
    decreases if seg < MAX_SEGMENT then MAX_SEGMENT - seg else 0
  {
    hide Takes;
    TakesIs(s, size, seg);
    if seg < MAX_SEGMENT && !Takes(s, size, seg) {
      BeyondFirst(s, size, seg + 1);
    }
  }

  lemma {:induction false} FreeFirst(s: State, seg: nat)
    ensures forall k: nat :: seg <= k < FirstFree(s, seg) ==> k in s.segs
    decreases if seg < MAX_SEGMENT then MAX_SEGMENT - seg else 0
  {
    if seg < MAX_SEGMENT && seg in s.segs {
      FreeFirst(s, seg + 1);
    }
  }

  /** `q` comes before `r` on the way around from `seg0` on. */
  predicate OnTheWay(q: nat, seg0: nat, r: nat, n: nat) {
    if r > seg0 then seg0 < q < r else seg0 < q < n || q < r
  }

  /** The last segment that is looked at in strides comes before segmax, a 16-bit number. */
  function StrideEnd(s: State): nat {
    (s.total / 0x80 % 0x1_0000 + s.nseg0) % 0x1_0000
  }

  ghost predicate NoneStrode(s: State, size: nat, seg0: nat) {
    exists k: nat ::
      (Strides(seg0, k, s.nseg0) >= StrideEnd(s) || Strides(seg0, k, s.nseg0) >= 0x4000)
      && Strode(s, size, seg0, Strides(seg0, k, s.nseg0), k)
  }

  /**
   * The segment that the search comes to is the first one that takes the records: in strides from the one
   * that the hint says, then around the first segments, then behind them; and else the first one without
   * a buffer.
   */
  lemma FoundFirst(s: State, hint: nat, size: nat)
    requires 0 < s.nseg0 <= 0x4000 && size + 32 <= 0x4_0000 && Found(s, hint, size) != NOWHERE
    ensures
      var r, seg0: nat := Found(s, hint, size), hint % s.nseg0;
      && 0 <= r < 0x4000 && Takes(s, size, r)
      && (|| (r < StrideEnd(s) && exists k: nat :: Strode(s, size, seg0, r, k))
          || (NoneStrode(s, size, seg0)
              && (|| (r < s.nseg0 && r != seg0
                      && forall q: nat :: OnTheWay(q, seg0, r, s.nseg0) ==> !Takes(s, size, q))
                  || ((forall q: nat :: q < s.nseg0 && q != seg0 ==> !Takes(s, size, q))
                      && (|| (s.nseg0 <= r && forall q: nat :: s.nseg0 <= q < r ==> !Takes(s, size, q))
                          || ((forall q: nat :: s.nseg0 <= q < 0x4000 ==> !Takes(s, size, q))
                              && r !in s.segs && forall q: nat :: q < r ==> q in s.segs))))))
  {
    hide Takes, Along, Around, Beyond, FirstFree, NextOf, Strode, Stops;
    var seg0 := FirstOf(hint, s.nseg0);
    TakesIs(s, size, Found(s, hint, size));
    var k := AlongStrides(s, size, seg0);
    AlongEnds(s, size, seg0, k);
    AroundFirst(s, size, NextOf(seg0, s.nseg0), seg0);
    BeyondFirst(s, size, s.nseg0);
    FreeFirst(s, 0);
  }

  lemma AlongEnds(s: State, size: nat, seg0: nat, k: nat)
    requires s.nseg0 > 0 && Strode(s, size, seg0, Along(s, size, seg0), k)
    ensures !(Along(s, size, seg0) < SegMax(s) && Along(s, size, seg0) < MAX_SEGMENT) ==> NoneStrode(s, size, seg0)
  {
    hide Takes;
  }

  // ---------------------------------------------------------------- a flush

  /**
   * A flush empties its buffer but for the slots, of which those of terms that fit into a word are void from
   * then on; these terms leave the buffer, and no other.
   */
  lemma FlushLeaves(s: State, seg: nat, t: nat)
    requires seg in s.segs
    ensures
      var r, slots := AfterFlush(s, seg), s.segs[seg].slots;
      && r.segs.Keys == s.segs.Keys && (forall k :: k in s.segs && k != seg ==> r.segs[k] == s.segs[k])
      && r.segs[seg].free == 0x4_0000 - 16 - 16 * |slots| && |r.segs[seg].slots| == |slots|
      && (forall i :: 0 <= i < |slots| ==>
            r.segs[seg].slots[i] == if InWord(PostingsOf(s, slots[i])) then 0 else slots[i])
      && HomeOf(r, t) == (if HomeOf(s, t) == seg && InWord(PostingsOf(s, t)) then NOWHERE else HomeOf(s, t))
      && r.total == (s.total + r.segs[seg].chunk / 0x400 - s.segs[seg].chunk / 0x400) % 0x1_0000_0000
  {
    hide ImageSizes, ChunkSpaces.SpaceAfter, InWord, Compact;
    var slots := s.segs[seg].slots;
    forall i | 0 <= i < |slots| ensures InWord(PostingsOf(s, slots[i])) == Compact(PostingsOf(s, slots[i])) {
      InWordIs(PostingsOf(s, slots[i]), Posting(NONE, 0, []));
    }
    InWordIs(PostingsOf(s, t), Posting(NONE, 0, []));
    NothingFits();
  }

  lemma NothingFits()
    ensures Compact([])
  {}

  // ---------------------------------------------------------------- what a call takes

  /** The bytes of records that were put into a buffer since it was made or flushed. */
  function Spent(s: State, seg: nat): int {
    if seg in s.segs then 0x4_0000 - 16 - 16 * |s.segs[seg].slots| - s.segs[seg].free else 0
  }

  /** ... at segment `seg` when the buffer of term `t` is flushed if there is no room for `n` bytes. */
  ghost function SpentThen(s: State, t: nat, n: nat, seg: nat): int {
    if seg == HomeOf(s, t) && Crowded(s, t, n) && MayFlush(s, seg) then 0 else Spent(s, seg)
  }

  lemma RoomSpends(s: State, t: nat, n: nat, seg: nat)
    requires Sound(s)
    ensures Spent(RoomFor(s, t, n).1, seg) == SpentThen(s, t, n, seg)
  {
    hide RoomFor, MayFlush, ImageSizes, TotalAfter, ChunkSpaces.SpaceAfter;
    RoomIs(s, t, n);
  }

  lemma PutSpends(s: State, t: nat, e: Posting, seg: nat)
    requires HomeOf(s, t) in s.segs
    ensures Spent(AfterPut(s, t, e), seg) == Spent(s, seg) + if seg == HomeOf(s, t) then RecordSize(e) else 0
  {
    hide RecordSize;
  }

  lemma PlaceSpends(s: State, t: nat, e: Posting, pick: nat, size: nat, seg: nat)
    ensures Spent(AfterPlace(s, t, e, pick, size), seg) == Spent(s, seg) + if seg == pick then size else 0
  {
    hide FirstVoid;
  }

  /** A deletion takes the bytes of its record from the buffer of its term, and nothing from any other. */
  lemma DeleteSpends(s: State, t: nat, u: UpdSpec, seg: nat)
    requires Sound(s) && HasWord(s.arrays, t)
    ensures
      var (r, fate) := DeleteSpec(s, t, u);
      var n := RecordSize(RecordOf(u, true));
      Spent(r, seg) == SpentThen(s, t, n, seg) + if fate == Accepted && HomeOf(r, t) == seg then n else 0
  {
    hide RoomFor, RecordSize, RecordOf, SpentThen, Spent, AfterPut;
    var e := RecordOf(u, true);
    var (room, s1) := RoomFor(s, t, RecordSize(e));
    RoomSpends(s, t, RecordSize(e), seg);
    AppliedSpends(s1, t, e, seg);
    if room == Fits {
      assert Homed(s1, t);
      PutSpends(s1, t, e, seg);
      PutHome(s1, t, e);
    }
  }

  lemma AppliedSpends(s: State, t: nat, e: Posting, seg: nat)
    ensures Spent(Applied(s, t, e), seg) == Spent(s, seg) && HomeOf(Applied(s, t, e), t) == HomeOf(s, t)
  {}

  lemma PutHome(s: State, t: nat, e: Posting)
    requires HomeOf(s, t) in s.segs
    ensures HomeOf(AfterPut(s, t, e), t) == HomeOf(s, t)
  {}

  /**
   * An update takes the bytes of its record from the buffer that its term is in afterwards, and those of a
   * packed posting that it moves there; it takes nothing from any other buffer.
   */
  lemma UpdateSpends(s: State, t: nat, u: UpdSpec, hint: nat, seg: nat)
    requires Sound(s) && |u.positions| > 0 && u.sid > 0 && GetsWord(s, t)
    ensures Sound(WithWord(s, t))
    ensures
      var (r, fate) := UpdateSpec(s, t, u, hint);
      var e, s0 := RecordOf(u, false), WithWord(s, t);
      var n := RecordSize(e);
      var ps, moved := PostingsOf(s, t), HomeOf(s, t) == NOWHERE || (Crowded(s0, t, n) && InWord(PostingsOf(s, t)));
      Spent(r, seg) == SpentThen(s0, t, n, seg)
        + (if fate != Accepted || HomeOf(r, t) != seg then 0
           else n + if moved && ps != [] && ps[0].id != e.id then RecordSize(ps[0]) else 0)
  {
    hide RoomFor, RecordSize, RecordOf, SpentThen, Spent, AfterPut, AfterPlace, Crowded, MayFlush, InWord, OldSize,
         Search, StaysPacked, NoHelp;
    var e, s0 := RecordOf(u, false), WithWord(s, t);
    var (room, s1) := RoomFor(s0, t, RecordSize(e));
    RoomSpends(s0, t, RecordSize(e), seg);
    RoomIs(s0, t, RecordSize(e));
    AppliedSpends(s1, t, e, seg);
    match room
    case Fits =>
      assert Homed(s1, t);
      PutSpends(s1, t, e, seg);
      PutHome(s1, t, e);
      HelpStays(s0, t, RecordSize(e));
    case Moved =>
      var size := RecordSize(e) + OldSize(PostingsOf(s1, t), e);
      var pick := Search(s1, hint, size);
      if !StaysPacked(PostingsOf(s1, t), e) && pick != NOWHERE {
        OldSizeIs(PostingsOf(s, t), e);
        PlaceSpends(s1, t, e, pick, size, seg);
        PlaceHome(s1, t, e, pick, size);
      }
    case Full =>
  }

  lemma PlaceHome(s: State, t: nat, e: Posting, pick: nat, size: nat)
    ensures HomeOf(AfterPlace(s, t, e, pick, size), t) == pick
  {}

  lemma HelpStays(s: State, t: nat, n: nat)
    requires Sound(s) && RoomFor(s, t, n).0 == Fits
    ensures !(HomeOf(s, t) == NOWHERE || (Crowded(s, t, n) && InWord(PostingsOf(s, t))))
  {
    RoomIs(s, t, n);
    InWordIs(PostingsOf(s, t), Posting(NONE, 0, []));
  }

  // ---------------------------------------------------------------- where terms are afterwards

  /** The state after the flush that a call does if there is no room for `n` bytes. */
  ghost function Roomed(s: State, t: nat, n: nat): State {
    if Crowded(s, t, n) && MayFlush(s, HomeOf(s, t)) then AfterFlush(s, HomeOf(s, t)) else s
  }

  lemma FlushRest(s: State, t: nat, n: nat)
    ensures Roomed(s, t, n).arrays == s.arrays && Roomed(s, t, n).nseg0 == s.nseg0
  {
    hide ImageSizes, ChunkSpaces.SpaceAfter, MayFlush;
  }

  /** Term `k` and the slots and chunks of all buffers are where they were. */
  ghost predicate Stays(s: State, r: State, k: nat) {
    && HomeOf(r, k) == HomeOf(s, k)
    && forall seg :: seg in s.segs ==>
        seg in r.segs && r.segs[seg].slots == s.segs[seg].slots && r.segs[seg].chunk == s.segs[seg].chunk
  }

  /** Term `t` has come into the buffer `pick`, which may be a new one; nothing else has changed for term `k`. */
  ghost predicate Comes(s: State, r: State, t: nat, pick: nat, k: nat) {
    && HomeOf(r, k) == (if k == t then pick else HomeOf(s, k))
    && pick in r.segs && r.segs == s.segs[pick := r.segs[pick]]
    && r.segs[pick].chunk == (if pick in s.segs then s.segs[pick].chunk else 0)
    && Slotted(if pick in s.segs then s.segs[pick].slots else [], r.segs[pick].slots, t)
  }

  ghost predicate SameRest(s: State, r: State) {
    r.space == s.space && r.total == s.total && r.nseg0 == s.nseg0 && r.arrays == s.arrays
  }

  lemma AppliedStays(s: State, t: nat, e: Posting, k: nat)
    ensures Stays(s, Applied(s, t, e), k) && SameRest(s, Applied(s, t, e))
  {}

  lemma PutStays(s: State, t: nat, e: Posting, k: nat)
    requires HomeOf(s, t) in s.segs
    ensures Stays(s, AfterPut(s, t, e), k) && SameRest(s, AfterPut(s, t, e))
  {
    hide RecordSize;
  }

  lemma PlaceComes(s: State, t: nat, e: Posting, pick: nat, size: nat, k: nat)
    ensures Comes(s, AfterPlace(s, t, e, pick, size), t, pick, k) && SameRest(s, AfterPlace(s, t, e, pick, size))
  {
    hide FirstVoid, Slotted;
    SlottedIs(ShapeFound(s, pick), t, size);
  }

  /**
   * An update takes its own term, and no other, into a buffer: that of the segment that the search comes to,
   * and only if the term is in none and what is to be kept does not fit into a word. Its slot is the first void one,
   * or a new one.
   */
  lemma UpdateHomes(s: State, t: nat, u: UpdSpec, hint: nat, k: nat)
    requires Sound(s) && |u.positions| > 0 && u.sid > 0
    requires t <= 0xfff_ffff && (t / 0x1_0000 in s.arrays || |s.arrays| + |s.segs| < 0x4000)
    ensures
      var (r, fate) := UpdateSpec(s, t, u, hint);
      var e, ps, s0 := RecordOf(u, false), PostingsOf(s, t), s.(arrays := s.arrays + {t / 0x1_0000});
      var s1 := Roomed(s0, t, RecordSize(e));
      var taken := fate == Accepted && HomeOf(s1, t) == NOWHERE && !((ps == [] || ps[0].id == e.id) && InWord([e]));
      && SameRest(s1, r)
      && if !taken then Stays(s1, r, k)
         else
           && 0 < s1.nseg0 <= 0x4000
           && var pick := Search(s1, hint,
                RecordSize(e) + if ps != [] && ps[0].id != e.id then RecordSize(ps[0]) else 0);
              pick != NOWHERE && Comes(s1, r, t, pick, k)
  {
    hide RoomFor, RecordSize, RecordOf, Crowded, MayFlush, InWord, OldSize, Search, StaysPacked, NoHelp, AfterFlush,
         Applied, AfterPut, AfterPlace, Stays, Comes, SameRest, Roomed;
    var e, ps, s0 := RecordOf(u, false), PostingsOf(s, t), WithWord(s, t);
    assert s0 == s.(arrays := s.arrays + {t / 0x1_0000});
    var n := RecordSize(e);
    InWordIs(ps, e);
    OldSizeIs(ps, e);
    RoomedHome(s0, t, n);
    var (room, s1) := RoomFor(s0, t, n);
    assert Homed(s1, t);
    SameStays(s1, k);
    AppliedStays(s1, t, e, k);
    if room == Fits {
      PutStays(s1, t, e, k);
    } else if room == Moved && !StaysPacked(ps, e) {
      var pick := Search(s1, hint, n + OldSize(ps, e));
      if pick != NOWHERE {
        PlaceComes(s1, t, e, pick, n + OldSize(ps, e), k);
      }
    }
  }

  lemma SameStays(s: State, k: nat)
    ensures Stays(s, s, k) && SameRest(s, s)
  {}

  /** A deletion takes no term into a buffer or out of it, but by a flush. */
  lemma DeleteHomes(s: State, t: nat, u: UpdSpec, k: nat)
    requires Sound(s) && t <= 0xfff_ffff && t / 0x1_0000 in s.arrays
    ensures
      var r, s1 := DeleteSpec(s, t, u).0, Roomed(s, t, RecordSize(RecordOf(u, true)));
      Stays(s1, r, k) && SameRest(s1, r) && r.arrays == s.arrays && r.nseg0 == s.nseg0
  {
    hide RoomFor, RecordSize, RecordOf, Crowded, MayFlush, AfterFlush, Applied, AfterPut, Stays, SameRest, Roomed;
    var e := RecordOf(u, true);
    var n := RecordSize(e);
    RoomedHome(s, t, n);
    var (room, s1) := RoomFor(s, t, n);
    assert Homed(s1, t);
    SameStays(s1, k);
    AppliedStays(s1, t, e, k);
    FlushRest(s, t, n);
    RestKept(s1, DeleteSpec(s, t, u).0);
    if room == Fits {
      PutStays(s1, t, e, k);
      RestKept(s1, AfterPut(s1, t, e));
    }
    RestKept(s1, Applied(s1, t, e));
  }

  lemma RestKept(s: State, r: State)
    ensures SameRest(s, r) ==> r.arrays == s.arrays && r.nseg0 == s.nseg0
  {}

  lemma RoomedHome(s: State, t: nat, n: nat)
    requires Sound(s)
    ensures
      var (room, s1) := RoomFor(s, t, n);
      && s1 == Roomed(s, t, n) && PostingsOf(s1, t) == PostingsOf(s, t)
      && (room == Moved <==> HomeOf(s1, t) == NOWHERE)
  {
    RoomIs(s, t, n);
    assert Homed(s, t);
  }

  /** Slot `i` is the first void one, or comes behind all. */
  ghost predicate VoidAt(slots: seq<nat>, i: nat) {
    i <= |slots| && (i < |slots| ==> slots[i] == 0) && forall j :: 0 <= j < i ==> slots[j] != 0
  }

  /** The first void slot, or a new one, is that of term `t`. */
  ghost predicate Slotted(slots: seq<nat>, slots2: seq<nat>, t: nat) {
    exists i: nat ::
      VoidAt(slots, i) && slots2 == if i < |slots| then slots[i := t] else slots + [t]
  }

  lemma SlottedIs(sh: Shape, t: nat, size: nat)
    ensures Slotted(sh.slots, Placed(sh, t, size).slots, t)
  {
    var i := FirstVoid(sh.slots);
    assert VoidAt(sh.slots, i);
    PlacedAt(sh, t, size, i);
  }

  // ---------------------------------------------------------------- total_chunk_size

  /** The sizes of the chunks of the first `n` segments, in units of 1024 bytes. */
  function ChunkUnits(segs: map<nat, Shape>, n: nat): nat {
    if n == 0 then 0 else ChunkUnits(segs, n - 1) + if n - 1 in segs then segs[n - 1].chunk / 0x400 else 0
  }

  lemma {:induction false} UnitsUpdate(segs: map<nat, Shape>, seg: nat, sh: Shape, n: nat)
    ensures
      ChunkUnits(segs[seg := sh], n) ==
        if seg < n then ChunkUnits(segs, n) - (if seg in segs then segs[seg].chunk / 0x400 else 0) + sh.chunk / 0x400
        else ChunkUnits(segs, n)
  {
    if n > 0 {
      UnitsUpdate(segs, seg, sh, n - 1);
    }
  }

  /** total_chunk_size counts the chunks of all buffers, with 32-bit wrap-around. */
  predicate Counted(s: State) {
    (forall seg :: seg in s.segs ==> seg < 0x4000) && s.total == ChunkUnits(s.segs, 0x4000) % 0x1_0000_0000
  }

  lemma FlushCounted(s: State, seg: nat)
    requires Counted(s) && seg in s.segs
    ensures Counted(AfterFlush(s, seg))
  {
    hide ImageSizes, ChunkSpaces.SpaceAfter, SlotsAfter, ChunkUnits;
    UnitsUpdate(s.segs, seg, ShapeAfter(s, seg), 0x4000);
  }

  lemma RoomCounted(s: State, t: nat, n: nat)
    requires Sound(s) && Counted(s)
    ensures Counted(RoomFor(s, t, n).1)
  {
    hide Counted, AfterFlush, Compact, CanFlush;
    if HomeOf(s, t) != NOWHERE {
      assert Homed(s, t);
      FlushCounted(s, HomeOf(s, t));
    }
  }

  lemma PutCounted(s: State, t: nat, e: Posting)
    requires Counted(s) && HomeOf(s, t) in s.segs
    ensures Counted(AfterPut(s, t, e))
  {
    hide RecordSize, ChunkUnits;
    var seg: nat := HomeOf(s, t);
    UnitsUpdate(s.segs, seg, s.segs[seg].(free := s.segs[seg].free - RecordSize(e)), 0x4000);
  }

  lemma PlaceCounted(s: State, t: nat, e: Posting, pick: nat, size: nat)
    requires Counted(s) && pick < 0x4000
    ensures Counted(AfterPlace(s, t, e, pick, size))
  {
    hide FirstVoid, ChunkUnits;
    UnitsUpdate(s.segs, pick, Placed(ShapeFound(s, pick), t, size), 0x4000);
  }

  /** Every call keeps the count. */
  lemma CallsCounted(s: State, t: nat, u: UpdSpec, hint: nat)
    requires Sound(s) && Counted(s)
    ensures Counted(DeleteSpec(s, t, u).0) && Counted(UpdateSpec(s, t, u, hint).0)
  {
    DeleteCounted(s, t, u);
    hide Counted, UpdateAt, DeleteSpec, ChunkUnits;
    if GetsWord(s, t) {
      WordCounted(s, t);
      UpdateCounted(WithWord(s, t), t, RecordOf(u, false), hint);
    }
  }

  lemma WordCounted(s: State, t: nat)
    requires Sound(s) && Counted(s)
    ensures Counted(WithWord(s, t))
  {
    hide ChunkUnits;
  }

  lemma DeleteCounted(s: State, t: nat, u: UpdSpec)
    requires Sound(s) && Counted(s)
    ensures Counted(DeleteSpec(s, t, u).0)
  {
    hide RoomFor, AfterPut, ChunkUnits;
    var e := RecordOf(u, true);
    var (room, s1) := RoomFor(s, t, RecordSize(e));
    RoomCounted(s, t, RecordSize(e));
    if room == Fits {
      assert Homed(s1, t);
      PutCounted(s1, t, e);
    }
  }

  lemma UpdateCounted(s: State, t: nat, e: Posting, hint: nat)
    requires Sound(s) && Counted(s)
    ensures Counted(UpdateAt(s, t, e, hint).0)
  {
    hide RoomFor, AfterPut, AfterPlace, Search, ChunkUnits, OldSize, StaysPacked;
    var (room, s1) := RoomFor(s, t, RecordSize(e));
    RoomCounted(s, t, RecordSize(e));
    match room
    case Fits =>
      assert Homed(s1, t);
      PutCounted(s1, t, e);
    case Moved =>
      var size := RecordSize(e) + OldSize(PostingsOf(s1, t), e);
      var pick := Search(s1, hint, size);
      if pick != NOWHERE {
        PlaceCounted(s1, t, e, pick, size);
      }
    case Full =>
  }
}
