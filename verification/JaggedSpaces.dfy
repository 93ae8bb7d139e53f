/**
 * The space of a jagged array (`lib/store.c`, the JA:02 format): segments of units, how many units
 * of each are in use, and elements that lie in one segment or begin a run of segments.
 */
module JaggedSpaces {
  const UNIT := 16              // 1 << align_width, in bytes
  const PER_SEG := 0x1_0000     // JA_EPOS_MASK + 1, in units
  const SEG_BYTES := 0x10_0000  // 1 << segment_width
  const MAX_DSEGS := 0x1_0000
  const HEAD := 8               // sizeof(sen_io_ja_ehead)
  const LIMIT := 0x1_0000_0000  // PER_SEG * MAX_DSEGS

  /** Where an element is, in units, and its size in bytes; with size 0 there is none. */
  datatype Einfo = Einfo(pos: nat, size: nat)

  /** The units of an element: its header and its bytes, rounded up. */
  function Units(size: nat): (n: nat)
    ensures n > 0
  {
    (size + HEAD + UNIT - 1) / UNIT
  }

  function End(e: Einfo): nat {
    e.pos + Units(e.size)
  }

  /** The units of e that lie in segment s. */
  function Use(s: nat, pos: nat, n: nat): nat {
    var lo := if pos > s * PER_SEG then pos else s * PER_SEG;
    var hi := if pos + n < (s + 1) * PER_SEG then pos + n else (s + 1) * PER_SEG;
    if lo < hi then hi - lo else 0
  }

  function UseOf(s: nat, e: Einfo): nat {
    if e.size == 0 then 0 else Use(s, e.pos, Units(e.size))
  }

  function SumUse(es: seq<Einfo>, s: nat): nat {
    if |es| == 0 then 0 else UseOf(s, es[0]) + SumUse(es[1..], s)
  }

  lemma {:induction false} SumSet(es: seq<Einfo>, i: nat, e: Einfo, s: nat)
    requires i < |es|
    ensures SumUse(es[i := e], s) == SumUse(es, s) - UseOf(s, es[i]) + UseOf(s, e)
  {
    hide UseOf;
    if i > 0 {
      SumSet(es[1..], i - 1, e, s);
      assert es[i := e][1..] == es[1..][i - 1 := e];
    } else {
      assert es[0 := e][1..] == es[1..];
    }
  }

  lemma SumAtLeast(es: seq<Einfo>, i: nat, s: nat)
    requires i < |es|
    ensures SumUse(es, s) >= UseOf(s, es[i])
  {
    SumSet(es, i, Einfo(0, 0), s);
  }

  lemma {:induction false} SumNone(es: seq<Einfo>, s: nat)
    requires forall i :: 0 <= i < |es| ==> UseOf(s, es[i]) == 0
    ensures SumUse(es, s) == 0
  {
    hide UseOf;
    if |es| > 0 {
      assert forall i :: 0 <= i < |es| - 1 ==> es[1..][i] == es[i + 1];
      SumNone(es[1..], s);
    }
  }

  /** When no other element has units in s. */
  lemma SumAlone(es: seq<Einfo>, i: nat, s: nat)
    requires i < |es| && forall j :: 0 <= j < |es| && j != i ==> UseOf(s, es[j]) == 0
    ensures SumUse(es, s) == UseOf(s, es[i])
  {
    var es2 := es[i := Einfo(0, 0)];
    SumSet(es, i, Einfo(0, 0), s);
    forall j | 0 <= j < |es2| ensures UseOf(s, es2[j]) == 0 {}
    SumNone(es2, s);
  }

  // ---------------------------------------------------------------- elements

  predicate Live(e: Einfo) {
    e.size > 0
  }

  /** Elements have no unit in common. */
  predicate Apart(a: Einfo, b: Einfo) {
    End(a) <= b.pos || End(b) <= a.pos
  }

  /** In the data segments: segment 0 is the one of the entries. */
  predicate Placed(e: Einfo) {
    PER_SEG <= e.pos && End(e) <= LIMIT
  }

  ghost predicate AllApart(es: seq<Einfo>) {
    && (forall i :: 0 <= i < |es| && Live(es[i]) ==> Placed(es[i]))
    && (forall i, j :: 0 <= i < |es| && 0 <= j < |es| && i != j && Live(es[i]) && Live(es[j]) ==> Apart(es[i], es[j]))
  }

  /** Every count is the number of units in use. */
  ghost predicate Counted(ds: seq<nat>, es: seq<Einfo>) {
    && |ds| == MAX_DSEGS
    && forall s :: 1 <= s < MAX_DSEGS ==> ds[s] == SumUse(es, s)
  }

  function SegOf(u: nat): nat {
    u / PER_SEG
  }

  /** From `u` to the end of its segment there is nothing. */
  ghost predicate FreeFrom(es: seq<Einfo>, u: nat) {
    forall i :: 0 <= i < |es| && Live(es[i]) ==> End(es[i]) <= u || (SegOf(u) + 1) * PER_SEG <= es[i].pos
  }

  /** Where writing goes on, if anywhere: behind all elements of a segment. */
  ghost predicate TailOk(ds: seq<nat>, es: seq<Einfo>, curr: nat) {
    curr != 0 ==>
      && PER_SEG <= curr < LIMIT && curr % PER_SEG != 0 && |ds| == MAX_DSEGS
      && ds[SegOf(curr)] <= curr % PER_SEG && FreeFrom(es, curr)
  }

  /** Segments a, ..., b - 1 are not in use. */
  ghost predicate Unused(ds: seq<nat>, a: nat, b: nat) {
    b <= |ds| && forall s :: a <= s < b ==> ds[s] == 0
  }

  /** A place for n units: behind what is in use of a segment, or at the start of unused segments. */
  ghost predicate Room(ds: seq<nat>, es: seq<Einfo>, pos: nat, n: nat) {
    && PER_SEG <= pos && pos + n <= LIMIT && n > 0 && |ds| == MAX_DSEGS
    && (if pos % PER_SEG == 0 then Unused(ds, SegOf(pos), SegOf(pos + n - 1) + 1)
        else pos % PER_SEG + n <= PER_SEG && ds[SegOf(pos)] <= pos % PER_SEG && FreeFrom(es, pos))
  }

  /** The number of segments for an element at the start of one. */
  function Segments(size: nat): nat {
    (size + HEAD + SEG_BYTES - 1) / SEG_BYTES
  }

  /** The byte arithmetic of assign_rec, in units. */
  lemma BytesFit(off: nat, size: nat)
    requires off < PER_SEG
    ensures off * UNIT + size + HEAD <= SEG_BYTES <==> off + Units(size) <= PER_SEG
  {}

  lemma UseZero(s: nat, e: Einfo)
    requires UseOf(s, e) == 0 && Live(e)
    ensures End(e) <= s * PER_SEG || (s + 1) * PER_SEG <= e.pos
  {}

  /** A segment that is not in use has no element. */
  lemma UnusedFree(ds: seq<nat>, es: seq<Einfo>, s: nat, i: nat)
    requires Counted(ds, es) && 1 <= s < MAX_DSEGS && ds[s] == 0 && i < |es| && Live(es[i])
    ensures End(es[i]) <= s * PER_SEG || (s + 1) * PER_SEG <= es[i].pos
  {
    hide UseOf, Units;
    SumAtLeast(es, i, s);
    UseZero(s, es[i]);
  }

  /** No element has units in any of several unused segments. */
  lemma {:induction false} RunFree(ds: seq<nat>, es: seq<Einfo>, a: nat, b: nat, i: nat)
    requires Counted(ds, es) && 1 <= a < b && Unused(ds, a, b) && i < |es| && Live(es[i])
    ensures End(es[i]) <= a * PER_SEG || b * PER_SEG <= es[i].pos
    decreases b
  {
    hide Units;
    UnusedFree(ds, es, b - 1, i);
    if a < b - 1 {
      RunFree(ds, es, a, b - 1, i);
    }
  }

  /** In a place with room there is no element, nor behind it in the last segment. */
  lemma RoomFree(ds: seq<nat>, es: seq<Einfo>, pos: nat, n: nat, i: nat)
    requires Counted(ds, es) && Room(ds, es, pos, n) && i < |es| && Live(es[i])
    ensures End(es[i]) <= pos || (SegOf(pos + n - 1) + 1) * PER_SEG <= es[i].pos
  {
    hide Units, Counted;
    if pos % PER_SEG == 0 {
      RunFree(ds, es, SegOf(pos), SegOf(pos + n - 1) + 1, i);
    } else {
      SameSegment(pos, n);
    }
  }

  lemma SameSegment(pos: nat, n: nat)
    requires n > 0 && pos % PER_SEG + n <= PER_SEG
    ensures SegOf(pos + n - 1) == SegOf(pos)
  {}

  lemma LastSegment(pos: nat, n: nat)
    requires n > 0
    ensures pos + n <= (SegOf(pos + n - 1) + 1) * PER_SEG
  {}

  // ---------------------------------------------------------------- what put changes

  /** The counts after n units at pos are in use too. */
  ghost predicate MoreUse(ds: seq<nat>, ds2: seq<nat>, pos: nat, n: nat) {
    |ds2| == |ds| && forall s :: 0 <= s < |ds| ==> ds2[s] == ds[s] + Use(s, pos, n)
  }

  /** ... and after they are in use no more. */
  ghost predicate LessUse(ds: seq<nat>, ds2: seq<nat>, pos: nat, n: nat) {
    MoreUse(ds2, ds, pos, n)
  }

  /** currpos after n units at pos: 0 when a segment is full. */
  function NextPos(pos: nat, n: nat): nat {
    if (pos + n) % PER_SEG != 0 then pos + n else 0
  }

  /** A new element in a place with room; the old one is still counted. */
  lemma PutApart(ds: seq<nat>, es: seq<Einfo>, i: nat, e: Einfo)
    requires AllApart(es) && Counted(ds, es) && i < |es| && Live(e) && Room(ds, es, e.pos, Units(e.size))
    ensures AllApart(es[i := e])
    ensures forall j :: 0 <= j < |es| && Live(es[j]) ==> Apart(es[j], e)
  {
    hide Counted, Room, Units;
    forall j | 0 <= j < |es| && Live(es[j]) ensures Apart(es[j], e) {
      RoomFree(ds, es, e.pos, Units(e.size), j);
      LastSegment(e.pos, Units(e.size));
    }
    RoomPlaced(ds, es, e.pos, Units(e.size));
  }

  lemma RoomPlaced(ds: seq<nat>, es: seq<Einfo>, pos: nat, n: nat)
    requires Room(ds, es, pos, n)
    ensures PER_SEG <= pos && pos + n <= LIMIT && |ds| == MAX_DSEGS && n > 0
  {}

  lemma PutTail(ds: seq<nat>, ds2: seq<nat>, es: seq<Einfo>, i: nat, e: Einfo)
    requires Counted(ds, es) && i < |es| && Live(e) && Room(ds, es, e.pos, Units(e.size))
    requires MoreUse(ds, ds2, e.pos, Units(e.size))
    ensures TailOk(ds2, es[i := e], NextPos(e.pos, Units(e.size)))
  {
    hide Counted, Units;
    var n := Units(e.size);
    var curr := e.pos + n;
    if curr % PER_SEG != 0 {
      TailSegment(e.pos, n);
      var es2 := es[i := e];
      forall j | 0 <= j < |es2| && Live(es2[j])
        ensures End(es2[j]) <= curr || (SegOf(curr) + 1) * PER_SEG <= es2[j].pos
      {
        if j != i {
          RoomFree(ds, es, e.pos, n, j);
        }
      }
      TailCount(e.pos, n);
    }
  }

  lemma TailSegment(pos: nat, n: nat)
    requires n > 0 && (pos + n) % PER_SEG != 0
    ensures SegOf(pos + n - 1) == SegOf(pos + n)
  {}

  lemma TailCount(pos: nat, n: nat)
    requires n > 0 && (pos + n) % PER_SEG != 0
    ensures
      var s := SegOf(pos + n);
      Use(s, pos, n) == if s * PER_SEG <= pos then n else (pos + n) % PER_SEG
    ensures pos % PER_SEG == 0 ==> Use(SegOf(pos + n), pos, n) == (pos + n) % PER_SEG
    ensures pos % PER_SEG + n <= PER_SEG ==> SegOf(pos + n) == SegOf(pos) && (pos + n) % PER_SEG == pos % PER_SEG + n
  {}

  /** The old element is taken out of the counts. */
  lemma FreeCounted(ds: seq<nat>, ds1: seq<nat>, ds2: seq<nat>, es: seq<Einfo>, i: nat, e: Einfo)
    requires Counted(ds, es) && i < |es|
    requires if Live(e) then MoreUse(ds, ds1, e.pos, Units(e.size)) else ds1 == ds
    requires if Live(es[i]) then LessUse(ds1, ds2, es[i].pos, Units(es[i].size)) else ds2 == ds1
    ensures Counted(ds2, es[i := e])
  {
    hide Units, Use;
    forall s | 1 <= s < MAX_DSEGS ensures ds2[s] == SumUse(es[i := e], s) {
      SumSet(es, i, e, s);
    }
  }

  lemma TailLess(ds: seq<nat>, ds2: seq<nat>, es: seq<Einfo>, curr: nat, pos: nat, n: nat)
    requires TailOk(ds, es, curr) && LessUse(ds, ds2, pos, n)
    ensures TailOk(ds2, es, curr)
  {}

  lemma TailWithout(ds: seq<nat>, es: seq<Einfo>, curr: nat, i: nat, e: Einfo)
    requires TailOk(ds, es, curr) && i < |es| && !Live(e)
    ensures TailOk(ds, es[i := e], curr)
  {}

  lemma AllApartWithout(es: seq<Einfo>, i: nat, e: Einfo)
    requires AllApart(es) && i < |es| && !Live(e)
    ensures AllApart(es[i := e])
  {}

  /** A segment that is full of one element has no other. */
  lemma FullSegment(ds: seq<nat>, es: seq<Einfo>, i: nat, s: nat)
    requires AllApart(es) && Counted(ds, es) && i < |es| && Live(es[i]) && 1 <= s < MAX_DSEGS
    requires UseOf(s, es[i]) == PER_SEG
    ensures ds[s] == PER_SEG
  {
    hide Units;
    forall j | 0 <= j < |es| && j != i ensures UseOf(s, es[j]) == 0 {
      if Live(es[j]) {
        assert Apart(es[i], es[j]);
      }
    }
    SumAlone(es, i, s);
  }
}
