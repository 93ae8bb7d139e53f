/**
 * The space for posting chunks (`lib/inv.c`, chunk_new, chunk_free and what buffer_flush does with
 * them): one mark per unit of space, and every buffer owns a run of units within one file.
 */
module ChunkSpaces {
  import BufferList

  const CHUNK_SIZE := 0x4_0000
  const PER_FILE := 0x1000  // chunks in a file of 1 GB

  /** The space has room for so many chunks per initial segment. */
  const MAX_CHUNK_RATIO := 64

  /** The number of units for `size` bytes. */
  function Units(size: nat): nat {
    (size + CHUNK_SIZE - 1) / CHUNK_SIZE
  }

  /** ... as chunk_new and chunk_free compute it. */
  lemma UnitsRounded(size: nat)
    ensures
      var n := size / CHUNK_SIZE;
      Units(size) == if n * CHUNK_SIZE < size then n + 1 else n
  {}

  lemma UnitsMore(a: nat, b: nat)
    requires a <= b
    ensures Units(a) <= Units(b)
    ensures a > 0 ==> Units(a) > 0
  {}

  /** The file of a unit; `base` units of the first file are taken by the header. */
  function FileOf(base: nat, k: nat): nat {
    (k + base) / PER_FILE
  }

  /** n units from `s` on, in one file. */
  ghost predicate InFile(base: nat, s: nat, n: nat) {
    forall k :: s <= k < s + n ==> FileOf(base, k) == FileOf(base, s)
  }

  /** n free units from `s` on, in one file. */
  ghost predicate Fits(marks: seq<bool>, base: nat, s: nat, n: nat) {
    && s + n <= |marks| && InFile(base, s, n)
    && forall k :: s <= k < s + n ==> !marks[k]
  }

  ghost predicate Roomy(marks: seq<bool>, base: nat, n: nat) {
    exists s :: Fits(marks, base, s, n)
  }

  /** The first place for n units, from `s` on. */
  ghost function FirstFit(marks: seq<bool>, base: nat, n: nat, s: nat): nat
    decreases |marks| - s
  {
    if s >= |marks| || Fits(marks, base, s, n) then s else FirstFit(marks, base, n, s + 1)
  }

  lemma {:induction false} FirstFitAt(marks: seq<bool>, base: nat, n: nat, s: nat, r: nat)
    requires n > 0 && s <= r && Fits(marks, base, r, n) && forall k :: s <= k < r ==> !Fits(marks, base, k, n)
    ensures FirstFit(marks, base, n, s) == r
    decreases r - s
  {
    hide Fits;
    FitsInside(marks, base, r, n);
    if s < r {
      FirstFitAt(marks, base, n, s + 1, r);
    }
  }

  lemma {:induction false} FirstFitFits(marks: seq<bool>, base: nat, n: nat, s: nat, r: nat)
    requires n > 0 && s <= r && Fits(marks, base, r, n)
    ensures Fits(marks, base, FirstFit(marks, base, n, s), n)
    decreases r - s
  {
    hide Fits;
    FitsInside(marks, base, r, n);
    if s < r {
      FirstFitFits(marks, base, n, s + 1, r);
    }
  }

  lemma FitsInside(marks: seq<bool>, base: nat, s: nat, n: nat)
    requires Fits(marks, base, s, n)
    ensures s + n <= |marks|
  {}

  /** The marks after n units from `s` on are set or cleared. */
  function SetRun(marks: seq<bool>, s: nat, n: nat, v: bool): (r: seq<bool>)
    requires s + n <= |marks|
    ensures |r| == |marks|
    ensures forall k :: 0 <= k < |marks| ==> r[k] == if s <= k < s + n then v else marks[k]
  {
    seq(|marks|, k requires 0 <= k < |marks| => if s <= k < s + n then v else marks[k])
  }

  datatype Run = Run(start: nat, size: nat)

  predicate In(r: Run, k: nat) {
    r.start <= k < r.start + Units(r.size)
  }

  ghost predicate Owned(owners: map<nat, Run>, k: nat) {
    exists b :: b in owners && In(owners[b], k)
  }

  ghost predicate Apart(a: Run, b: Run) {
    forall k :: !(In(a, k) && In(b, k))
  }

  /** The runs of the buffers are in the space, each in one file, apart from each other, and all that is marked. */
  ghost predicate Conserved(marks: seq<bool>, base: nat, owners: map<nat, Run>) {
    && (forall b :: b in owners ==>
          var r := owners[b];
          r.size > 0 && r.start + Units(r.size) <= |marks| && InFile(base, r.start, Units(r.size)))
    && (forall a, b :: a in owners && b in owners && a != b ==> Apart(owners[a], owners[b]))
    && (forall k: nat :: k < |marks| ==> (marks[k] <==> Owned(owners, k)))
  }

  /** The owners after the run of `b` is another one, or none. */
  function Reowned(owners: map<nat, Run>, b: nat, start: nat, size: nat): map<nat, Run> {
    if size > 0 then owners[b := Run(start, size)] else owners - {b}
  }

  /** max_dest_chunk_size: the old image and a whole buffer. */
  function Reserved(owners: map<nat, Run>, b: nat): nat {
    (if b in owners then owners[b].size else 0) + BufferList.SEGMENT_SIZE
  }

  /** The marks after `b` has given its run back and got another one. */
  function Exchanged(marks: seq<bool>, owners: map<nat, Run>, b: nat, start: nat, size: nat): (r: seq<bool>)
    ensures |r| == |marks|
  {
    seq(|marks|, k requires 0 <= k < |marks| =>
      In(Run(start, size), k) || (marks[k] && !(b in owners && In(owners[b], k))))
  }

  /** What `b` owned is cleared, and what it owns now was free. */
  lemma Reowns(marks: seq<bool>, base: nat, owners: map<nat, Run>, b: nat, start: nat, size: nat)
    requires Conserved(marks, base, owners) && Fits(marks, base, start, Units(size))
    ensures Conserved(Exchanged(marks, owners, b, start, size), base, Reowned(owners, b, start, size))
  {
    UnitsMore(0, size);
    forall a | a in owners && a != b ensures Apart(owners[a], Run(start, size)) {
      NewApart(marks, base, owners, a, start, size);
    }
    var marks2 := Exchanged(marks, owners, b, start, size);
    forall k: nat | k < |marks| ensures marks2[k] <==> Owned(Reowned(owners, b, start, size), k) {
      hide Conserved, Fits;
      MarkedOwned(marks, base, owners, k);
      OwnedNow(owners, b, start, size, k);
      ApartAt(marks, base, owners, b, k);
    }
  }

  /** A free run is apart from every run that is owned. */
  lemma NewApart(marks: seq<bool>, base: nat, owners: map<nat, Run>, a: nat, start: nat, size: nat)
    requires Conserved(marks, base, owners) && Fits(marks, base, start, Units(size)) && a in owners
    ensures Apart(owners[a], Run(start, size))
  {
    forall k | In(owners[a], k) ensures !In(Run(start, size), k) {
      assert Owned(owners, k);
    }
  }

  lemma MarkedOwned(marks: seq<bool>, base: nat, owners: map<nat, Run>, k: nat)
    requires Conserved(marks, base, owners) && k < |marks|
    ensures marks[k] <==> Owned(owners, k)
  {}

  lemma ApartAt(marks: seq<bool>, base: nat, owners: map<nat, Run>, b: nat, k: nat)
    requires Conserved(marks, base, owners)
    ensures b in owners && In(owners[b], k) ==> forall a :: a in owners && a != b ==> !In(owners[a], k)
  {}

  /** A file holds no larger run. */
  lemma FileHolds(base: nat, s: nat, n: nat)
    requires InFile(base, s, n)
    ensures n <= PER_FILE
  {
    assert FileOf(base, s + PER_FILE) == FileOf(base, s) + 1;
  }

  lemma RunBounded(marks: seq<bool>, base: nat, owners: map<nat, Run>, b: nat)
    requires Conserved(marks, base, owners) && b in owners
    ensures owners[b].size <= PER_FILE * CHUNK_SIZE
  {
    FileHolds(base, owners[b].start, Units(owners[b].size));
  }

  /** Who owns a unit, after the run of `b` has been exchanged. */
  lemma OwnedNow(owners: map<nat, Run>, b: nat, start: nat, size: nat, k: nat)
    ensures Owned(Reowned(owners, b, start, size), k) <==>
            In(Run(start, size), k) || exists a :: a in owners && a != b && In(owners[a], k)
  {
    var owners2 := Reowned(owners, b, start, size);
    UnitsMore(0, size);
    if In(Run(start, size), k) {
      assert b in owners2 && In(owners2[b], k);
    }
    if a :| a in owners && a != b && In(owners[a], k) {
      assert a in owners2 && In(owners2[a], k);
    }
  }

  /** The space, seen from outside. */
  datatype Space = Space(base: nat, marks: seq<bool>, owners: map<nat, Run>)

  /** There is room for what a flush of buffer `b` reserves. */
  ghost predicate CanReserve(sp: Space, b: nat) {
    Roomy(sp.marks, sp.base, Units(Reserved(sp.owners, b)))
  }

  /** The space after a flush of buffer `b` that leaves an image of `size` bytes. */
  ghost function SpaceAfter(sp: Space, b: nat, size: nat): Space {
    var start := FirstFit(sp.marks, sp.base, Units(Reserved(sp.owners, b)), 0);
    Space(sp.base, Exchanged(sp.marks, sp.owners, b, start, size), Reowned(sp.owners, b, start, size))
  }

  /**
   * A flush leaves its image at the first place where as much as it had and a segment would fit, and what the
   * buffer had before is free again.
   */
  lemma SpaceAfterIs(sp: Space, b: nat, size: nat) returns (start: nat)
    requires CanReserve(sp, b)
    ensures
      var had := if b in sp.owners then sp.owners[b].size else 0;
      var n := (had + 0x4_0000 + 0x3_ffff) / 0x4_0000;
      Fits(sp.marks, sp.base, start, n) && forall s: nat :: s < start ==> !Fits(sp.marks, sp.base, s, n)
    ensures
      var r := SpaceAfter(sp, b, size);
      && r.base == sp.base && |r.marks| == |sp.marks|
      && (forall k :: 0 <= k < |sp.marks| ==>
            (r.marks[k] <==>
              || start <= k < start + (size + 0x3_ffff) / 0x4_0000
              || (sp.marks[k] && !(b in sp.owners &&
                    sp.owners[b].start <= k < sp.owners[b].start + (sp.owners[b].size + 0x3_ffff) / 0x4_0000))))
      && r.owners == if size > 0 then sp.owners[b := Run(start, size)] else sp.owners - {b}
  {
    hide Fits;
    var n := Units(Reserved(sp.owners, b));
    start := FirstFit(sp.marks, sp.base, n, 0);
    FirstFitFirst(sp.marks, sp.base, n, 0);
  }

  lemma {:induction false} FirstFitFirst(marks: seq<bool>, base: nat, n: nat, s: nat)
    requires n > 0 && exists r :: r >= s && Fits(marks, base, r, n)
    ensures
      var r := FirstFit(marks, base, n, s);
      Fits(marks, base, r, n) && forall k: nat :: s <= k < r ==> !Fits(marks, base, k, n)
    decreases |marks| - s
  {
    if s < |marks| && !Fits(marks, base, s, n) {
      FirstFitFirst(marks, base, n, s + 1);
    }
  }

  /** Exchanging the chunk of a buffer keeps the space in order. */
  lemma SpaceKept(sp: Space, b: nat, size: nat)
    requires Conserved(sp.marks, sp.base, sp.owners) && CanReserve(sp, b) && size <= Reserved(sp.owners, b)
    ensures var r := SpaceAfter(sp, b, size); Conserved(r.marks, r.base, r.owners)
  {
    hide Conserved, Fits, FirstFit;
    var max := Units(Reserved(sp.owners, b));
    UnitsMore(size, Reserved(sp.owners, b));
    UnitsMore(1, Reserved(sp.owners, b));
    var r: nat :| Fits(sp.marks, sp.base, r, max);
    FirstFitFits(sp.marks, sp.base, max, 0, r);
    var start := FirstFit(sp.marks, sp.base, max, 0);
    FitsIn(sp.marks, sp.base, start, max, Units(size));
    Reowns(sp.marks, sp.base, sp.owners, b, start, size);
  }

  class ChunkSpace {
    const base: nat
    const marks: array<bool>
    var owners: map<nat, Run>   // chunk and chunk_size in the header of every buffer that has one

    ghost predicate Valid()
      reads this, marks
    {
      Conserved(marks[..], base, owners)
    }

    ghost function Now(): Space
      reads this, marks
    {
      Space(base, marks[..], owners)
    }

    constructor (base: nat, max: nat)
      ensures Valid() && fresh(marks) && Now() == Space(base, seq(max, _ => false), map[])
    {
      this.base := base;
      marks := new bool[max](_ => false);
      owners := map[];
    }

    /** chunk_new: the first place where the units fit, or none if they fit nowhere. */
    method New(size: nat) returns (ok: bool, start: nat)
      requires size > 0
      modifies marks
      ensures ok ==> Fits(old(marks[..]), base, start, Units(size))
      ensures ok ==> start == FirstFit(old(marks[..]), base, Units(size), 0)
      ensures ok ==> forall s: nat :: s < start ==> !Fits(old(marks[..]), base, s, Units(size))
      ensures ok ==> marks[..] == SetRun(old(marks[..]), start, Units(size), true)
      ensures !ok ==> marks[..] == old(marks[..]) && forall s :: !Fits(marks[..], base, s, Units(size))
    {
      ghost var m := marks[..];
      var n := size / CHUNK_SIZE;
      UnitsRounded(size);
      if n * CHUNK_SIZE < size {
        n := n + 1;
      }
      var i, j := 0, -1;
      while i < marks.Length
        invariant -1 <= j < i <= marks.Length && marks[..] == m && i - j <= n
        invariant j >= 0 ==> m[j] || FileOf(base, j) != FileOf(base, j + 1)
        invariant forall k :: j < k < i ==> !m[k]
        invariant forall k :: j < k <= i ==> FileOf(base, k) == FileOf(base, j + 1)
        invariant forall s: nat :: s + n <= i ==> !Fits(m, base, s, n)
      {
        NoneEndsAt(m, base, n, i, j);
        if marks[i] {
          j := i;
        } else {
          if i - j == n {
            start := j + 1;
            FirstFitAt(m, base, n, 0, start);
            Mark(start, n, true);
            return true, start;
          }
          if FileOf(base, i) != FileOf(base, i + 1) {
            j := i;
          }
        }
        i := i + 1;
      }
      ok, start := false, 0;
    }

    method Mark(s: nat, n: nat, v: bool)
      requires s + n <= marks.Length
      modifies marks
      ensures marks[..] == SetRun(old(marks[..]), s, n, v)
    {
      var i := 0;
      while i < n
        invariant i <= n
        invariant forall k :: 0 <= k < marks.Length ==> marks[k] == if s <= k < s + i then v else old(marks[k])
      {
        marks[s + i] := v;
        i := i + 1;
      }
    }

    /** chunk_free */
    method Free(start: nat, size: nat)
      requires start + Units(size) <= marks.Length
      modifies marks
      ensures marks[..] == SetRun(old(marks[..]), start, Units(size), false)
    {
      var n := size / CHUNK_SIZE;
      UnitsRounded(size);
      if n * CHUNK_SIZE < size {
        n := n + 1;
      }
      Mark(start, n, false);
    }

    /**
     * buffer_flush of buffer b: space for the old image and a whole buffer is reserved, what the new
     * image of `size` bytes does not need is given back, and so is the space of the old one.
     * `mapped` says whether the space could be mapped.
     */
    method Flush(b: nat, size: nat, mapped: bool) returns (ok: bool)
      requires Valid() && size <= Reserved(owners, b)
      modifies this, marks
      ensures Valid() && (ok <==> mapped && CanReserve(old(Now()), b))
      ensures Now() == if ok then SpaceAfter(old(Now()), b, size) else old(Now())
    {
      hide Conserved, Fits, FirstFit;
      ghost var m := marks[..];
      var max := Reserved(owners, b);
      UnitsMore(size, max);
      var fits, dcn := New(max);
      if !fits {
        return false;
      }
      FitsIn(m, base, dcn, Units(max), Units(size));
      if !mapped {
        Free(dcn, max);
        Unmarked(m, marks[..], base, dcn, Units(max));
        return false;
      }
      Mark(dcn + Units(size), Units(max) - Units(size), false);
      if b in owners {
        RunIn(m, base, owners, b);
        RunsApart(m, base, owners, b, dcn, size);
        Free(owners[b].start, owners[b].size);
      }
      Trimmed(m, base, dcn, Units(max), Units(size));
      Reowns(m, base, owners, b, dcn, size);
      assert marks[..] == Exchanged(m, owners, b, dcn, size);
      owners := if size > 0 then owners[b := Run(dcn, size)] else owners - {b};
      ok := true;
    }
  }

  lemma RunsApart(m: seq<bool>, base: nat, owners: map<nat, Run>, b: nat, start: nat, size: nat)
    requires Conserved(m, base, owners) && Fits(m, base, start, Units(size)) && b in owners
    ensures forall k: nat :: In(owners[b], k) ==> !In(Run(start, size), k)
  {
    NewApart(m, base, owners, b, start, size);
  }

  lemma NoneEndsAt(m: seq<bool>, base: nat, n: nat, i: nat, j: int)
    requires i < |m| && -1 <= j < i && 0 < n && i - j <= n
        && (j >= 0 ==> m[j] || FileOf(base, j) != FileOf(base, j + 1))
    requires forall s: nat :: s + n <= i ==> !Fits(m, base, s, n)
    ensures i - j < n || m[i] ==> forall s: nat :: s + n <= i + 1 ==> !Fits(m, base, s, n)
    ensures forall s: nat :: s < j + 1 && s + n <= i + 1 ==> !Fits(m, base, s, n)
  {}

  lemma FitsIn(m: seq<bool>, base: nat, s: nat, n: nat, k: nat)
    requires Fits(m, base, s, n) && k <= n
    ensures Fits(m, base, s, k) && s + n <= |m| && forall i :: s <= i < s + n ==> !m[i]
  {}

  lemma Unmarked(m: seq<bool>, m2: seq<bool>, base: nat, s: nat, n: nat)
    requires Fits(m, base, s, n) && m2 == SetRun(SetRun(m, s, n, true), s, n, false)
    ensures m2 == m
  {}

  lemma Trimmed(m: seq<bool>, base: nat, s: nat, n: nat, k: nat)
    requires Fits(m, base, s, n) && k <= n
    ensures SetRun(SetRun(m, s, n, true), s + k, n - k, false) == SetRun(m, s, k, true)
  {}

  lemma RunIn(m: seq<bool>, base: nat, owners: map<nat, Run>, b: nat)
    requires Conserved(m, base, owners) && b in owners
    ensures owners[b].start + Units(owners[b].size) <= |m| && forall k: nat :: In(owners[b], k) ==> m[k]
  {}
}
