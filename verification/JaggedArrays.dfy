/**
 * The jagged array (`lib/store.c`, assign_eseg, assign_rec, sen_ja_put and sen_ja_ref of the JA:02
 * format; `lib/io.c`, sen_io_write_ja and sen_io_read_ja), with ids in one entry segment.
 */
module JaggedArrays {
  import opened ByteCodec
  import opened JaggedSpaces
  import opened Options

  const SEG_ESEG := 0xffff_ffff
  const SEG_NOT_ASSIGNED := -1
  const N_ENTRIES := 0x2_0000   // 1 << JA_ESEG_WIDTH

  // ---------------------------------------------------------------- the file

  /** The bytes written, by their place in the data segments. */
  type File = map<nat, byte>

  function ByteAt(f: File, a: nat): byte {
    if a in f then f[a] else 0
  }

  function BytesAt(f: File, a: nat, n: nat): (s: seq<byte>)
    ensures |s| == n && forall i :: 0 <= i < n ==> s[i] == ByteAt(f, a + i)
  {
    seq<byte>(n, i requires 0 <= i < n => ByteAt(f, a + i))
  }

  /** A 32-bit word in memory. */
  function Word(x: u32): (s: seq<byte>)
    ensures |s| == 4
  {
    [x % 0x100, x / 0x100 % 0x100, x / 0x1_0000 % 0x100, x / 0x100_0000]
  }

  function WordOf(s: seq<byte>): u32
    requires |s| == 4
  {
    (s[0] as int) + 0x100 * (s[1] as int) + 0x1_0000 * (s[2] as int) + 0x100_0000 * (s[3] as int)
  }

  lemma WordBack(x: u32)
    ensures WordOf(Word(x)) == x
  {
    var a, b, c := x / 0x100, x / 0x1_0000, x / 0x100_0000;
    assert b == a / 0x100 && c == b / 0x100;
  }

  /** sen_io_ja_ehead and the value. */
  function Element(key: u32, value: seq<byte>): (s: seq<byte>)
    requires |value| < TWO32
    ensures |s| == HEAD + |value|
  {
    Word(|value|) + Word(key) + value
  }

  ghost predicate Stores(f: File, e: Einfo, key: u32, value: seq<byte>) {
    && |value| == e.size < TWO32
    && BytesAt(f, e.pos * UNIT, HEAD + e.size) == Element(key, value)
  }

  method Write(f: File, a: nat, s: seq<byte>) returns (f2: File)
    ensures forall x: nat :: ByteAt(f2, x) == if a <= x < a + |s| then s[x - a] else ByteAt(f, x)
  {
    f2 := f;
    var i := 0;
    while i < |s|
      invariant i <= |s|
      invariant forall x: nat :: ByteAt(f2, x) == if a <= x < a + i then s[x - a] else ByteAt(f, x)
    {
      var f1 := f2;
      f2 := f1[a + i := s[i]];
      forall x: nat ensures ByteAt(f2, x) == if x == a + i then s[i] else ByteAt(f1, x) {}
      i := i + 1;
    }
  }

  lemma UnitsHold(size: nat)
    ensures HEAD + size <= Units(size) * UNIT
  {}

  lemma StoresNew(f2: File, e: Einfo, key: u32, value: seq<byte>)
    requires |value| == e.size < TWO32
    requires forall x: nat :: e.pos * UNIT <= x < e.pos * UNIT + HEAD + e.size ==>
      ByteAt(f2, x) == Element(key, value)[x - e.pos * UNIT]
    ensures Stores(f2, e, key, value)
  {}

  /** The header is read back, and the value. */
  lemma ReadsBack(f: File, e: Einfo, key: u32, value: seq<byte>)
    requires Stores(f, e, key, value)
    ensures
      var s := BytesAt(f, e.pos * UNIT, HEAD + e.size);
      WordOf(s[..4]) == e.size && WordOf(s[4..HEAD]) == key && s[HEAD..] == value
  {
    var s := Element(key, value);
    assert s[..4] == Word(|value|) && s[4..HEAD] == Word(key) && s[HEAD..] == value;
    WordBack(|value|);
    WordBack(key);
  }

  // ---------------------------------------------------------------- the entries

  type Content = map<nat, seq<byte>>

  /** Every entry that is in use has its value in the file. */
  ghost predicate Kept(f: File, es: seq<Einfo>, c: Content) {
    && |es| <= TWO32
    && (forall i :: i in c <==> 0 <= i < |es| && Live(es[i]))
    && (forall i :: i in c ==> Stores(f, es[i], i, c[i]))
  }

  function Updated(c: Content, id: nat, value: seq<byte>): Content {
    if value == [] then c - {id} else c[id := value]
  }

  lemma KeptPut(f: File, f2: File, es: seq<Einfo>, c: Content, id: nat, e: Einfo, value: seq<byte>)
    requires Kept(f, es, c) && id < |es| && e.size == |value| && (value != [] ==> Stores(f2, e, id, value))
    requires forall i :: i in c && i != id ==> Stores(f2, es[i], i, c[i])
    ensures Kept(f2, es[id := e], Updated(c, id, value))
  {
    hide Stores;
  }

  lemma OthersStill(f: File, f2: File, es: seq<Einfo>, c: Content, pos: nat, n: nat, size: nat)
    requires Kept(f, es, c) && size <= n * UNIT
    requires forall x: nat :: x < pos * UNIT || pos * UNIT + size <= x ==> ByteAt(f2, x) == ByteAt(f, x)
    requires forall i :: 0 <= i < |es| && Live(es[i]) ==> End(es[i]) <= pos || pos + n <= es[i].pos
    ensures Kept(f2, es, c)
  {}

  datatype Rc = Success | NoSegment | NoRoom

  // ---------------------------------------------------------------- counts

  /** The next unit is in segment `s`, of the units from `pos` on; `left` are still to be counted. */
  ghost predicate CountedTo(d0: seq<nat>, d: seq<nat>, pos: nat, n: nat, s: nat, left: nat) {
    && |d| == |d0| && s <= |d| && left > 0
    && (forall t :: 0 <= t < s ==> d[t] == d0[t] + Use(t, pos, n))
    && (forall t :: s <= t < |d| ==> d[t] == d0[t])
    && (if s == SegOf(pos) then left == n else SegOf(pos) < s && left == pos + n - s * PER_SEG)
  }

  lemma CountNone(d: seq<nat>, pos: nat, n: nat)
    requires n > 0 && SegOf(pos) < |d|
    ensures CountedTo(d, d, pos, n, SegOf(pos), n)
  {}

  class Ja {
    const dsegs: array<nat>
    const entries: array<Einfo>
    var eseg: int     // esegs[0]: the segment of the entries, or SEG_NOT_ASSIGNED
    var curr: nat     // curr_pos
    var file: File
    ghost var content: Content

    ghost predicate Valid()
      reads this, dsegs, entries
    {
      && dsegs.Length == MAX_DSEGS && entries.Length == N_ENTRIES
      && Kept(file, entries[..], content)
      && if eseg == SEG_NOT_ASSIGNED then
           && curr == 0 && (forall s :: 0 <= s < MAX_DSEGS ==> dsegs[s] == 0)
           && (forall i :: 0 <= i < N_ENTRIES ==> !Live(entries[i]))
         else eseg == 0 && Ordered(dsegs[..], entries[..], curr)
    }

    constructor ()
      ensures Valid() && fresh(dsegs) && fresh(entries) && content == map[]
    {
      dsegs := new nat[MAX_DSEGS](_ => 0);
      entries := new Einfo[N_ENTRIES](_ => Einfo(0, 0));
      eseg, curr, file, content := SEG_NOT_ASSIGNED, 0, map[], map[];
    }

    /** assign_eseg: the first segment that is not in use, if there is one. */
    method AssignEseg() returns (ok: bool)
      requires dsegs.Length == MAX_DSEGS
      modifies this`eseg, dsegs
      ensures ok <==> exists s :: 0 <= s < MAX_DSEGS && old(dsegs[s]) == 0
      ensures ok ==>
        && 0 <= eseg < MAX_DSEGS && old(dsegs[..])[eseg] == 0 && dsegs[..] == old(dsegs[..])[eseg := SEG_ESEG]
        && forall s :: 0 <= s < eseg ==> old(dsegs[s]) != 0
    {
      var i := 0;
      while i < MAX_DSEGS
        invariant i <= MAX_DSEGS && forall s :: 0 <= s < i ==> dsegs[s] != 0
      {
        if dsegs[i] == 0 {
          dsegs[i] := SEG_ESEG;
          eseg := i;
          return true;
        }
        i := i + 1;
      }
      ok := false;
    }

    /** assign_rec: where the element goes is left in curr. It fails exactly when there is no place for it. */
    method AssignRec(size: nat) returns (ok: bool)
      requires Valid() && eseg == 0 && size > 0
      modifies this`curr
      ensures ok <==> HasRoom(dsegs[..], old(curr), size)
      ensures ok ==> Room(dsegs[..], entries[..], curr, Units(size))
      ensures !ok ==> curr == old(curr)
    {
      hide Kept, Units, Segments;
      ghost var d, es := dsegs[..], entries[..];
      if curr != 0 {
        var doff := curr % PER_SEG * UNIT;
        BytesFit(curr % PER_SEG, size);
        if doff + size + HEAD <= SEG_BYTES {
          return true;
        }
      }
      var nseg := (size + HEAD + SEG_BYTES - 1) / SEG_BYTES;
      NsegIs(size);
      var i, j := 0, 0;
      while i < MAX_DSEGS
        invariant 0 <= j <= i <= MAX_DSEGS && j < nseg && RunUnused(d, i - j, j) && (i - j > 0 ==> d[i - j - 1] != 0)
        invariant curr == old(curr) && forall a: nat :: RunUnused(d, a, nseg) ==> a + nseg > i
      {
        NoRunYet(d, i, j, nseg);
        if dsegs[i] == 0 {
          j := j + 1;
          if j == nseg {
            curr := (i + 1 - j) * PER_SEG;
            RunRoom(d, es, i + 1 - j, size, old(curr));
            return true;
          }
        } else {
          j := 0;
        }
        i := i + 1;
      }
      ok := false;
    }

    /** The counts of sen_ja_put for n units at pos. */
    method CountUp(pos: nat, n: nat)
      requires dsegs.Length == MAX_DSEGS && Room(dsegs[..], entries[..], pos, n)
      modifies dsegs
      ensures MoreUse(old(dsegs[..]), dsegs[..], pos, n)
    {
      hide Use, CountedTo, Room, MoreUse;
      ghost var d0, es := dsegs[..], entries[..];
      RoomPlaced(d0, es, pos, n);
      var dseg: nat, inc: nat := pos / PER_SEG, n;
      CountNone(d0, pos, n);
      while dsegs[dseg] + inc > PER_SEG
        invariant dseg < MAX_DSEGS && CountedTo(d0, dsegs[..], pos, n, dseg, inc)
        decreases MAX_DSEGS - dseg
      {
        CountOver(d0, dsegs[..], es, pos, n, dseg, inc);
        inc := inc - (PER_SEG - dsegs[dseg]);
        dsegs[dseg] := PER_SEG;
        dseg := dseg + 1;
      }
      CountLast(d0, dsegs[..], es, pos, n, dseg, inc);
      dsegs[dseg] := dsegs[dseg] + inc;
    }

    /**
     * The counts for an element that is no longer in use. In the last segment of one that reaches
     * over several it is marked as free, in its first unit there.
     */
    method FreeOld(e: Einfo) returns (ghost a: nat)
      requires dsegs.Length == MAX_DSEGS && Live(e) && e.size < TWO32 && Placed(e)
          && CanFree(dsegs[..], e.pos, Units(e.size))
      modifies dsegs, this`file
      ensures LessUse(old(dsegs[..]), dsegs[..], e.pos, Units(e.size))
      ensures e.pos <= a < End(e)
      ensures forall x: nat :: x < a * UNIT || a * UNIT + HEAD <= x ==> ByteAt(file, x) == ByteAt(old(file), x)
    {
      hide Use, CountedDown, MoreUse, CanFree, Word, Units;
      ghost var d0 := dsegs[..];
      var pos, n := e.pos, Units(e.size);
      var dseg: nat, off: nat, dec: nat := pos / PER_SEG, pos % PER_SEG, n;
      a := pos;
      DownNone(d0, pos, n);
      if off + dec > PER_SEG {
        DownOver(d0, dsegs[..], pos, n, dseg, dec);
        dec := dec - (PER_SEG - off);
        dsegs[dseg] := dsegs[dseg] - (PER_SEG - off);
        dseg := dseg + 1;
        while dec > PER_SEG
          invariant file == old(file) && SegOf(pos) < dseg < MAX_DSEGS && CountedDown(d0, dsegs[..], pos, n, dseg, dec)
          decreases MAX_DSEGS - dseg
        {
          DownOver(d0, dsegs[..], pos, n, dseg, dec);
          dec := dec - PER_SEG;
          dsegs[dseg] := 0;
          dseg := dseg + 1;
        }
        a := dseg * PER_SEG;
        DownUnit(d0, dsegs[..], pos, n, dseg, dec);
        var vsize := dec * UNIT - HEAD;
        file := Write(file, dseg * PER_SEG * UNIT, Word(vsize) + Word(0));
      }
      DownLast(d0, dsegs[..], pos, n, dseg, dec);
      dsegs[dseg] := dsegs[dseg] - dec;
    }

    /** A place for the value, and the value in it. */
    method PutNew(id: nat, value: seq<byte>) returns (ok: bool, pos: nat)
      requires Valid() && eseg == 0 && id < N_ENTRIES && 0 < |value| < 0x8000_0000
      modifies this`curr, this`file, dsegs
      ensures ok <==> HasRoom(old(dsegs[..]), old(curr), |value|)
      ensures !ok ==> curr == old(curr) && file == old(file) && dsegs[..] == old(dsegs[..])
      ensures ok ==> Room(old(dsegs[..]), entries[..], pos, Units(|value|))
      ensures ok ==> MoreUse(old(dsegs[..]), dsegs[..], pos, Units(|value|)) && curr == NextPos(pos, Units(|value|))
      ensures ok ==> Kept(file, entries[..], content) && Stores(file, Einfo(pos, |value|), id, value)
    {
      hide Kept, Stores, Units, Room, MoreUse, AllApart, Counted, TailOk, Element, HasRoom;
      ghost var d0, es := dsegs[..], entries[..];
      ok := AssignRec(|value|);
      pos := curr;
      if !ok {
        return;
      }
      var n := Units(|value|);
      ghost var f0 := file;
      file := Write(file, pos * UNIT, Element(id, value));
      NewKept(f0, file, d0, es, content, pos, |value|);
      StoresNew(file, Einfo(pos, |value|), id, value);
      curr := if (pos + n) % PER_SEG != 0 then pos + n else 0;
      CountUp(pos, n);
    }

    /** sen_ja_put: the value of an id; with an empty one it has none. */
    method Put(id: nat, value: seq<byte>) returns (rc: Rc)
      requires Valid() && id < N_ENTRIES && |value| < 0x8000_0000
      modifies this, dsegs, entries
      ensures Valid()
      ensures rc == Success <==>
          || value == []
          || (old(curr) != 0 && old(curr) % 0x1_0000 + (|value| + 23) / 16 <= 0x1_0000)
          || exists a: nat :: UnusedRun(old(dsegs[..]), a, |value|)
      ensures content ==
          if rc != Success then old(content)
          else if value == [] then old(content) - {id}
          else old(content)[id := value]
    {
      hide Kept, Stores, Units, Room, MoreUse, Element, HasRoom, AllApart, Counted, TailOk;
      if eseg == SEG_NOT_ASSIGNED {
        assert dsegs[0] == 0;
        var done := AssignEseg();
        if !done {
          return NoSegment;
        }
        FirstOrdered(dsegs[..], entries[..]);
      }
      ghost var d0, es, c, curr0 := dsegs[..], entries[..], content, curr;
      var pos := 0;
      if value != [] {
        var ok;
        ok, pos := PutNew(id, value);
        if !ok {
          RoomIs(old(dsegs[..]), old(curr), |value|);
          return NoRoom;
        }
      }
      ghost var d1, f1 := dsegs[..], file;
      var old_, new_ := entries[id], Einfo(pos, |value|);
      entries[id] := new_;
      content := Updated(c, id, value);
      assert entries[..] == es[id := new_];
      PutKept(f1, es, c, id, new_, value);
      PutOrdered(d0, d1, es, id, new_, curr0, curr);
      if old_.size != 0 {
        OldFree(d0, d1, es, id, new_, f1, c);
        ghost var a := FreeOld(old_);
        FreedKept(f1, file, d0, es, id, new_, content, a);
      }
      PutDone(d0, d1, dsegs[..], es, id, new_, curr);
      if value != [] {
        RoomIs(old(dsegs[..]), old(curr), |value|);
      }
      rc := Success;
    }

    /** sen_ja_ref: the value that was put last. */
    method Ref(id: nat) returns (r: Option<seq<byte>>)
      requires Valid() && id < N_ENTRIES
      ensures r == if id in content then Some(content[id]) else None
    {
      hide Stores;
      if eseg == SEG_NOT_ASSIGNED {
        return None;
      }
      var e := entries[id];
      if e.size == 0 {
        return None;
      }
      var s := BytesAt(file, e.pos * UNIT, HEAD + e.size);
      ReadsBack(file, e, id, content[id]);
      if WordOf(s[..4]) != e.size || WordOf(s[4..HEAD]) != id {
        return None;
      }
      r := Some(s[HEAD..]);
    }
  }

  ghost predicate Ordered(ds: seq<nat>, es: seq<Einfo>, curr: nat) {
    AllApart(es) && Counted(ds, es) && TailOk(ds, es, curr) && ds[0] == SEG_ESEG
  }

  lemma FirstOrdered(ds: seq<nat>, es: seq<Einfo>)
    requires |ds| == MAX_DSEGS && ds[0] == SEG_ESEG && (forall s :: 1 <= s < MAX_DSEGS ==> ds[s] == 0)
    requires forall i :: 0 <= i < |es| ==> !Live(es[i])
    ensures Ordered(ds, es, 0)
  {
    hide Units, Use;
    forall s | 1 <= s < MAX_DSEGS ensures ds[s] == SumUse(es, s) {
      SumNone(es, s);
    }
  }

  ghost predicate RunUnused(ds: seq<nat>, a: nat, n: nat) {
    Unused(ds, a, a + n)
  }

  /** Behind what is in use of the current segment, or in a run of unused ones. */
  ghost predicate HasRoom(ds: seq<nat>, curr: nat, size: nat) {
    || (curr != 0 && curr % PER_SEG + Units(size) <= PER_SEG)
    || exists a :: RunUnused(ds, a, Segments(size))
  }

  /** From `a` on, no unit is used in as many segments as the element takes; segment 0 is that of the entries. */
  ghost predicate UnusedRun(ds: seq<nat>, a: nat, size: nat) {
    var n := (size + 0x10_0007) / 0x10_0000;
    1 <= a && a + n <= |ds| && forall s :: a <= s < a + n ==> ds[s] == 0
  }

  lemma RoomIs(ds: seq<nat>, curr: nat, size: nat)
    requires |ds| == MAX_DSEGS && size > 0
    ensures HasRoom(WithEntries(ds), curr, size) <==>
        || (curr != 0 && curr % 0x1_0000 + (size + 23) / 16 <= 0x1_0000)
        || exists a: nat :: UnusedRun(ds, a, size)
  {
    forall a: nat ensures UnusedRun(ds, a, size) <==> RunUnused(WithEntries(ds), a, Segments(size)) {}
  }

  lemma NsegIs(size: nat)
    ensures Segments(size) == (size + HEAD + SEG_BYTES - 1) / SEG_BYTES > 0
  {}

  lemma NoRunYet(d: seq<nat>, i: nat, j: nat, nseg: nat)
    requires |d| == MAX_DSEGS && i < MAX_DSEGS && j <= i && 0 < nseg && j < nseg && (i - j > 0 ==> d[i - j - 1] != 0)
    requires forall a: nat :: RunUnused(d, a, nseg) ==> a + nseg > i
    ensures d[i] != 0 || j + 1 < nseg ==> forall a: nat :: RunUnused(d, a, nseg) ==> a + nseg > i + 1
  {}

  lemma RunRoom(ds: seq<nat>, es: seq<Einfo>, a: nat, size: nat, curr: nat)
    requires Counted(ds, es) && ds[0] == SEG_ESEG && RunUnused(ds, a, Segments(size))
    ensures Room(ds, es, a * PER_SEG, Units(size)) && HasRoom(ds, curr, size)
  {}

  lemma CountedLength(ds: seq<nat>, es: seq<Einfo>)
    requires Counted(ds, es)
    ensures |ds| == MAX_DSEGS
  {}

  /** Over the end of the segment: it is full then, of this element. */
  lemma CountOver(d0: seq<nat>, d: seq<nat>, es: seq<Einfo>, pos: nat, n: nat, s: nat, left: nat)
    requires Room(d0, es, pos, n) && s < MAX_DSEGS && CountedTo(d0, d, pos, n, s, left) && d[s] + left > PER_SEG
    ensures d[s] <= PER_SEG < left + d[s] && s + 1 < MAX_DSEGS
    ensures CountedTo(d0, d[s := PER_SEG], pos, n, s + 1, left - (PER_SEG - d[s]))
  {}

  lemma CountLast(d0: seq<nat>, d: seq<nat>, es: seq<Einfo>, pos: nat, n: nat, s: nat, left: nat)
    requires Room(d0, es, pos, n) && s < MAX_DSEGS && CountedTo(d0, d, pos, n, s, left) && d[s] + left <= PER_SEG
    ensures MoreUse(d0, d[s := d[s] + left], pos, n)
  {}

  // ---------------------------------------------------------------- freeing

  /** The units are counted, and a segment that is full of them has no others. */
  ghost predicate CanFree(d: seq<nat>, pos: nat, n: nat) {
    && pos + n <= LIMIT && n > 0 && |d| == MAX_DSEGS
    && forall s :: 0 <= s < |d| ==> Use(s, pos, n) <= d[s] && (Use(s, pos, n) == PER_SEG ==> d[s] == PER_SEG)
  }

  ghost predicate CountedDown(d0: seq<nat>, d: seq<nat>, pos: nat, n: nat, s: nat, left: nat) {
    && |d| == |d0| && s <= |d| && left > 0
    && (forall t :: 0 <= t < s ==> d[t] + Use(t, pos, n) == d0[t])
    && (forall t :: s <= t < |d| ==> d[t] == d0[t])
    && (if s == SegOf(pos) then left == n else SegOf(pos) < s && left == pos + n - s * PER_SEG)
  }

  lemma DownNone(d: seq<nat>, pos: nat, n: nat)
    requires CanFree(d, pos, n)
    ensures SegOf(pos) < MAX_DSEGS && CountedDown(d, d, pos, n, SegOf(pos), n)
  {}

  lemma DownOver(d0: seq<nat>, d: seq<nat>, pos: nat, n: nat, s: nat, left: nat)
    requires CanFree(d0, pos, n) && s < MAX_DSEGS && CountedDown(d0, d, pos, n, s, left)
    requires (if s == SegOf(pos) then pos % PER_SEG else 0) + left > PER_SEG
    ensures
      var off := if s == SegOf(pos) then pos % PER_SEG else 0;
      && PER_SEG - off <= d[s] && s + 1 < MAX_DSEGS && (off == 0 ==> d[s] == PER_SEG)
      && CountedDown(d0, d[s := d[s] - (PER_SEG - off)], pos, n, s + 1, left - (PER_SEG - off))
  {}

  lemma DownLast(d0: seq<nat>, d: seq<nat>, pos: nat, n: nat, s: nat, left: nat)
    requires CanFree(d0, pos, n) && s < MAX_DSEGS && CountedDown(d0, d, pos, n, s, left)
    requires (if s == SegOf(pos) then pos % PER_SEG else 0) + left <= PER_SEG
    ensures left <= d[s] && LessUse(d0, d[s := d[s] - left], pos, n)
  {}

  lemma DownUnit(d0: seq<nat>, d: seq<nat>, pos: nat, n: nat, s: nat, left: nat)
    requires CountedDown(d0, d, pos, n, s, left) && SegOf(pos) < s && left <= PER_SEG
    ensures pos <= s * PER_SEG < pos + n && 0 < left * UNIT - HEAD < TWO32
  {}

  // ---------------------------------------------------------------- put

  /** The counts once the entries have their segment. */
  function WithEntries(d: seq<nat>): seq<nat> {
    if |d| > 0 && d[0] == 0 then d[0 := SEG_ESEG] else d
  }

  lemma NewKept(f: File, f2: File, ds: seq<nat>, es: seq<Einfo>, c: Content, pos: nat, size: nat)
    requires Kept(f, es, c) && Counted(ds, es) && Room(ds, es, pos, Units(size))
    requires forall x: nat :: x < pos * UNIT || pos * UNIT + HEAD + size <= x ==> ByteAt(f2, x) == ByteAt(f, x)
    ensures Kept(f2, es, c)
  {
    hide Kept, Counted, Room, Units;
    forall i | 0 <= i < |es| && Live(es[i]) ensures End(es[i]) <= pos || pos + Units(size) <= es[i].pos {
      RoomFree(ds, es, pos, Units(size), i);
      LastSegment(pos, Units(size));
    }
    UnitsHold(size);
    OthersStill(f, f2, es, c, pos, Units(size), HEAD + size);
  }

  lemma PutKept(f: File, es: seq<Einfo>, c: Content, id: nat, e: Einfo, value: seq<byte>)
    requires Kept(f, es, c) && id < |es| && e.size == |value| && (value != [] ==> Stores(f, e, id, value))
    ensures Kept(f, es[id := e], Updated(c, id, value))
  {
    hide Stores;
    KeptPut(f, f, es, c, id, e, value);
  }

  lemma PutOrdered(ds: seq<nat>, ds1: seq<nat>, es: seq<Einfo>, id: nat, e: Einfo, curr0: nat, curr: nat)
    requires Ordered(ds, es, curr0) && id < |es|
    requires
      if Live(e) then
        Room(ds, es, e.pos, Units(e.size)) && MoreUse(ds, ds1, e.pos, Units(e.size))
          && curr == NextPos(e.pos, Units(e.size))
      else ds1 == ds && curr == curr0
    ensures AllApart(es[id := e]) && TailOk(ds1, es[id := e], curr) && |ds1| == MAX_DSEGS && ds1[0] == SEG_ESEG
  {
    hide AllApart, Counted, TailOk, Room, Units;
    CountedLength(ds, es);
    if Live(e) {
      PutApart(ds, es, id, e);
      PutTail(ds, ds1, es, id, e);
      RoomPlaced(ds, es, e.pos, Units(e.size));
      UseFirst(e.pos, Units(e.size));
    } else {
      AllApartWithout(es, id, e);
      TailWithout(ds, es, curr, id, e);
    }
  }

  lemma UseFirst(pos: nat, n: nat)
    requires PER_SEG <= pos
    ensures Use(0, pos, n) == 0
  {}

  lemma OldFree(ds: seq<nat>, ds1: seq<nat>, es: seq<Einfo>, id: nat, e: Einfo, f: File, c: Content)
    requires AllApart(es) && Counted(ds, es) && Kept(f, es, c) && id < |es| && Live(es[id])
    requires
      if Live(e) then Room(ds, es, e.pos, Units(e.size)) && MoreUse(ds, ds1, e.pos, Units(e.size)) else ds1 == ds
    ensures Placed(es[id]) && es[id].size < TWO32 && CanFree(ds1, es[id].pos, Units(es[id].size))
  {
    hide Units, Room, Use;
    var o := es[id];
    assert id in c && Stores(f, o, id, c[id]);
    CountedLength(ds, es);
    if Live(e) {
      PutApart(ds, es, id, e);
    }
    forall s | 0 <= s < |ds1|
      ensures Use(s, o.pos, Units(o.size)) <= ds1[s] && (Use(s, o.pos, Units(o.size)) == PER_SEG ==> ds1[s] == PER_SEG)
    {
      if s == 0 {
        UseFirst(o.pos, Units(o.size));
      } else {
        SumAtLeast(es, id, s);
        if Use(s, o.pos, Units(o.size)) == PER_SEG {
          FullSegment(ds, es, id, s);
          if Live(e) {
            UseNone(s, o.pos, Units(o.size), e.pos, Units(e.size));
          }
        }
      }
    }
  }

  lemma UseNone(s: nat, pos: nat, n: nat, pos2: nat, n2: nat)
    requires Use(s, pos, n) == PER_SEG && (pos + n <= pos2 || pos2 + n2 <= pos)
    ensures Use(s, pos2, n2) == 0
  {}

  lemma FreedKept(f: File, f2: File, ds: seq<nat>, es: seq<Einfo>, id: nat, e: Einfo, c: Content, a: nat)
    requires id < |es| && Kept(f, es[id := e], c) && AllApart(es) && Counted(ds, es) && Live(es[id])
    requires Live(e) ==> Room(ds, es, e.pos, Units(e.size))
    requires es[id].pos <= a < End(es[id])
    requires forall x: nat :: x < a * UNIT || a * UNIT + HEAD <= x ==> ByteAt(f2, x) == ByteAt(f, x)
    ensures Kept(f2, es[id := e], c)
  {
    hide Kept, Counted, Room, Units;
    if Live(e) {
      PutApart(ds, es, id, e);
    }
    var es2 := es[id := e];
    forall i | 0 <= i < |es2| && Live(es2[i]) ensures End(es2[i]) <= a || a + 1 <= es2[i].pos {
      if i != id {
        assert Apart(es[i], es[id]);
      }
    }
    OthersStill(f, f2, es2, c, a, 1, HEAD);
  }

  lemma PutDone(ds: seq<nat>, ds1: seq<nat>, ds2: seq<nat>, es: seq<Einfo>, id: nat, e: Einfo, curr: nat)
    requires Counted(ds, es) && id < |es| && AllApart(es[id := e]) && TailOk(ds1, es[id := e], curr)
    requires |ds1| == MAX_DSEGS && ds1[0] == SEG_ESEG
    requires if Live(e) then MoreUse(ds, ds1, e.pos, Units(e.size)) else ds1 == ds
    requires
      if Live(es[id]) then Placed(es[id]) && LessUse(ds1, ds2, es[id].pos, Units(es[id].size)) else ds2 == ds1
    ensures Ordered(ds2, es[id := e], curr)
  {
    hide AllApart, Counted, TailOk, Units, Use;
    FreeCounted(ds, ds1, ds2, es, id, e);
    if Live(es[id]) {
      TailLess(ds1, ds2, es[id := e], curr, es[id].pos, Units(es[id].size));
      UseFirst(es[id].pos, Units(es[id].size));
    }
  }
}
