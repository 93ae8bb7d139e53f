/**
 * Finding keywords for snippets (`lib/snip.c`, sen_bm_preBmBc, sen_snip_cond_init and
 * sen_bm_tunedbm): a tuned Boyer-Moore search with an unrolled skip loop.
 *
 * A pointer into the text is the number of bytes before it; the search window ends there.
 */
module BoyerMoore {
  import opened ByteCodec

  const ASIZE: nat := 256

  /** Keyword `x` occurs in text `y` at byte `i`. */
  ghost predicate Occurs(x: seq<byte>, y: seq<byte>, i: nat) {
    i + |x| <= |y| && y[i..i + |x|] == x
  }

  /** An occurrence counts if it starts at a byte with a non-zero check. */
  ghost predicate Counts(x: seq<byte>, y: seq<byte>, checks: seq<int>, i: nat) {
    Occurs(x, y, i) && i < |checks| && checks[i] != 0
  }

  // ---------------------------------------------------------------- the skip table

  /** How far the keyword may move when byte `c` is seen at its end: not past an earlier `c` in it. */
  ghost predicate SkipOk(x: seq<byte>, c: byte, d: nat) {
    && 1 <= d <= |x|
    && (forall i :: 0 <= i < |x| - 1 && x[i] == c ==> d <= |x| - 1 - i)
    && (d < |x| ==> x[|x| - 1 - d] == c)
  }

  /** sen_bm_preBmBc. */
  method PreBmBc(x: seq<byte>, bmBc: array<nat>)
    requires |x| >= 1 && bmBc.Length == ASIZE
    modifies bmBc
    ensures forall c: byte ::
        && 1 <= bmBc[c] <= |x|
        && (forall i :: 0 <= i < |x| - 1 && x[i] == c ==> bmBc[c] <= |x| - 1 - i)
        && (bmBc[c] < |x| ==> x[|x| - 1 - bmBc[c]] == c)
  {
    var m := |x|;
    var i := 0;
    while i < ASIZE
      invariant i <= ASIZE && forall c :: 0 <= c < i ==> bmBc[c] == m
    {
      bmBc[i] := m;
      i := i + 1;
    }
    i := 0;
    while i < m - 1
      invariant i <= m - 1
      invariant forall c: byte :: SkipUpto(x, c, i, bmBc[c])
    {
      bmBc[x[i]] := m - (i + 1);
      i := i + 1;
    }
  }

  /** ... when only the first `n` bytes of the keyword have been looked at. */
  ghost predicate SkipUpto(x: seq<byte>, c: byte, n: nat, d: nat) {
    && 1 <= d <= |x|
    && (forall i :: 0 <= i < n && i < |x| - 1 && x[i] == c ==> d <= |x| - 1 - i)
    && (d < |x| ==> x[|x| - 1 - d] == c)
  }

  /** The table as the search uses it: 0 for the last byte of the keyword, whose skip is kept apart. */
  ghost predicate TableOk(x: seq<byte>, bmBc: array<nat>, shift: nat)
    reads bmBc
  {
    && |x| >= 2 && bmBc.Length == ASIZE && SkipOk(x, x[|x| - 1], shift)
    && (forall c: byte :: bmBc[c] <= |x|)
    && (forall c: byte :: if c == x[|x| - 1] then bmBc[c] == 0 else bmBc[c] >= 1 && SkipOk(x, c, bmBc[c]))
  }

  // ---------------------------------------------------------------- skipping

  /** No occurrence that counts starts at `lo` or later and ends before `p`. */
  ghost predicate Clear(x: seq<byte>, y: seq<byte>, checks: seq<int>, lo: nat, p: nat) {
    forall i :: lo <= i && i + |x| < p ==> !Counts(x, y, checks, i)
  }

  /** A window that ends within a skip cannot be an occurrence. */
  lemma NoneWithin(x: seq<byte>, y: seq<byte>, p: nat, d: nat, e: nat)
    requires |x| >= 1 && 1 <= p <= |y| && SkipOk(x, y[p - 1], d) && p < e < p + d && |x| <= e
    ensures !Occurs(x, y, e - |x|)
  {
    ByteOf(x, y, e - |x|, p - 1 - (e - |x|));
  }

  lemma ByteOf(x: seq<byte>, y: seq<byte>, i: nat, j: nat)
    requires j < |x| && i + j < |y|
    ensures Occurs(x, y, i) ==> x[j] == y[i + j]
  {
    assert i + |x| <= |y| ==> y[i..i + |x|][j] == y[i + j];
  }

  lemma SkipClear(x: seq<byte>, y: seq<byte>, checks: seq<int>, lo: nat, p: nat, d: nat)
    requires |x| >= 1 && 1 <= p <= |y| && Clear(x, y, checks, lo, p) && SkipOk(x, y[p - 1], d)
    requires lo + |x| <= p && !Counts(x, y, checks, p - |x|)
    ensures Clear(x, y, checks, lo, p + d)
  {
    forall i | lo <= i && i + |x| < p + d ensures !Counts(x, y, checks, i) {
      if i + |x| > p {
        NoneWithin(x, y, p, d, i + |x|);
      } else if i + |x| == p {
        assert i == p - |x|;
      }
    }
  }

  lemma LastByte(x: seq<byte>, y: seq<byte>, p: nat)
    requires |x| >= 1 && |x| <= p <= |y| && y[p - 1] != x[|x| - 1]
    ensures !Occurs(x, y, p - |x|)
  {
    ByteOf(x, y, p - |x|, |x| - 1);
  }

  /** Skipping by the table, which stays where the keyword may end. */
  lemma TableClear(x: seq<byte>, y: seq<byte>, checks: seq<int>, lo: nat, p: nat, bmBc: array<nat>, shift: nat)
    requires TableOk(x, bmBc, shift) && lo + |x| <= p <= |y| && Clear(x, y, checks, lo, p)
    ensures bmBc[y[p - 1]] <= |x| && Clear(x, y, checks, lo, p + bmBc[y[p - 1]])
  {
    if y[p - 1] != x[|x| - 1] {
      LastByte(x, y, p);
      SkipClear(x, y, checks, lo, p, bmBc[y[p - 1]]);
    }
  }

  /** The next occurrence that counts, from `lo` on. */
  ghost predicate IsNext(x: seq<byte>, y: seq<byte>, checks: seq<int>, lo: nat, r: nat) {
    lo <= r && Counts(x, y, checks, r) && forall i :: lo <= i < r ==> !Counts(x, y, checks, i)
  }

  ghost predicate NoNext(x: seq<byte>, y: seq<byte>, checks: seq<int>, lo: nat) {
    forall i :: lo <= i ==> !Counts(x, y, checks, i)
  }

  class SnipCond {
    const keyword: seq<byte>
    const bmBc: array<nat>
    var shift: nat
    var found: nat         // where the next search starts
    var stopped: bool

    ghost predicate Valid()
      reads this, bmBc
    {
      if |keyword| == 1 then shift == 1 else TableOk(keyword, bmBc, shift)
    }

    /** sen_snip_cond_init, for a keyword that is not empty. */
    constructor (keyword: seq<byte>)
      requires |keyword| >= 1
      ensures Valid() && found == 0 && !stopped && this.keyword == keyword && fresh(bmBc)
    {
      this.keyword, shift, found, stopped := keyword, 1, 0, false;
      bmBc := new nat[ASIZE](i => 0);
      new;
      if |keyword| != 1 {
        PreBmBc(keyword, bmBc);
        var last := keyword[|keyword| - 1];
        shift := bmBc[last];
        bmBc[last] := 0;
      }
    }

    /** The comparison of the bytes before the last two, backwards. */
    method CompareBack(y: seq<byte>, p: nat) returns (i: nat)
      requires |keyword| >= 2 && |keyword| <= p <= |y| && y[p - 2..p] == keyword[|keyword| - 2..]
      ensures 3 <= i <= |keyword| + 1
      ensures if i > |keyword| then y[p - |keyword|..p] == keyword else y[p - i] != keyword[|keyword| - i]
    {
      var m := |keyword|;
      i := 3;
      while i <= m && y[p - i] == keyword[m - i]
        invariant 3 <= i <= m + 1 && y[p - (i - 1)..p] == keyword[m - (i - 1)..]
      {
        assert y[p - i..p] == [y[p - i]] + y[p - (i - 1)..p];
        assert keyword[m - i..] == [keyword[m - i]] + keyword[m - (i - 1)..];
        i := i + 1;
      }
      assert keyword[0..] == keyword;
    }

    /** Is there an occurrence that ends at `p`, where the last bytes agree? It counts if its start has a check. */
    method Compare(y: seq<byte>, checks: seq<int>, p: nat) returns (hit: bool)
      requires |keyword| >= 2 && |keyword| <= p <= |y| <= |checks| && y[p - 1] == keyword[|keyword| - 1]
      ensures hit == Counts(keyword, y, checks, p - |keyword|)
    {
      var m := |keyword|;
      hit := false;
      ByteOf(keyword, y, p - m, m - 2);
      if y[p - 2] == keyword[m - 2] {
        assert y[p - 2..p] == keyword[m - 2..];
        var i := CompareBack(y, p);
        if i > m {
          hit := checks[p - m] != 0;
        } else {
          ByteOf(keyword, y, p - m, m - i);
        }
      }
    }

    /** What the skip loops keep. */
    ghost predicate At(y: seq<byte>, checks: seq<int>, lo: nat, p: nat)
      reads this, bmBc
    {
      |keyword| >= 2 && Valid() && lo + |keyword| <= p && |y| <= |checks| && Clear(keyword, y, checks, lo, p)
    }

    /** p += bmBc[p[-1]] */
    method Skip(y: seq<byte>, ghost checks: seq<int>, ghost lo: nat, p: nat) returns (q: nat)
      requires At(y, checks, lo, p) && p <= |y|
      ensures At(y, checks, lo, q) && p <= q <= p + |keyword|
      ensures q == p <==> y[p - 1] == keyword[|keyword| - 1]
    {
      hide Clear;
      TableClear(keyword, y, checks, lo, p, bmBc, shift);
      q := p + bmBc[y[p - 1]];
    }

    /** The comparison where the last byte agrees, and the shift if it fails. */
    method Check(y: seq<byte>, checks: seq<int>, ghost lo: nat, p: nat) returns (hit: bool, q: nat)
      requires At(y, checks, lo, p) && p <= |y| && y[p - 1] == keyword[|keyword| - 1]
      ensures hit ==> IsNext(keyword, y, checks, lo, p - |keyword|)
      ensures !hit ==> At(y, checks, lo, q) && p < q <= p + |keyword|
    {
      hide SkipOk;
      hit := Compare(y, checks, p);
      q := p;
      if !hit {
        ShiftOk(p, y);
        SkipClear(keyword, y, checks, lo, p, shift);
        q := p + shift;
      }
    }

    lemma ShiftOk(p: nat, y: seq<byte>)
      requires |keyword| >= 2 && Valid() && 1 <= p <= |y| && y[p - 1] == keyword[|keyword| - 1]
      ensures SkipOk(keyword, y[p - 1], shift) && 1 <= shift <= |keyword|
    {}

    /** The unrolled loop, while there is room for its ten skips. */
    method SkipFast(y: seq<byte>, checks: seq<int>, ghost lo: nat, p0: nat) returns (hit: bool, p: nat)
      requires At(y, checks, lo, p0) && |y| >= 11 * |keyword| && p0 <= |y| + |keyword|
      ensures hit ==> p <= |y| && p >= |keyword| && IsNext(keyword, y, checks, lo, p - |keyword|)
      ensures !hit ==> At(y, checks, lo, p) && p <= |y| + |keyword|
    {
      hide At, IsNext, SnipCond.Valid;
      ghost var m := |keyword|;
      hit, p := false, p0;
      var limit := |y| - 11 * |keyword|;
      while p <= limit
        invariant At(y, checks, lo, p) && p <= |y| + |keyword|
        decreases |y| + |keyword| - p
      {
        ghost var start := p;
        WindowLength(y, checks, lo, p);
        p := Skip(y, checks, lo, p);
        var q := Skip(y, checks, lo, p);
        var check := q == p;
        if !check {
          p := q;
          p := Skip(y, checks, lo, p);
          p := Skip(y, checks, lo, p);
          q := Skip(y, checks, lo, p);
          check := q == p;
          if !check {
            p := q;
            p := Skip(y, checks, lo, p);
            p := Skip(y, checks, lo, p);
            q := Skip(y, checks, lo, p);
            check := q == p;
            if !check {
              p := q;
              p := Skip(y, checks, lo, p);
              p := Skip(y, checks, lo, p);
            }
          }
        }
        if check {
          WindowLength(y, checks, lo, p);
          hit, q := Check(y, checks, lo, p);
          if hit {
            return;
          }
          p := q;
        }
      }
    }

    lemma WindowLength(y: seq<byte>, checks: seq<int>, lo: nat, p: nat)
      requires At(y, checks, lo, p)
      ensures |keyword| >= 2 && lo + |keyword| <= p
    {}

    /** sen_bm_tunedbm, for a keyword of two or more bytes. */
    method Search(y: seq<byte>, checks: seq<int>) returns (hit: bool, r: nat)
      requires |keyword| >= 2 && Valid() && |y| <= |checks| && found <= |y|
      modifies this`found, this`stopped
      ensures Valid() && (hit ==> IsNext(keyword, y, checks, old(found), r) && found == r + shift && found <= |y|)
      ensures hit ==> r < found && forall i :: r < i < found ==> !Occurs(keyword, y, i)
      ensures !hit ==> NoNext(keyword, y, checks, old(found)) && stopped && found == old(found)
    {
      hide Clear, SkipOk;
      var n, m, p := |y|, |keyword|, |keyword| + found;
      ghost var lo := found;
      NothingBefore(y, checks, lo);
      hit := false;
      if n - found > 12 * m {
        hit, p := SkipFast(y, checks, lo, p);
      }
      while p <= n && !hit
        invariant found == lo && (hit ==> m <= p <= n && IsNext(keyword, y, checks, lo, p - m))
        invariant !hit ==> At(y, checks, lo, p)
        decreases !hit, n + m + 1 - p
      {
        var q := Skip(y, checks, lo, p);
        if q == p {
          hit, q := Check(y, checks, lo, p);
        }
        if !hit {
          p := q;
        }
      }
      r := 0;
      if hit {
        r := p - m;
        Restart(y, r);
        found := r + shift;
      } else {
        NothingLeft(y, checks, lo, p);
        stopped := true;
      }
    }

    lemma NothingBefore(y: seq<byte>, checks: seq<int>, lo: nat)
      ensures Clear(keyword, y, checks, lo, lo + |keyword|)
    {}

    lemma NothingLeft(y: seq<byte>, checks: seq<int>, lo: nat, p: nat)
      requires At(y, checks, lo, p) && p > |y|
      ensures NoNext(keyword, y, checks, lo)
    {}

    /** No occurrence is lost between a match and the place where the next search starts. */
    lemma Restart(y: seq<byte>, r: nat)
      requires |keyword| >= 2 && Valid() && Occurs(keyword, y, r)
      ensures r < r + shift <= |y| && forall i :: r < i < r + shift ==> !Occurs(keyword, y, i)
    {
      var m := |keyword|;
      ByteOf(keyword, y, r, m - 1);
      forall i | r < i < r + shift ensures !Occurs(keyword, y, i) {
        NoneWithin(keyword, y, r + m, shift, i + m);
      }
    }

    /**
     * sen_bm_tunedbm, for a keyword of one byte: memchr, once. It reports nothing, while an
     * occurrence that counts is left, exactly if the one that memchr finds has no check.
     */
    method SearchByte(y: seq<byte>, checks: seq<int>) returns (hit: bool, r: nat)
      requires |keyword| == 1 && Valid() && |y| <= |checks|
      modifies this`found, this`stopped
      ensures hit ==> IsNext(keyword, y, checks, old(found), r) && FirstOccurs(keyword, y, old(found), r)
      ensures hit ==> found == r + 1 <= |y|
      ensures !hit ==> stopped && found == old(found)
      ensures !hit && !NoNext(keyword, y, checks, old(found)) <==> Shadowed(keyword, y, checks, old(found))
    {
      hit, r := false, found;
      while r < |y| && y[r] != keyword[0]
        invariant found == old(found) <= r && (found <= |y| ==> r <= |y|)
        invariant forall i :: found <= i < r && i < |y| ==> y[i] != keyword[0]
      {
        r := r + 1;
      }
      OneByte(keyword, y);
      ShadowedFirst(keyword, y, checks, found, r);
      if r < |y| && checks[r] != 0 {
        hit, found := true, r + 1;
      } else {
        stopped := true;
      }
    }
  }

  lemma OneByte(x: seq<byte>, y: seq<byte>)
    requires |x| == 1
    ensures forall i: nat :: Occurs(x, y, i) <==> i < |y| && y[i] == x[0]
  {
    forall i: nat | i < |y| ensures y[i..i + 1] == [y[i]] {}
  }

  ghost predicate FirstOccurs(x: seq<byte>, y: seq<byte>, lo: nat, r: nat) {
    lo <= r && Occurs(x, y, r) && forall i :: lo <= i < r ==> !Occurs(x, y, i)
  }

  /** The first occurrence from `lo` on has no check, and a later one has. */
  ghost predicate Shadowed(x: seq<byte>, y: seq<byte>, checks: seq<int>, lo: nat) {
    exists r: nat :: FirstOccurs(x, y, lo, r) && r < |checks| && checks[r] == 0 && !NoNext(x, y, checks, r + 1)
  }

  lemma ShadowedFirst(x: seq<byte>, y: seq<byte>, checks: seq<int>, lo: nat, r: nat)
    requires |x| == 1 && |y| <= |checks| && lo <= r && forall i :: lo <= i < r ==> !Occurs(x, y, i)
    requires r < |y| ==> Occurs(x, y, r)
    ensures
      if r >= |y| then NoNext(x, y, checks, lo) && !Shadowed(x, y, checks, lo)
      else if checks[r] != 0 then IsNext(x, y, checks, lo, r) && !Shadowed(x, y, checks, lo)
      else !NoNext(x, y, checks, lo) <==> Shadowed(x, y, checks, lo)
  {
    if r < |y| {
      assert FirstOccurs(x, y, lo, r);
      assert forall p: nat :: FirstOccurs(x, y, lo, p) ==> p == r;
    }
  }

  /** Shift-JIS katakana "di", whose second byte is that of "a", and then "a": the keyword "a" is missed. */
  lemma OneByteMisses()
    ensures var x, y: seq<byte>, checks := [0x61], [0x83, 0x61, 0x61], [2, 0, 1];
            Shadowed(x, y, checks, 0) && IsNext(x, y, checks, 0, 2)
  {
    var x, y: seq<byte>, checks := [0x61], [0x83, 0x61, 0x61], [2, 0, 1];
    OneByte(x, y);
    assert FirstOccurs(x, y, 0, 1);
    assert Counts(x, y, checks, 2);
  }

  /** All calls for a keyword of one byte: the occurrences that count in front of the first one without a check. */
  method SearchAllBytes(cond: SnipCond, y: seq<byte>, checks: seq<int>) returns (rs: seq<nat>)
    requires |cond.keyword| == 1 && cond.Valid() && |y| <= |checks| && cond.found == 0
    modifies cond
    ensures forall i: nat :: i in rs <==>
        i < |y| && y[i] == cond.keyword[0] && forall j: nat :: j <= i && y[j] == cond.keyword[0] ==> checks[j] != 0
    ensures forall i, j :: 0 <= i < j < |rs| ==> rs[i] < rs[j]
  {
    hide Occurs, Shadowed;
    rs := [];
    var hit := true;
    while hit
      invariant cond.Valid() && cond.found <= |y|
      invariant forall i: nat :: i in rs <==> i < cond.found && Counts(cond.keyword, y, checks, i)
      invariant forall i: nat :: i < cond.found && Occurs(cond.keyword, y, i) ==> checks[i] != 0
      invariant forall i, j :: 0 <= i < j < |rs| ==> rs[i] < rs[j]
      invariant !hit ==> NoNext(cond.keyword, y, checks, cond.found) || Shadowed(cond.keyword, y, checks, cond.found)
      decreases hit, |y| - cond.found
    {
      var r;
      hit, r := cond.SearchByte(y, checks);
      if hit {
        forall i | 0 <= i < |rs| ensures rs[i] < r { assert rs[i] in rs; }
        rs := rs + [r];
      }
    }
    forall i: nat | i >= cond.found
      ensures !(Counts(cond.keyword, y, checks, i) && AllChecked(cond.keyword, y, checks, i))
    {
      NotChecked(cond.keyword, y, checks, cond.found, i);
    }
    forall i: nat
      ensures Counts(cond.keyword, y, checks, i) && AllChecked(cond.keyword, y, checks, i) <==>
          i < |y| && y[i] == cond.keyword[0] && forall j: nat :: j <= i && y[j] == cond.keyword[0] ==> checks[j] != 0
    {
      CountsByte(cond.keyword, y, checks, i);
    }
  }

  lemma CountsByte(x: seq<byte>, y: seq<byte>, checks: seq<int>, i: nat)
    requires |x| == 1 && |y| <= |checks|
    ensures Counts(x, y, checks, i) && AllChecked(x, y, checks, i) <==>
        i < |y| && y[i] == x[0] && forall j: nat :: j <= i && y[j] == x[0] ==> checks[j] != 0
  {
    forall j: nat ensures Occurs(x, y, j) <==> j < |y| && y[j] == x[0] {}
  }

  /** Every occurrence up to `i` has a check. */
  ghost predicate AllChecked(x: seq<byte>, y: seq<byte>, checks: seq<int>, i: nat)
    requires |y| <= |checks|
  {
    forall j: nat :: j <= i && j < |y| && Occurs(x, y, j) ==> checks[j] != 0
  }

  lemma NotChecked(x: seq<byte>, y: seq<byte>, checks: seq<int>, lo: nat, i: nat)
    requires |x| == 1 && |y| <= |checks| && lo <= i && (NoNext(x, y, checks, lo) || Shadowed(x, y, checks, lo))
    ensures !(Counts(x, y, checks, i) && AllChecked(x, y, checks, i))
  {}

  /** All calls, one after the other: exactly the occurrences that count, overlapping ones too, from left to right. */
  method SearchAll(cond: SnipCond, y: seq<byte>, checks: seq<int>) returns (rs: seq<nat>)
    requires |cond.keyword| >= 2 && cond.Valid() && |y| <= |checks| && cond.found == 0
    modifies cond
    ensures forall i: nat :: i in rs <==>
        i + |cond.keyword| <= |y| && y[i..i + |cond.keyword|] == cond.keyword && checks[i] != 0
    ensures forall i, j :: 0 <= i < j < |rs| ==> rs[i] < rs[j]
  {
    hide SkipOk, Occurs, TableOk;
    rs := [];
    var hit := true;
    while hit
      invariant cond.Valid() && cond.found <= |y|
      invariant forall i: nat :: i in rs <==> i < cond.found && Counts(cond.keyword, y, checks, i)
      invariant forall i, j :: 0 <= i < j < |rs| ==> rs[i] < rs[j]
      invariant !hit ==> NoNext(cond.keyword, y, checks, cond.found)
      decreases hit, |y| - cond.found
    {
      var r;
      ghost var lo := cond.found;
      hit, r := cond.Search(y, checks);
      if hit {
        forall i | 0 <= i < |rs| ensures rs[i] < r { assert rs[i] in rs; }
        rs := rs + [r];
      }
    }
    forall i: nat
      ensures Counts(cond.keyword, y, checks, i) <==>
          i + |cond.keyword| <= |y| && y[i..i + |cond.keyword|] == cond.keyword && checks[i] != 0
    {
      CountsIs(cond.keyword, y, checks, i);
    }
  }

  lemma CountsIs(x: seq<byte>, y: seq<byte>, checks: seq<int>, i: nat)
    requires |x| > 0 && |y| <= |checks|
    ensures Counts(x, y, checks, i) <==> i + |x| <= |y| && y[i..i + |x|] == x && checks[i] != 0
  {}
}
