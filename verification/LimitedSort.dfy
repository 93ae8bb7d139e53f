/**
 * Sorting the entries of a hash set, as far as asked for (`lib/set.c`, pack_int, part_int,
 * _sort_int, sort_int and sen_set_sort).
 */
module LimitedSort {
  import HashSets

  /** An entry, and the integer it is sorted by. */
  datatype Entry = Entry(id: nat, value: int)

  /** INT_OFFSET_VAL: `dir` is 1, or -1 to sort in descending order. */
  function V(x: Entry, up: bool): int {
    if up then x.value else -x.value
  }

  // ---------------------------------------------------------------- rearranged ranges

  /** `t` is `s` with the elements lo, ..., hi - 1 rearranged. */
  ghost predicate Perm(s: seq<Entry>, t: seq<Entry>, lo: nat, hi: nat) {
    && lo <= hi <= |s| == |t| && s[..lo] == t[..lo] && s[hi..] == t[hi..]
    && multiset(s[lo..hi]) == multiset(t[lo..hi])
  }

  lemma PermTrans(s: seq<Entry>, t: seq<Entry>, u: seq<Entry>, lo: nat, hi: nat)
    requires Perm(s, t, lo, hi) && Perm(t, u, lo, hi)
    ensures Perm(s, u, lo, hi)
  {}

  lemma PermRefl(s: seq<Entry>, lo: nat, hi: nat)
    requires lo <= hi <= |s|
    ensures Perm(s, s, lo, hi)
  {}

  lemma PermSwap(s: seq<Entry>, i: nat, j: nat, lo: nat, hi: nat)
    requires lo <= i < hi <= |s| && lo <= j < hi
    ensures Perm(s, s[i := s[j]][j := s[i]], lo, hi)
  {
    var t := s[i := s[j]][j := s[i]];
    assert t[lo..hi] == s[lo..hi][i - lo := s[j]][j - lo := s[i]];
  }

  lemma PermWiden(s: seq<Entry>, t: seq<Entry>, lo: nat, hi: nat, lo2: nat, hi2: nat)
    requires Perm(s, t, lo, hi) && lo2 <= lo && hi <= hi2 <= |s|
    ensures Perm(s, t, lo2, hi2)
  {
    assert s[lo2..hi2] == s[lo2..lo] + s[lo..hi] + s[hi..hi2];
    assert t[lo2..hi2] == t[lo2..lo] + t[lo..hi] + t[hi..hi2];
    assert s[lo2..lo] == s[..lo][lo2..] && t[lo2..lo] == t[..lo][lo2..];
    assert s[hi..hi2] == s[hi..][..hi2 - hi] && t[hi..hi2] == t[hi..][..hi2 - hi];
    assert s[..lo2] == s[..lo][..lo2] && t[..lo2] == t[..lo][..lo2];
    assert s[hi2..] == s[hi..][hi2 - hi..] && t[hi2..] == t[hi..][hi2 - hi..];
  }

  /** What is outside of the range is the same, and bounds on what is inside still hold. */
  lemma PermBounds(s: seq<Entry>, t: seq<Entry>, lo: nat, hi: nat, up: bool, v: int)
    requires Perm(s, t, lo, hi)
    ensures lo <= hi <= |s| == |t|
    ensures forall i :: 0 <= i < |s| && (i < lo || hi <= i) ==> t[i] == s[i]
    ensures (forall i :: lo <= i < hi ==> V(s[i], up) <= v) ==> (forall i :: lo <= i < hi ==> V(t[i], up) <= v)
    ensures (forall i :: lo <= i < hi ==> v <= V(s[i], up)) ==> (forall i :: lo <= i < hi ==> v <= V(t[i], up))
  {
    forall i | 0 <= i < |s| && (i < lo || hi <= i) ensures t[i] == s[i] {
      if i < lo { assert t[i] == t[..lo][i]; } else { assert t[i] == t[hi..][i - hi]; }
    }
    forall i | lo <= i < hi ensures exists j :: lo <= j < hi && s[j] == t[i] {
      assert t[lo..hi][i - lo] in multiset(s[lo..hi]);
      var k :| 0 <= k < hi - lo && s[lo..hi][k] == t[i];
      assert s[lo + k] == t[i];
    }
  }

  /** In lo, ..., hi - 1, the first `limit` are in order, and no other one is smaller. */
  ghost predicate PrefixSorted(s: seq<Entry>, lo: int, hi: int, limit: int, up: bool) {
    forall i, j :: 0 <= i < |s| && 0 <= j < |s| && lo <= i < j < hi && i < lo + limit ==> V(s[i], up) <= V(s[j], up)
  }

  method Swap(a: array<Entry>, i: nat, j: nat, ghost lo: nat, ghost hi: nat)
    requires lo <= i < hi <= a.Length && lo <= j < hi
    modifies a
    ensures a[i] == old(a[j]) && a[j] == old(a[i])
    ensures forall k :: 0 <= k < a.Length && k != i && k != j ==> a[k] == old(a[k])
    ensures Perm(old(a[..]), a[..], lo, hi)
  {
    hide Perm;
    PermSwap(a[..], i, j, lo, hi);
    ghost var s := a[..];
    a[i], a[j] := a[j], a[i];
    assert a[..] == s[i := s[j]][j := s[i]];
  }

  /** Two elements in order; the range is rearranged. */
  method Order(a: array<Entry>, i: nat, j: nat, up: bool, ghost s0: seq<Entry>, ghost lo: nat, ghost hi: nat)
    returns (swapped: bool)
    requires lo <= i < j < hi <= a.Length && Perm(s0, a[..], lo, hi)
    modifies a
    ensures Perm(s0, a[..], lo, hi) && swapped == (V(old(a[i]), up) > V(old(a[j]), up))
    ensures if swapped then a[i] == old(a[j]) && a[j] == old(a[i]) else a[i] == old(a[i]) && a[j] == old(a[j])
    ensures forall k :: 0 <= k < a.Length && k != i && k != j ==> a[k] == old(a[k])
  {
    hide Perm;
    swapped := V(a[i], up) > V(a[j], up);
    if swapped {
      ghost var s1 := a[..];
      Swap(a, i, j, lo, hi);
      PermTrans(s0, s1, a[..], lo, hi);
    }
  }

  /** Median of three: the smallest, the pivot and the largest of the first, middle and last elements. */
  method Median(a: array<Entry>, b: nat, c: nat, e: nat, up: bool)
    requires b < c < e < a.Length
    modifies a
    ensures Perm(old(a[..]), a[..], b, e + 1)
    ensures V(a[b], up) <= V(a[c], up) <= V(a[e], up)
  {
    hide Perm, V;
    ghost var s0 := a[..];
    PermRefl(s0, b, e + 1);
    var _ := Order(a, b, e, up, s0, b, e + 1);
    var swapped := Order(a, b, c, up, s0, b, e + 1);
    if !swapped {
      var _ := Order(a, c, e, up, s0, b, e + 1);
    }
  }

  /** part_int: a pivot in its place, or -1 when the range is short and now sorted. */
  method Part(a: array<Entry>, b: nat, e: nat, up: bool) returns (c: int)
    requires b < e < a.Length
    modifies a
    ensures Perm(old(a[..]), a[..], b, e + 1)
    ensures c < 0 ==> PrefixSorted(a[..], b, e + 1, e + 1 - b, up)
    ensures c >= 0 ==> b < c < e && (forall i :: b <= i < c ==> V(a[i], up) <= V(a[c], up))
    ensures c >= 0 ==> forall i :: c < i <= e ==> V(a[c], up) <= V(a[i], up)
  {
    if e - b < 2 {
      if V(a[b], up) > V(a[e], up) {
        Swap(a, b, e, b, e + 1);
      }
      return -1;
    }
    Median(a, b, b + (e - b) / 2, e, up);
    if e - b < 3 {
      return -1;
    }
    c := Split(a, b, b + (e - b) / 2, e, up);
  }

  /** The first element from `b` on that is not below the pivot; element `e` is none of those. */
  method ScanUp(a: array<Entry>, b: nat, e: nat, ck: int, up: bool) returns (r: nat)
    requires b <= e < a.Length && ck <= V(a[e], up)
    ensures b <= r <= e && ck <= V(a[..][r], up) && forall i :: b <= i < r ==> V(a[..][i], up) < ck
  {
    r := b;
    while V(a[r], up) < ck
      invariant b <= r <= e && forall i :: b <= i < r ==> V(a[i], up) < ck
      decreases e - r
    {
      r := r + 1;
    }
  }

  /** The last element up to `e` that is not above the pivot; element `c` is none of those. */
  method ScanDown(a: array<Entry>, c: nat, e: nat, ck: int, up: bool) returns (r: nat)
    requires c <= e < a.Length && V(a[c], up) <= ck
    ensures c <= r <= e && V(a[..][r], up) <= ck && forall i :: r < i <= e ==> ck < V(a[..][i], up)
  {
    r := e;
    while V(a[r], up) > ck
      invariant c <= r <= e && forall i :: r < i <= e ==> ck < V(a[i], up)
      decreases r
    {
      r := r - 1;
    }
  }

  /** Element `c` is a pivot; up to `b` nothing is above it, and from `e` on nothing below. */
  ghost predicate Around(a: seq<Entry>, c: nat, b: nat, e: nat, e0: nat, ck: int, up: bool) {
    && 0 < c <= b < e <= e0 < |a| && V(a[c], up) == ck && V(a[c - 1], up) <= ck
    && (forall i :: c < i <= b ==> V(a[i], up) <= ck)
    && (forall i :: e <= i <= e0 ==> ck <= V(a[i], up))
  }

  /** The next two elements that are on the wrong sides are exchanged, until there are none. */
  method Exchange(a: array<Entry>, c: nat, b0: nat, e1: nat, e0: nat, ck: int, up: bool, ghost s0: seq<Entry>)
    returns (b: nat, e: nat)
    requires Around(a[..], c, b0, e1, e0, ck, up) && Perm(s0, a[..], c - 1, e0 + 1)
    modifies a
    ensures Perm(s0, a[..], c - 1, e0 + 1) && b0 < b && e < e1
    ensures b < e ==> Around(a[..], c, b, e, e0, ck, up)
    ensures b >= e ==> Parted(a[..], c, e, e0, ck, up)
  {
    hide Perm, V, Around, Parted;
    ghost var s1 := a[..];
    AroundAt(s1, c, b0, e1, e0, ck, up);
    b := ScanUp(a, b0 + 1, e1, ck, up);
    e := ScanDown(a, c, e1 - 1, ck, up);
    Scanned(s1, c, b0, e1, e0, ck, up, b, e);
    if b < e {
      Swap(a, b, e, c - 1, e0 + 1);
      PermTrans(s0, s1, a[..], c - 1, e0 + 1);
      assert a[..] == s1[b := s1[e]][e := s1[b]];
    }
  }

  lemma AroundAt(s: seq<Entry>, c: nat, b: nat, e: nat, e0: nat, ck: int, up: bool)
    requires Around(s, c, b, e, e0, ck, up)
    ensures 0 < c <= b < e <= e0 < |s| && V(s[c], up) == ck <= V(s[e], up)
  {}

  lemma Scanned(s: seq<Entry>, c: nat, b0: nat, e1: nat, e0: nat, ck: int, up: bool, b: nat, e: nat)
    requires Around(s, c, b0, e1, e0, ck, up) && b0 < b <= e1 && c <= e < e1
    requires ck <= V(s[b], up) && forall i :: b0 < i < b ==> V(s[i], up) < ck
    requires V(s[e], up) <= ck && forall i :: e < i < e1 ==> ck < V(s[i], up)
    ensures if b < e then Around(s[b := s[e]][e := s[b]], c, b, e, e0, ck, up) else Parted(s, c, e, e0, ck, up)
  {}

  /** Up to `e` nothing is above the pivot, and behind it nothing below. */
  ghost predicate Parted(a: seq<Entry>, c: nat, e: nat, e0: nat, ck: int, up: bool) {
    && 0 < c <= e < e0 < |a| && V(a[c], up) == ck
    && (forall i :: c - 1 <= i <= e ==> V(a[i], up) <= ck)
    && (forall i :: e < i <= e0 ==> ck <= V(a[i], up))
  }

  /** The pivot, element `m`, goes to the front, and in the end between what is below and above it. */
  method Split(a: array<Entry>, b0: nat, m: nat, e0: nat, up: bool) returns (r: nat)
    requires b0 < m < e0 < a.Length && V(a[b0], up) <= V(a[m], up) <= V(a[e0], up)
    modifies a
    ensures Perm(old(a[..]), a[..], b0, e0 + 1)
    ensures b0 < r < e0 && (forall i :: b0 <= i < r ==> V(a[i], up) <= V(a[r], up))
    ensures forall i :: r < i <= e0 ==> V(a[r], up) <= V(a[i], up)
  {
    ghost var s0 := a[..];
    var b, e := b0 + 1, e0;
    var ck := V(a[m], up);
    Swap(a, b, m, b0, e0 + 1);
    r := Partition(a, b, e, ck, up, s0);
  }

  method Partition(a: array<Entry>, c: nat, e0: nat, ck: int, up: bool, ghost s0: seq<Entry>) returns (r: nat)
    requires c < e0 && Around(a[..], c, c, e0, e0, ck, up) && Perm(s0, a[..], c - 1, e0 + 1)
    modifies a
    ensures Perm(s0, a[..], c - 1, e0 + 1)
    ensures c <= r < e0 < a.Length && (forall i :: c - 1 <= i < r ==> V(a[i], up) <= V(a[r], up))
    ensures forall i :: r < i <= e0 ==> V(a[r], up) <= V(a[i], up)
  {
    hide Perm, V;
    var b, e := c, e0;
    while true
      invariant Around(a[..], c, b, e, e0, ck, up) && Perm(s0, a[..], c - 1, e0 + 1)
      decreases e
    {
      b, e := Exchange(a, c, b, e, e0, ck, up, s0);
      if b >= e {
        break;
      }
    }
    ghost var s1 := a[..];
    Swap(a, c, e, c - 1, e0 + 1);
    PermTrans(s0, s1, a[..], c - 1, e0 + 1);
    r := e;
  }

  /** _sort_int: the elements head, ..., tail, of which the first `limit` have to be in order. */
  method Sort(a: array<Entry>, head: nat, tail: int, limit: int, up: bool)
    requires head <= tail + 1 <= a.Length
    modifies a
    ensures Perm(old(a[..]), a[..], head, tail + 1)
    ensures PrefixSorted(a[..], head, tail + 1, limit, up)
    ensures forall i, j :: head <= i < j <= tail && i < head + limit ==>
        if up then a[i].value <= a[j].value else a[i].value >= a[j].value
    decreases tail - head
  {
    if head < tail {
      ghost var s0 := a[..];
      var c := Part(a, head, tail, up);
      if c >= 0 {
        SortSides(a, head, tail, c, limit, up, s0);
      }
    }
  }

  /** Nothing before the pivot is larger, and nothing behind it is smaller. */
  ghost predicate Pivoted(s: seq<Entry>, head: int, tail: int, c: int, up: bool) {
    && 0 <= head <= c <= tail < |s|
    && (forall i :: head <= i < c ==> V(s[i], up) <= V(s[c], up))
    && (forall i :: c < i <= tail ==> V(s[c], up) <= V(s[i], up))
  }

  /** Left of the pivot, as far as the limit, and right of it, if the limit lies there. */
  lemma PrefixJoin(s: seq<Entry>, head: nat, tail: int, c: nat, limit: int, up: bool)
    requires Pivoted(s, head, tail, c, up)
    requires PrefixSorted(s, head, c, limit, up) && PrefixSorted(s, c + 1, tail + 1, limit - 1 - (c - head), up)
    ensures PrefixSorted(s, head, tail + 1, limit, up)
  {}

  /** What is put in order on the left stays in order when the right is. */
  lemma PrefixKept(s: seq<Entry>, t: seq<Entry>, head: nat, c: nat, limit: int, up: bool)
    requires PrefixSorted(s, head, c, limit, up) && |s| == |t| && forall i :: 0 <= i < c && i < |s| ==> t[i] == s[i]
    ensures PrefixSorted(t, head, c, limit, up)
  {}

  /** A range rearranged on one side of a pivot. */
  lemma SideKept(s: seq<Entry>, t: seq<Entry>, lo: nat, hi: nat, head: nat, c: nat, tail: nat, up: bool)
    requires Pivoted(s, head, tail, c, up) && Perm(s, t, lo, hi)
        && ((lo == head && hi == c) || (lo == c + 1 && hi == tail + 1))
    ensures |t| == |s| && Perm(s, t, head, tail + 1) && Pivoted(t, head, tail, c, up)
    ensures forall i :: 0 <= i < |s| && (i < lo || hi <= i) ==> t[i] == s[i]
  {
    hide Perm;
    PermBounds(s, t, lo, hi, up, V(s[c], up));
    PermWiden(s, t, lo, hi, head, tail + 1);
  }

  /** Both sides of a pivot, the right one only if the limit lies there. */
  method SortSides(a: array<Entry>, head: nat, tail: int, c: nat, limit: int, up: bool, ghost s0: seq<Entry>)
    requires head <= c <= tail < a.Length && Perm(s0, a[..], head, tail + 1) && Pivoted(a[..], head, tail, c, up)
    modifies a
    ensures Perm(s0, a[..], head, tail + 1)
    ensures PrefixSorted(a[..], head, tail + 1, limit, up)
    decreases tail - head, 0
  {
    hide Perm, PrefixSorted, Pivoted, V;
    var rest := limit - 1 - (c - head);
    ghost var s1 := a[..];
    Sort(a, head, c - 1, limit, up);
    ghost var s2 := a[..];
    SideKept(s1, s2, head, c, head, c, tail, up);
    PermTrans(s0, s1, s2, head, tail + 1);
    if rest > 0 {
      Sort(a, c + 1, tail, rest, up);
      ghost var s3 := a[..];
      SideKept(s2, s3, c + 1, tail + 1, head, c, tail, up);
      PermTrans(s0, s2, s3, head, tail + 1);
      PrefixKept(s2, s3, head, c, limit, up);
    } else {
      NoneSorted(s2, c + 1, tail + 1, rest, up);
    }
    PrefixJoin(a[..], head, tail, c, limit, up);
  }

  lemma NoneSorted(s: seq<Entry>, lo: int, hi: int, limit: int, up: bool)
    requires limit <= 0
    ensures PrefixSorted(s, lo, hi, limit, up)
  {}

  // ---------------------------------------------------------------- from the index to an array

  /** A slot of the index of a hash set. */
  type Slot = HashSets.Slot<nat, int>

  function EntryOf(s: Slot): Entry
    requires s.Full?
  {
    Entry(s.key, s.value)
  }

  function Fulls(index: seq<Slot>): seq<Entry> {
    if |index| == 0 then []
    else (if index[0].Full? then [EntryOf(index[0])] else []) + Fulls(index[1..])
  }

  lemma NoFulls()
    ensures Fulls([]) == []
  {}

  lemma FullsCons(x: seq<Slot>)
    requires |x| > 0
    ensures Fulls(x) == (if x[0].Full? then [EntryOf(x[0])] else []) + Fulls(x[1..])
  {}

  lemma {:induction false} FullsJoin(x: seq<Slot>, y: seq<Slot>)
    ensures Fulls(x + y) == Fulls(x) + Fulls(y)
  {
    hide Fulls;
    if |x| == 0 {
      assert x + y == y;
      NoFulls();
    } else {
      FullsJoin(x[1..], y);
      FullsCons(x);
      FullsCons(x + y);
      assert (x + y)[1..] == x[1..] + y;
    }
  }

  /** The index, read from slot `s` on and around. */
  function Rotated(index: seq<Slot>, s: nat): (r: seq<Slot>)
    requires s < |index|
    ensures |r| == |index|
  {
    index[s..] + index[..s]
  }

  lemma AroundFulls(index: seq<Slot>, s: nat)
    requires s < |index|
    ensures multiset(Fulls(Rotated(index, s))) == multiset(Fulls(index))
    ensures |Fulls(Rotated(index, s))| == |Fulls(index)|
  {
    FullsJoin(index[s..], index[..s]);
    FullsJoin(index[..s], index[s..]);
    assert index[..s] + index[s..] == index;
  }

  /** (i + 1) & max_offset. */
  function NextSlot(i: nat, n: nat): nat {
    if i + 1 == n then 0 else i + 1
  }

  /** The slot `p` steps behind slot `s`. */
  function SlotAt(s: nat, p: nat, n: nat): nat
    requires s < n && p < n
  {
    if s + p < n then s + p else s + p - n
  }

  /** From slot `i0` on and around, the next one that is in use; `p` counts the steps from slot `s`. */
  method NextFull(index: seq<Slot>, ghost s: nat, i0: nat, ghost p0: nat) returns (e: Entry, i: nat, ghost p: nat)
    requires s < |index| && p0 < |index| && i0 == SlotAt(s, p0, |index|) && |Fulls(Rotated(index, s)[p0..])| > 0
    ensures p0 <= p < |index| && i == SlotAt(s, p, |index|)
    ensures Fulls(Rotated(index, s)[p0..]) == [e] + Fulls(Rotated(index, s)[p + 1..])
  {
    ghost var r := Rotated(index, s);
    i, p := i0, p0;
    while !index[i].Full?
      invariant p0 <= p < |index| && i == SlotAt(s, p, |index|)
      invariant Fulls(r[p0..]) == Fulls(r[p..])
      decreases |index| - p
    {
      assert r[p..][1..] == r[p + 1..] && r[|index|..] == [];
      i, p := NextSlot(i, |index|), p + 1;
    }
    assert r[p..][1..] == r[p + 1..];
    e := EntryOf(index[i]);
  }

  /** pack_int: all entries into an array, on the two sides of the first one found. */
  method Pack(index: seq<Slot>, n: nat, res: array<Entry>, up: bool) returns (head: nat)
    requires n == |Fulls(index)| == res.Length && n > 0
    modifies res
    ensures multiset(res[..]) == multiset(Fulls(index)) && head < n
    ensures forall i :: 0 <= i < head ==> V(res[i], up) <= V(res[head], up)
    ensures forall i :: head < i < n ==> V(res[head], up) <= V(res[i], up)
  {
    hide V, Packed, Fulls, Rotated, SlotAt;
    var s := (|index| - 1) / 2;
    NotEmpty(index);
    AroundFulls(index, s);
    ghost var r, all := Rotated(index, s), multiset(Fulls(index));
    assert r[0..] == r;
    StartSlot(s, |index|);
    var c, i;
    ghost var p;
    c, i, p := NextFull(index, s, s, 0);
    PackedStart(res[..], c, Fulls(r[p + 1..]), all, up);
    head := PackRest(index, n, res, up, s, i, c, p, all);
  }

  /** ... the other ones, and `c` between them. */
  method PackRest(index: seq<Slot>, n: nat, res: array<Entry>, up: bool, ghost s: nat, i0: nat, c: Entry, ghost p0: nat,
                  ghost all: multiset<Entry>) returns (head: nat)
    requires s < |index| && n == res.Length && n > 0 && p0 < |index| && i0 == SlotAt(s, p0, |index|)
    requires |Fulls(Rotated(index, s)[p0 + 1..])| == n - 1
    requires Packed(res[..], 0, n - 1, c, Fulls(Rotated(index, s)[p0 + 1..]), all, up)
    modifies res
    ensures multiset(res[..]) == all && head < n
    ensures forall i :: 0 <= i < head ==> V(res[i], up) <= V(res[head], up)
    ensures forall i :: head < i < n ==> V(res[head], up) <= V(res[i], up)
  {
    hide V, Packed, Fulls, Rotated, SlotAt;
    ghost var r := Rotated(index, s);
    var tail: nat, i: nat := n - 1, i0;
    ghost var p: nat := p0;
    head := 0;
    while tail > head
      invariant 0 <= head <= tail < n && p < |index| && i == SlotAt(s, p, |index|)
      invariant |Fulls(r[p + 1..])| == tail - head
      invariant Packed(res[..], head, tail, c, Fulls(r[p + 1..]), all, up)
    {
      MoreFulls(r, p + 1);
      StepSlot(s, p, |index|);
      var e;
      e, i, p := NextFull(index, s, NextSlot(i, |index|), p + 1);
      head, tail := PackOne(res, head, tail, c, e, Fulls(r[p + 1..]), all, up);
    }
    PackedDone(res[..], head, c, Fulls(r[p + 1..]), all, up);
    ghost var s2 := res[..];
    res[head] := c;
    assert res[..] == s2[head := c];
  }

  /** *head++ or *tail-- */
  method PackOne(res: array<Entry>, head: nat, tail: nat, c: Entry, e: Entry,
                 ghost rest: seq<Entry>, ghost all: multiset<Entry>, up: bool)
    returns (head2: nat, tail2: nat)
    requires head < tail < res.Length && Packed(res[..], head, tail, c, [e] + rest, all, up)
    modifies res
    ensures Packed(res[..], head2, tail2, c, rest, all, up) && tail2 - head2 == tail - head - 1 && tail2 < res.Length
  {
    hide V, Packed;
    ghost var s1 := res[..];
    head2, tail2 := head, tail;
    if V(e, up) < V(c, up) {
      PackedLow(s1, head, tail, c, e, rest, all, up);
      res[head] := e;
      assert res[..] == s1[head := e];
      head2 := head + 1;
    } else {
      PackedHigh(s1, head, tail, c, e, rest, all, up);
      res[tail] := e;
      assert res[..] == s1[tail := e];
      tail2 := tail - 1;
    }
  }

  lemma NotEmpty(index: seq<Slot>)
    ensures |Fulls(index)| > 0 ==> |index| > 0
  {}

  lemma MoreFulls(r: seq<Slot>, p: nat)
    requires p <= |r| && |Fulls(r[p..])| > 0
    ensures p < |r|
  {}

  lemma StartSlot(s: nat, n: nat)
    requires s < n
    ensures SlotAt(s, 0, n) == s
  {}

  lemma StepSlot(s: nat, p: nat, n: nat)
    requires s < n && p + 1 < n
    ensures SlotAt(s, p + 1, n) == NextSlot(SlotAt(s, p, n), n)
  {}

  lemma PackedStart(s: seq<Entry>, c: Entry, rest: seq<Entry>, all: multiset<Entry>, up: bool)
    requires |s| > 0 && multiset([c] + rest) == all
    ensures Packed(s, 0, |s| - 1, c, rest, all, up)
  {}

  /** What has been packed below `head` and above `tail`, `c`, and what is to come, are all there is. */
  ghost predicate Packed(s: seq<Entry>, head: int, tail: int, c: Entry, rest: seq<Entry>, all: multiset<Entry>,
                         up: bool) {
    && 0 <= head <= tail < |s|
    && multiset(s[..head]) + multiset(s[tail + 1..]) + multiset([c]) + multiset(rest) == all
    && (forall i :: 0 <= i < head ==> V(s[i], up) <= V(c, up))
    && (forall i :: tail < i < |s| ==> V(c, up) <= V(s[i], up))
  }

  lemma PackedLow(s: seq<Entry>, head: int, tail: int, c: Entry, e: Entry, rest: seq<Entry>, all: multiset<Entry>,
                  up: bool)
    requires Packed(s, head, tail, c, [e] + rest, all, up) && head < tail && V(e, up) < V(c, up)
    ensures Packed(s[head := e], head + 1, tail, c, rest, all, up)
  {
    hide V;
    var t := s[head := e];
    assert t[..head + 1] == s[..head] + [e];
    assert t[tail + 1..] == s[tail + 1..];
    assert multiset([e] + rest) == multiset([e]) + multiset(rest);
  }

  lemma MultiCons(e: Entry, rest: seq<Entry>)
    ensures multiset([e] + rest) == multiset([e]) + multiset(rest)
  {}

  lemma PackedHigh(s: seq<Entry>, head: int, tail: int, c: Entry, e: Entry, rest: seq<Entry>, all: multiset<Entry>,
                   up: bool)
    requires Packed(s, head, tail, c, [e] + rest, all, up) && head < tail && V(e, up) >= V(c, up)
    ensures Packed(s[tail := e], head, tail - 1, c, rest, all, up)
  {
    hide V;
    var t := s[tail := e];
    assert t[..head] == s[..head];
    assert t[tail..] == [e] + s[tail + 1..];
    MultiCons(e, rest);
    MultiCons(e, s[tail + 1..]);
  }

  lemma PackedDone(s: seq<Entry>, head: int, c: Entry, rest: seq<Entry>, all: multiset<Entry>, up: bool)
    requires Packed(s, head, head, c, rest, all, up) && rest == []
    ensures multiset(s[head := c]) == all
    ensures forall i :: 0 <= i < head ==> V(s[i], up) <= V(c, up)
    ensures forall i :: head < i < |s| ==> V(c, up) <= V(s[i], up)
  {
    var t := s[head := c];
    assert t == s[..head] + [c] + s[head + 1..];
  }

  lemma PermWhole(s: seq<Entry>, t: seq<Entry>)
    requires Perm(s, t, 0, |s|)
    ensures multiset(t) == multiset(s)
  {
    assert s[0..|s|] == s && t[0..|s|] == t;
  }

  /**
   * sort_int: the entries of the set, the first `limit` of them in order and none of the others
   * smaller.
   */
  method SortInt(index: seq<Slot>, n: nat, limit: int, up: bool) returns (res: array<Entry>)
    requires n == |Fulls(index)| && n > 0
    ensures fresh(res) && res.Length == n && multiset(res[..]) == multiset(Fulls(index))
    ensures PrefixSorted(res[..], 0, n, limit, up)
  {
    hide V, Perm;
    res := new Entry[n](i => Entry(0, 0));
    var c := Pack(index, n, res, up);
    ghost var s := res[..];
    PermRefl(s, 0, n);
    if n > 2 {
      SortSides(res, 0, n - 1, c, limit, up, s);
      PermWhole(s, res[..]);
    }
  }

  lemma {:induction false} FullsAre(index: seq<Slot>, e: Entry)
    ensures e in Fulls(index) <==>
        exists p :: 0 <= p < |index| && index[p].Full? && index[p].key == e.id && index[p].value == e.value
  {
    if |index| > 0 {
      FullsAre(index[1..], e);
      assert forall p :: 0 < p < |index| ==> index[p] == index[1..][p - 1];
    }
  }

  /** The order of a result, by the values of the entries. */
  lemma InOrder(s: seq<Entry>, limit: int, up: bool)
    requires PrefixSorted(s, 0, |s|, limit, up)
    ensures forall i, j :: 0 <= i < j < |s| && i < limit ==>
        if up then s[i].value <= s[j].value else s[i].value >= s[j].value
  {}

  /**
   * sen_set_sort: all entries of the set, of which the first ones are in order, and before all others;
   * a limit of 0, or one that is negative or too large, asks for all of them to be in order.
   */
  method SetSort(index: seq<Slot>, n: nat, limit: int, up: bool) returns (ok: bool, res: array<Entry>)
    requires n == |Fulls(index)|
    ensures ok == (n > 0)
    ensures ok ==> res.Length == n && multiset(res[..]) == multiset(Fulls(index))
    ensures ok ==> forall e :: e in res[..] <==>
        exists p :: 0 <= p < |index| && index[p].Full? && index[p].key == e.id && index[p].value == e.value
    ensures ok ==> forall i, j :: 0 <= i < j < n && (i < limit || limit <= 0 || limit > n) ==>
        if up then res[i].value <= res[j].value else res[i].value >= res[j].value
  {
    hide PrefixSorted, Fulls;
    if n == 0 {
      ok, res := false, new Entry[0];
      return;
    }
    ok := true;
    var m := if limit <= 0 || limit > n then n else limit;
    res := SortInt(index, n, m, up);
    InOrder(res[..], m, up);
    forall e
      ensures e in res[..] <==>
          exists p :: 0 <= p < |index| && index[p].Full? && index[p].key == e.id && index[p].value == e.value
    {
      FullsAre(index, e);
      assert e in multiset(res[..]) <==> e in multiset(Fulls(index));
    }
  }
}
