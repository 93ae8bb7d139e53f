/**
 * Hash sets with open addressing (`lib/set.c`): an index of slots, tombstones for deleted entries,
 * and a fresh index when more than half of it is in use.
 */
module HashSets {
  import opened ByteCodec
  import opened Probing

  datatype Slot<K, V> = Empty | Garbage | Full(key: K, value: V)

  type Table<K, V> = seq<Slot<K, V>>

  const INITIAL_INDEX_SIZE: nat := 256
  const INT_MAX: nat := 0x7fff_ffff
  const MAX_INDEX: nat := 0x8000_0000

  // ---------------------------------------------------------------- tables

  /** Slot `p` is probed after `d` steps, and no slot before it is empty. */
  ghost predicate ReachBy<K, V>(t: Table<K, V>, h: u32, p: nat, d: nat) {
    && |t| > 0 && Probe(h, d, |t|) == p
    && forall e :: 0 <= e < d ==> !t[Probe(h, e, |t|)].Empty?
  }

  ghost predicate Reach<K, V>(t: Table<K, V>, hash: K -> u32) {
    forall p :: 0 <= p < |t| && t[p].Full? ==> exists d: nat :: ReachBy(t, hash(t[p].key), p, d)
  }

  ghost predicate Distinct<K, V>(t: Table<K, V>) {
    forall p, q :: 0 <= p < |t| && 0 <= q < |t| && t[p].Full? && t[q].Full? && t[p].key == t[q].key ==> p == q
  }

  ghost predicate TableOk<K, V>(t: Table<K, V>, hash: K -> u32) {
    Pow2(|t|) && |t| <= TWO32 && Reach(t, hash) && Distinct(t)
  }

  /** The map a table stands for. */
  ghost function ContentOf<K, V>(t: Table<K, V>): map<K, V>
    requires Distinct(t)
  {
    map p | 0 <= p < |t| && t[p].Full? :: t[p].key := t[p].value
  }

  lemma InContent<K, V>(t: Table<K, V>, k: K)
    requires Distinct(t)
    ensures k in ContentOf(t) <==> exists p :: 0 <= p < |t| && t[p].Full? && t[p].key == k
    ensures forall p :: 0 <= p < |t| && t[p].Full? && t[p].key == k ==> ContentOf(t)[k] == t[p].value
  {}

  function Used<K, V>(t: Table<K, V>): nat {
    if |t| == 0 then 0 else (if t[0].Full? then 1 else 0) + Used(t[1..])
  }

  function Dead<K, V>(t: Table<K, V>): nat {
    if |t| == 0 then 0 else (if t[0].Garbage? then 1 else 0) + Dead(t[1..])
  }

  lemma {:induction false} CountsUpdate<K, V>(t: Table<K, V>, p: nat, s: Slot<K, V>)
    requires p < |t|
    ensures Used(t[p := s]) == Used(t) - (if t[p].Full? then 1 else 0) + (if s.Full? then 1 else 0)
    ensures Dead(t[p := s]) == Dead(t) - (if t[p].Garbage? then 1 else 0) + (if s.Garbage? then 1 else 0)
  {
    if p > 0 {
      CountsUpdate(t[1..], p - 1, s);
      assert t[p := s][1..] == t[1..][p - 1 := s];
    } else {
      assert t[0 := s][1..] == t[1..];
    }
  }

  /** When not all slots are counted, one is empty. */
  lemma {:induction false} SomeEmpty<K, V>(t: Table<K, V>) returns (p: nat)
    requires Used(t) + Dead(t) < |t|
    ensures p < |t| && t[p].Empty?
  {
    if t[0].Empty? {
      p := 0;
    } else {
      var q := SomeEmpty(t[1..]);
      p := q + 1;
    }
  }

  /** Slot `p` is taken by a new key. */
  lemma Taken<K, V>(t: Table<K, V>, hash: K -> u32, p: nat, d: nat, k: K, v: V)
    requires TableOk(t, hash) && p < |t| && !t[p].Full? && ReachBy(t, hash(k), p, d) && k !in ContentOf(t)
    ensures TableOk(t[p := Full(k, v)], hash) && ContentOf(t[p := Full(k, v)]) == ContentOf(t)[k := v]
  {
    var t2 := t[p := Full(k, v)];
    forall q | 0 <= q < |t2| && t2[q].Full? ensures exists e: nat :: ReachBy(t2, hash(t2[q].key), q, e) {
      if q == p {
        assert ReachBy(t2, hash(k), p, d);
      } else {
        var e: nat :| ReachBy(t, hash(t[q].key), q, e);
        assert ReachBy(t2, hash(t2[q].key), q, e);
      }
    }
    InContent(t, k);
    assert Distinct(t2);
    TakenContent(t, p, k, v);
  }

  lemma TakenContent<K, V>(t: Table<K, V>, p: nat, k: K, v: V)
    requires Distinct(t) && p < |t| && !t[p].Full? && Distinct(t[p := Full(k, v)])
    ensures ContentOf(t[p := Full(k, v)]) == ContentOf(t)[k := v]
  {
    var t2 := t[p := Full(k, v)];
    forall x ensures x in ContentOf(t2) <==> x in ContentOf(t) || x == k {
      InContent(t, x);
      InContent(t2, x);
      if x in ContentOf(t) {
        var q :| 0 <= q < |t| && t[q].Full? && t[q].key == x;
        assert t2[q].Full? && t2[q].key == x;
      }
      if x == k { assert t2[p].Full? && t2[p].key == k; }
    }
    forall x | x in ContentOf(t2) ensures ContentOf(t2)[x] == ContentOf(t)[k := v][x] {
      InContent(t, x);
      InContent(t2, x);
      var q :| 0 <= q < |t2| && t2[q].Full? && t2[q].key == x;
    }
  }

  /** A slot is given up. */
  lemma Freed<K, V>(t: Table<K, V>, hash: K -> u32, p: nat)
    requires TableOk(t, hash) && p < |t| && t[p].Full?
    ensures TableOk(t[p := Garbage], hash) && ContentOf(t[p := Garbage]) == ContentOf(t) - {t[p].key}
  {
    var t2 := t[p := Garbage];
    forall q | 0 <= q < |t2| && t2[q].Full? ensures exists e: nat :: ReachBy(t2, hash(t2[q].key), q, e) {
      var e: nat :| ReachBy(t, hash(t[q].key), q, e);
      assert ReachBy(t2, hash(t2[q].key), q, e);
    }
    hide Reach;
    FreedContent(t, p);
  }

  lemma FreedContent<K, V>(t: Table<K, V>, p: nat)
    requires Distinct(t) && p < |t| && t[p].Full? && Distinct(t[p := Garbage])
    ensures ContentOf(t[p := Garbage]) == ContentOf(t) - {t[p].key}
  {
    var t2 := t[p := Garbage];
    forall x ensures x in ContentOf(t2) <==> x in ContentOf(t) && x != t[p].key {
      InContent(t, x);
      InContent(t2, x);
      if x in ContentOf(t) && x != t[p].key {
        var q :| 0 <= q < |t| && t[q].Full? && t[q].key == x;
        assert t2[q].Full? && t2[q].key == x;
      }
    }
    forall x | x in ContentOf(t2) ensures ContentOf(t2)[x] == ContentOf(t)[x] {
      InContent(t, x);
      InContent(t2, x);
      var q :| 0 <= q < |t2| && t2[q].Full? && t2[q].key == x;
    }
  }

  /** A value is written. */
  lemma Written<K, V>(t: Table<K, V>, hash: K -> u32, p: nat, v: V)
    requires TableOk(t, hash) && p < |t| && t[p].Full?
    ensures TableOk(t[p := Full(t[p].key, v)], hash)
    ensures ContentOf(t[p := Full(t[p].key, v)]) == ContentOf(t)[t[p].key := v]
  {
    var t2 := t[p := Full(t[p].key, v)];
    forall q | 0 <= q < |t2| && t2[q].Full? ensures exists e: nat :: ReachBy(t2, hash(t2[q].key), q, e) {
      var e: nat :| ReachBy(t, hash(t[q].key), q, e);
      assert ReachBy(t2, hash(t2[q].key), q, e);
    }
    hide Reach;
    assert Distinct(t2);
    WrittenContent(t, p, v);
  }

  lemma WrittenContent<K, V>(t: Table<K, V>, p: nat, v: V)
    requires Distinct(t) && p < |t| && t[p].Full? && Distinct(t[p := Full(t[p].key, v)])
    ensures ContentOf(t[p := Full(t[p].key, v)]) == ContentOf(t)[t[p].key := v]
  {
    var t2 := t[p := Full(t[p].key, v)];
    forall x ensures x in ContentOf(t2) <==> x in ContentOf(t) || x == t[p].key {
      InContent(t, x);
      InContent(t2, x);
      if x in ContentOf(t) {
        var q :| 0 <= q < |t| && t[q].Full? && t[q].key == x;
        assert t2[q].Full? && t2[q].key == x;
      }
      if x == t[p].key { assert t2[p].Full? && t2[p].key == x; }
    }
    forall x | x in ContentOf(t2) ensures ContentOf(t2)[x] == ContentOf(t)[t[p].key := v][x] {
      InContent(t, x);
      InContent(t2, x);
      var q :| 0 <= q < |t2| && t2[q].Full? && t2[q].key == x;
    }
  }

  // ---------------------------------------------------------------- probing

  /** The 32-bit counter of a probing loop after `d` steps. */
  ghost predicate Counts(h: u32, d: nat, i: u32) {
    i == (h + d * Stride(h)) % TWO32
  }

  lemma CountsFrom(h: u32)
    ensures Counts(h, 0, h)
  {}

  lemma ProbeStep(h: u32, d: nat, n: nat, i: u32)
    requires Pow2(n) && n <= TWO32 && Counts(h, d, i)
    ensures n > 0 && i % n == Probe(h, d, n)
    ensures Counts(h, d + 1, (i + Stride(h)) % TWO32)
  {
    hide Stride, Pow2;
    NextMultiple(d, Stride(h));
    WrapBoth(h + d * Stride(h), Stride(h), n, i);
  }

  lemma WrapBoth(x: nat, s: nat, n: nat, i: u32)
    requires Pow2(n) && n <= TWO32 && i == x % TWO32
    ensures n > 0 && i % n == x % n && (i + s) % TWO32 == (x + s) % TWO32
  {
    Wraps(x, n);
    AddWrap(x, s);
  }

  lemma NextMultiple(d: nat, s: nat)
    ensures (d + 1) * s == d * s + s
  {}

  lemma AddWrap(x: nat, s: nat)
    ensures (x % TWO32 + s) % TWO32 == (x + s) % TWO32
  {}

  /** The first `d` slots that are probed for a key are not empty, and do not hold it. */
  ghost predicate Passed<K, V>(t: Table<K, V>, hash: K -> u32, k: K, d: nat) {
    |t| > 0 && forall e :: 0 <= e < d ==> var x := t[Probe(hash(k), e, |t|)]; !x.Empty? && !(x.Full? && x.key == k)
  }

  lemma PassNext<K, V>(t: Table<K, V>, hash: K -> u32, k: K, d: nat)
    requires Passed(t, hash, k, d)
    requires var x := t[Probe(hash(k), d, |t|)]; !x.Empty? && !(x.Full? && x.key == k)
    ensures Passed(t, hash, k, d + 1)
  {}

  lemma PassReach<K, V>(t: Table<K, V>, hash: K -> u32, k: K, d: nat, p: nat, e: nat)
    requires Passed(t, hash, k, e) && d <= e && p == Probe(hash(k), d, |t|)
    ensures ReachBy(t, hash(k), p, d)
  {}

  /** An empty slot ends the way of a key. */
  lemma PassEmpty<K, V>(t: Table<K, V>, hash: K -> u32, k: K, d: nat, d0: nat, q: nat)
    requires Passed(t, hash, k, d) && q < |t| && t[q].Empty? && Probe(hash(k), d0, |t|) == q
    ensures d <= d0
  {}

  lemma PassMiss<K, V>(t: Table<K, V>, hash: K -> u32, k: K, d: nat)
    requires TableOk(t, hash) && Passed(t, hash, k, d) && t[Probe(hash(k), d, |t|)].Empty?
    ensures k !in ContentOf(t)
  {}

  lemma PassNone<K, V>(t: Table<K, V>, hash: K -> u32, k: K)
    requires TableOk(t, hash)
    ensures |t| > 0 && |t| <= TWO32 && Pow2(|t|) && Passed(t, hash, k, 0)
  {}

  /** The value at the slot of a key. */
  lemma Found<K, V>(t: Table<K, V>, hash: K -> u32, k: K, p: nat)
    requires TableOk(t, hash) && p < |t| && t[p].Full? && t[p].key == k
    ensures k in ContentOf(t) && ContentOf(t)[k] == t[p].value
  {}

  /** sen_set_at: the slot of a key. */
  method Find<K(==), V>(index: array<Slot<K, V>>, hash: K -> u32, k: K) returns (found: bool, p: nat)
    requires TableOk(index[..], hash) && Used(index[..]) + Dead(index[..]) < index.Length
    ensures found == (k in ContentOf(index[..]))
    ensures found ==>
        p < index.Length && index[p].Full? && index[p].key == k && ContentOf(index[..])[k] == index[p].value
  {
    hide Stride, Counts, TableOk, Probe, Passed, ContentOf, Distinct, Used, Dead, Pow2;
    ghost var t := index[..];
    var h, n := hash(k), index.Length;
    PassNone(t, hash, k);
    CountsFrom(h);
    var s := Stride(h);
    var i: u32 := h;
    ghost var q := SomeEmpty(t);
    ghost var dq := AllProbed(h, n, q);
    ghost var d: nat := 0;
    while true
      invariant d <= dq && Counts(h, d, i) && Passed(t, hash, k, d)
      decreases dq - d
    {
      ProbeStep(h, d, n, i);
      p := i % n;
      var x := index[p];
      assert x == t[Probe(h, d, n)];
      if x.Empty? {
        PassMiss(t, hash, k, d);
        return false, 0;
      }
      if x.Full? && x.key == k {
        Found(t, hash, k, p);
        return true, p;
      }
      PassNext(t, hash, k, d);
      PassEmpty(t, hash, k, d + 1, dq, q);
      i := (i + s) % TWO32;
      d := d + 1;
    }
  }

  /** The probing of sen_set_get: the slot of a key, or the one where it belongs (the first that was given up). */
  method Place<K(==), V>(index: array<Slot<K, V>>, hash: K -> u32, k: K) returns (found: bool, p: nat, ghost dp: nat)
    requires TableOk(index[..], hash) && Used(index[..]) + Dead(index[..]) < index.Length
    ensures p < index.Length && found == (k in ContentOf(index[..]))
    ensures found ==> index[p].Full? && index[p].key == k
    ensures !found ==> !index[p].Full? && ReachBy(index[..], hash(k), p, dp)
  {
    hide Stride, Counts, TableOk, Probe, Passed, ContentOf, Distinct, Used, Dead, Pow2, ReachBy;
    ghost var t := index[..];
    var h, n := hash(k), index.Length;
    PassNone(t, hash, k);
    CountsFrom(h);
    var s := Stride(h);
    var i: u32, np: nat := h, n;
    ghost var q := SomeEmpty(t);
    ghost var dq := AllProbed(h, n, q);
    ghost var d: nat := 0;
    dp := 0;
    while true
      invariant d <= dq && Counts(h, d, i) && Passed(t, hash, k, d)
      invariant np <= n && (np < n ==> t[np].Garbage? && dp <= d && np == Probe(h, dp, n))
      decreases dq - d
    {
      ProbeStep(h, d, n, i);
      p := i % n;
      var x := index[p];
      assert x == t[Probe(h, d, n)];
      if x.Empty? {
        PassMiss(t, hash, k, d);
        found := false;
        if np < n {
          p := np;
        } else {
          dp := d;
        }
        PassReach(t, hash, k, dp, p, d);
        return;
      }
      if x.Full? && x.key == k {
        Found(t, hash, k, p);
        found := true;
        return;
      }
      if x.Garbage? && np == n {
        np, dp := p, d;
      }
      PassNext(t, hash, k, d);
      PassEmpty(t, hash, k, d + 1, dq, q);
      i := (i + s) % TWO32;
      d := d + 1;
    }
  }

  /** The probing of sen_set_reset: the first empty slot on the way of a key that is not there. */
  method FirstEmpty<K(==), V>(index: array<Slot<K, V>>, hash: K -> u32, k: K) returns (p: nat, ghost dp: nat)
    requires TableOk(index[..], hash) && Used(index[..]) + Dead(index[..]) < index.Length && k !in ContentOf(index[..])
    ensures p < index.Length && index[p].Empty? && ReachBy(index[..], hash(k), p, dp)
  {
    hide Stride, Counts, TableOk, Probe, Passed, ContentOf, Distinct, Used, Dead, Pow2, ReachBy;
    ghost var t := index[..];
    var h, n := hash(k), index.Length;
    PassNone(t, hash, k);
    CountsFrom(h);
    var s := Stride(h);
    var i: u32 := h;
    ghost var q := SomeEmpty(t);
    ghost var dq := AllProbed(h, n, q);
    dp := 0;
    while true
      invariant dp <= dq && Counts(h, dp, i) && Passed(t, hash, k, dp)
      decreases dq - dp
    {
      ProbeStep(h, dp, n, i);
      p := i % n;
      var x := index[p];
      assert x == t[Probe(h, dp, n)];
      if x.Empty? {
        PassReach(t, hash, k, dp, p, dp);
        return;
      }
      if x.Full? && x.key == k {
        Found(t, hash, k, p);
      }
      PassNext(t, hash, k, dp);
      PassEmpty(t, hash, k, dp + 1, dq, q);
      i := (i + s) % TWO32;
      dp := dp + 1;
    }
  }

  lemma {:induction false} AllEmpty<K, V>(t: Table<K, V>)
    requires forall p :: 0 <= p < |t| ==> t[p].Empty?
    ensures Used(t) == 0 && Dead(t) == 0 && Distinct(t) && ContentOf(t) == map[]
  {
    if |t| > 0 {
      AllEmpty(t[1..]);
    }
  }

  /** The entries in the first `j` slots. */
  ghost function Upto<K, V>(t: Table<K, V>, j: nat): map<K, V>
    requires Distinct(t) && j <= |t|
  {
    map p | 0 <= p < j && t[p].Full? :: t[p].key := t[p].value
  }

  lemma UptoNextAt<K, V>(t: Table<K, V>, j: nat, x: K)
    requires Distinct(t) && j < |t|
    ensures
      var m, m2 := Upto(t, j), Upto(t, j + 1);
      if t[j].Full? && x == t[j].key then x in m2 && m2[x] == t[j].value && x !in m
      else (x in m2 <==> x in m) && (x in m ==> m2[x] == m[x])
  {}

  lemma UptoNext<K(!new), V>(t: Table<K, V>, j: nat)
    requires Distinct(t) && j < |t|
    ensures if t[j].Full? then t[j].key !in Upto(t, j) && Upto(t, j + 1) == Upto(t, j)[t[j].key := t[j].value]
            else Upto(t, j + 1) == Upto(t, j)
  {
    hide Upto, Distinct;
    var m, m2 := Upto(t, j), Upto(t, j + 1);
    var m3 := if t[j].Full? then m[t[j].key := t[j].value] else m;
    forall x: K ensures SameAt(m2, m3, x) {
      UptoNextAt(t, j, x);
    }
    SameMap(m2, m3);
    if t[j].Full? { UptoNextAt(t, j, t[j].key); }
  }

  ghost predicate SameAt<K, V>(a: map<K, V>, b: map<K, V>, x: K) {
    (x in a <==> x in b) && (x in a && x in b ==> a[x] == b[x])
  }

  lemma SameMap<K(!new), V>(a: map<K, V>, b: map<K, V>)
    requires forall x: K :: SameAt(a, b, x)
    ensures a == b
  {
    forall x: K ensures x in a <==> x in b { assert SameAt(a, b, x); }
    forall x | x in a ensures a[x] == b[x] { assert SameAt(a, b, x); }
  }

  lemma UptoAll<K, V>(t: Table<K, V>)
    requires Distinct(t)
    ensures Upto(t, 0) == map[] && Upto(t, |t|) == ContentOf(t)
  {}

  lemma UsedFrom<K, V>(t: Table<K, V>, j: nat)
    requires j < |t|
    ensures Used(t[j..]) == (if t[j].Full? then 1 else 0) + Used(t[j + 1..])
  {}

  class HashSet<K(==,!new), V> {
    const hash: K -> u32
    const zero: V
    var index: array<Slot<K, V>>
    var nEntries: nat
    var nGarbages: nat

    /** Some slot is empty, so that probing ends. */
    ghost predicate Valid()
      reads this, index
    {
      && TableOk(index[..], hash) && index.Length >= INITIAL_INDEX_SIZE
      && nEntries == Used(index[..]) && nGarbages == Dead(index[..])
      && nEntries + nGarbages < index.Length <= MAX_INDEX
    }

    ghost function Content(): map<K, V>
      requires Valid()
      reads this, index
    {
      ContentOf(index[..])
    }

    constructor (hash: K -> u32, zero: V)
      ensures Valid() && Content() == map[] && this.hash == hash && this.zero == zero && fresh(index)
    {
      this.hash, this.zero := hash, zero;
      index := new Slot<K, V>[INITIAL_INDEX_SIZE](i => Empty);
      nEntries, nGarbages := 0, 0;
      new;
      AllEmpty(index[..]);
      EmptyOk(index[..], hash);
    }

    /** The size of a new index for `ne` entries. */
    method SizeFor(ne: nat) returns (n: nat)
      requires ne <= INT_MAX
      ensures Pow2(n) && ne < n <= MAX_INDEX && n >= INITIAL_INDEX_SIZE
    {
      hide Pow2;
      Pow2One();
      n := INITIAL_INDEX_SIZE;
      while n <= ne
        invariant Pow2(n) && n <= MAX_INDEX && n >= INITIAL_INDEX_SIZE
        decreases ne + 1 - n
      {
        Twice(n);
        HalfIndex(n);
        n := n * 2;
      }
    }

    /** sen_set_reset: the entries in a new index, without what was given up; it fails for 2^30 entries and more. */
    method Reset() returns (ok: bool)
      requires Valid()
      modifies this
      ensures Valid() && Content() == old(Content()) && nEntries == old(nEntries) && ok == (2 * nEntries <= INT_MAX)
      ensures ok ==> fresh(index) && nGarbages == 0 && 2 * nEntries < index.Length
      ensures !ok ==> index == old(index) && nGarbages == old(nGarbages)
    {
      hide Pow2, Reach, Distinct, Used, Dead, ContentOf, Upto;
      var ne := nEntries * 2 % TWO32;
      if ne > INT_MAX {
        return false;
      }
      var n := SizeFor(ne);
      var fresh_ := Rehash(index, hash, n);
      index, nGarbages, ok := fresh_, 0, true;
    }

    /** With 2^30 entries the index has its largest size. */
    lemma Largest()
      requires Valid() && 2 * nEntries > INT_MAX
      ensures index.Length == MAX_INDEX
    {
      hide Pow2, Reach, Distinct, Used, Dead;
      if index.Length < MAX_INDEX {
        HalfIndex(index.Length);
      }
    }

    lemma Missing(k: K)
      requires Valid() && k !in Content()
      ensures forall q :: 0 <= q < index.Length && index[q].Full? ==> index[q].key != k
    {
      InContent(index[..], k);
    }

    /** sen_set_at. */
    method At(k: K) returns (found: bool, p: nat)
      requires Valid()
      ensures found == (k in Content())
      ensures found ==> p < index.Length && index[p].Full? && index[p].key == k && index[p].value == Content()[k]
      ensures !found ==> forall q :: 0 <= q < index.Length && index[q].Full? ==> index[q].key != k
    {
      hide TableOk, ContentOf, Distinct, Used, Dead;
      found, p := Find(index, hash, k);
      if !found {
        Missing(k);
      }
    }

    /**
     * sen_set_get: the slot of a key, which is added when it is not there. The largest index there
     * can be must not become full: with no slot empty, probing would not end.
     */
    method Get(k: K) returns (p: nat)
      requires Valid() && nEntries + nGarbages + 1 < MAX_INDEX
      modifies this, index
      ensures Valid() && (index == old(index) || fresh(index))
      ensures Content() == if k in old(Content()) then old(Content()) else old(Content())[k := zero]
      ensures p < index.Length && index[p].Full? && index[p].key == k && index[p].value == Content()[k]
      ensures nEntries == old(nEntries) + if k in old(Content()) then 0 else 1
      ensures nEntries + nGarbages <= old(nEntries + nGarbages) + 1
    {
      hide TableOk, ContentOf, Distinct, Used, Dead, ReachBy;
      if (nEntries + nGarbages) * 2 > index.Length - 1 {
        var ok := Reset();
        if !ok {
          Largest();
        }
      }
      var found;
      ghost var dp;
      found, p, dp := Place(index, hash, k);
      if !found {
        CountsUpdate(index[..], p, Empty);
        if index[p].Garbage? {
          nGarbages := nGarbages - 1;
        }
        InsertAt(index, hash, p, dp, k, zero);
        nEntries := nEntries + 1;
      }
      Found(index[..], hash, k, p);
    }

    /** The caller of sen_set_get writes the value. */
    method Put(p: nat, v: V)
      requires Valid() && p < index.Length && index[p].Full?
      modifies index
      ensures Valid() && Content() == old(Content())[old(index[p].key) := v] && nEntries == old(nEntries)
    {
      hide TableOk, ContentOf, Distinct, Used, Dead;
      ghost var t := index[..];
      var x := Full(index[p].key, v);
      Written(t, hash, p, v);
      CountsUpdate(t, p, x);
      index[p] := x;
      assert index[..] == t[p := x];
    }

    /** sen_set_del: a tombstone is left. */
    method Del(p: nat)
      requires Valid() && p < index.Length && index[p].Full?
      modifies this`nEntries, this`nGarbages, index
      ensures Valid() && Content() == old(Content()) - {old(index[p].key)}
      ensures forall q :: 0 <= q < index.Length && q != p ==> index[q] == old(index[q])
      ensures !index[p].Full?
    {
      hide TableOk, ContentOf, Distinct, Used, Dead;
      ghost var t := index[..];
      Freed(t, hash, p);
      CountsUpdate(t, p, Garbage);
      index[p] := Garbage;
      nEntries, nGarbages := nEntries - 1, nGarbages + 1;
      assert index[..] == t[p := Garbage];
    }
  }

  lemma EmptyOk<K, V>(t: Table<K, V>, hash: K -> u32)
    requires Pow2(|t|) && |t| <= TWO32 && forall p :: 0 <= p < |t| ==> t[p].Empty?
    ensures TableOk(t, hash)
  {}

  /** A power of two below the largest size is at most half of it. */
  lemma HalfIndex(n: nat)
    requires Pow2(n) && n < MAX_INDEX
    ensures 2 * n <= MAX_INDEX
  {
    Pow2One();
    Doubles(n, MAX_INDEX);
  }

  lemma UsedNone<K, V>(t: Table<K, V>)
    ensures Used(t[|t|..]) == 0 && t[0..] == t
  {}

  /** A table taking one more entry. */
  method InsertAt<K(==), V>(index: array<Slot<K, V>>, hash: K -> u32, p: nat, ghost dp: nat, k: K, v: V)
    requires TableOk(index[..], hash) && p < index.Length && !index[p].Full? && ReachBy(index[..], hash(k), p, dp)
    requires k !in ContentOf(index[..])
    modifies index
    ensures TableOk(index[..], hash) && ContentOf(index[..]) == old(ContentOf(index[..]))[k := v]
    ensures index[p] == Full(k, v) && Used(index[..]) == old(Used(index[..])) + 1
    ensures Dead(index[..]) == old(Dead(index[..])) - if old(index[p]).Garbage? then 1 else 0
  {
    hide TableOk, ContentOf, Distinct, Used, Dead, ReachBy;
    ghost var t := index[..];
    Taken(t, hash, p, dp, k, v);
    CountsUpdate(t, p, Full(k, v));
    index[p] := Full(k, v);
    assert index[..] == t[p := Full(k, v)];
  }

  /** All entries of an index, put into a new one. */
  method Rehash<K(==,!new), V>(index: array<Slot<K, V>>, hash: K -> u32, n: nat) returns (index2: array<Slot<K, V>>)
    requires TableOk(index[..], hash) && Pow2(n) && n <= TWO32 && Used(index[..]) < n
    ensures fresh(index2) && index2.Length == n && TableOk(index2[..], hash)
    ensures ContentOf(index2[..]) == ContentOf(index[..]) && Used(index2[..]) == Used(index[..])
        && Dead(index2[..]) == 0
  {
    hide Pow2, Reach, Used, Dead, ContentOf, Upto;
    ghost var t := index[..];
    index2 := new Slot<K, V>[n](i => Empty);
    AllEmpty(index2[..]);
    EmptyOk(index2[..], hash);
    UptoAll(t);
    UsedNone(t);
    var j := 0;
    while j < index.Length
      invariant j <= index.Length && index[..] == t
      invariant TableOk(index2[..], hash) && ContentOf(index2[..]) == Upto(t, j)
      invariant Used(index2[..]) + Used(t[j..]) == Used(t) && Dead(index2[..]) == 0
    {
      hide TableOk, Distinct;
      UptoNext(t, j);
      UsedFrom(t, j);
      if index[j].Full? {
        var k, v := index[j].key, index[j].value;
        var p;
        ghost var dp;
        p, dp := FirstEmpty(index2, hash, k);
        InsertAt(index2, hash, p, dp, k, v);
      }
      j := j + 1;
    }
  }
}
