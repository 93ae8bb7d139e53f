/**
 * Set operations on hash sets (`lib/set.c`, sen_set_union, sen_set_subtract, sen_set_intersect,
 * sen_set_difference). All go over the slots of one set until its entries are counted down.
 */
module SetOps {
  import opened HashSets

  /** Where such a loop is: the entries left are counted in `i`. */
  lemma SlotsLeft<K, V>(t: Table<K, V>, j: nat, i: nat)
    requires j <= |t| && i == Used(t[j..])
    ensures i > 0 ==> j < |t|
    ensures j < |t| ==> i == (if t[j].Full? then 1 else 0) + Used(t[j + 1..])
  {}

  /** No entries are left: the loop has seen them all. */
  lemma {:induction false} AllSeen<K(!new), V>(t: Table<K, V>, j: nat)
    requires Distinct(t) && j <= |t| && Used(t[j..]) == 0
    ensures Upto(t, j) == ContentOf(t)
    decreases |t| - j
  {
    hide Upto, ContentOf, Distinct;
    if j < |t| {
      UsedFrom(t, j);
      UptoNext(t, j);
      AllSeen(t, j + 1);
    } else {
      UptoAll(t);
    }
  }

  lemma Start<K(!new), V>(t: Table<K, V>)
    requires Distinct(t)
    ensures t[0..] == t && Upto(t, 0) == map[]
  {}

  /** One more entry, unless there is one for its key. */
  method AddOne<K(==,!new), V>(a: HashSet<K, V>, k: K, v: V)
    requires a.Valid() && a.nEntries + a.nGarbages + 1 < MAX_INDEX
    modifies a, a.index
    ensures a.Valid() && (a.index == old(a.index) || fresh(a.index))
    ensures a.Content() == if k in old(a.Content()) then old(a.Content()) else old(a.Content())[k := v]
    ensures a.nEntries + a.nGarbages <= old(a.nEntries + a.nGarbages) + 1
  {
    hide TableOk, ContentOf, Used, Dead;
    var found, _ := a.At(k);
    if !found {
      var p := a.Get(k);
      a.Put(p, v);
    }
  }

  /** A map `u` in front of `m`, with one more key. */
  lemma UnionStep<K, V>(u: map<K, V>, m: map<K, V>, k: K, v: V)
    requires k !in u
    ensures u[k := v] + m == if k in u + m then u + m else (u + m)[k := v]
  {}

  /** sen_set_union: the entries of `b` are added to `a`, whose own values are kept. */
  method Union<K(==,!new), V>(a: HashSet<K, V>, b: HashSet<K, V>)
    requires a.Valid() && b.Valid() && a != b && a.index != b.index && a.nEntries + a.nGarbages + b.nEntries < MAX_INDEX
    modifies a, a.index
    ensures a.Valid() && a.Content() == old(b.Content() + a.Content())
  {
    hide TableOk, ContentOf, Used, Dead, Upto, Reach;
    ghost var t, m := b.index[..], a.Content();
    Tabled(t, b.hash);
    Start(t);
    var i, j := b.nEntries, 0;
    while i > 0
      invariant a.Valid() && b.Valid() && (a.index == old(a.index) || fresh(a.index)) && b.index[..] == t
      invariant j <= |t| && i == Used(t[j..]) && a.nEntries + a.nGarbages + i < MAX_INDEX
      invariant a.Content() == Upto(t, j) + m
      decreases i, |t| - j
    {
      hide Distinct;
      SlotsLeft(t, j, i);
      UptoNext(t, j);
      if b.index[j].Full? {
        var k, v := b.index[j].key, b.index[j].value;
        UnionStep(Upto(t, j), m, k, v);
        AddOne(a, k, v);
        i := i - 1;
      }
      j := j + 1;
    }
    AllSeen(t, j);
  }

  lemma Tabled<K, V>(t: Table<K, V>, hash: K -> ByteCodec.u32)
    requires TableOk(t, hash)
    ensures Distinct(t)
  {}

  /** sen_set_subtract. */
  method Subtract<K(==,!new), V, W>(a: HashSet<K, V>, b: HashSet<K, W>)
    requires a.Valid() && b.Valid() && a as object != b && a.index as object != b.index
    modifies a, a.index
    ensures a.Valid() && a.Content() == old(a.Content() - b.Content().Keys)
  {
    hide TableOk, ContentOf, Used, Dead, Upto, Reach;
    ghost var t, m := b.index[..], a.Content();
    Tabled(t, b.hash);
    Start(t);
    var i, j := b.nEntries, 0;
    while i > 0
      invariant a.Valid() && b.Valid() && a.index == old(a.index) && b.index[..] == t
      invariant j <= |t| && i == Used(t[j..])
      invariant a.Content() == m - Upto(t, j).Keys
      decreases i, |t| - j
    {
      hide Distinct;
      SlotsLeft(t, j, i);
      UptoNext(t, j);
      if b.index[j].Full? {
        var found, dp := a.At(b.index[j].key);
        if found {
          a.Del(dp);
        }
        i := i - 1;
      }
      j := j + 1;
    }
    AllSeen(t, j);
  }

  /** sen_set_intersect. */
  method Intersect<K(==,!new), V, W>(a: HashSet<K, V>, b: HashSet<K, W>)
    requires a.Valid() && b.Valid() && a as object != b && a.index as object != b.index
    modifies a, a.index
    ensures a.Valid() && a.Content() == old(map k | k in a.Content() && k in b.Content() :: a.Content()[k])
  {
    hide TableOk, ContentOf, Used, Dead, Upto, Reach;
    ghost var t, m, keys := a.index[..], a.Content(), b.Content().Keys;
    Tabled(t, a.hash);
    Start(t);
    var i, j := a.nEntries, 0;
    while i > 0
      invariant a.Valid() && b.Valid() && a.index == old(a.index) && b.Content().Keys == keys
      invariant j <= |t| == a.index.Length && i == Used(t[j..]) && forall q :: j <= q < |t| ==> a.index[q] == t[q]
      invariant a.Content() == m - (Upto(t, j).Keys - keys)
      decreases i, |t| - j
    {
      hide Distinct;
      SlotsLeft(t, j, i);
      UptoNext(t, j);
      if a.index[j].Full? {
        var found, _ := b.At(a.index[j].key);
        if !found {
          a.Del(j);
        }
        i := i - 1;
      }
      j := j + 1;
    }
    AllSeen(t, j);
  }

  /** The keys seen that the other map has, too. */
  function Both<K(==), W>(seen: set<K>, m2: map<K, W>): set<K> {
    seen * m2.Keys
  }

  lemma BothNext<K, W>(seen: set<K>, m2: map<K, W>, k: K)
    requires k !in seen
    ensures k !in Both(seen, m2) && Both(seen + {k}, m2) == if k in m2 then Both(seen, m2) + {k} else Both(seen, m2)
  {}

  /** The two maps without what they have in common among the keys seen, and the number of these. */
  ghost predicate Apart<K, V, W>(x: map<K, V>, y: map<K, W>, count: nat, m: map<K, V>, m2: map<K, W>, seen: set<K>) {
    x == m - Both(seen, m2) && y == m2 - seen && count == |Both(seen, m2)|
  }

  lemma ApartHit<K, V, W>(x: map<K, V>, y: map<K, W>, count: nat, m: map<K, V>, m2: map<K, W>, seen: set<K>, k: K)
    requires Apart(x, y, count, m, m2, seen) && k !in seen && k in y
    ensures Apart(x - {k}, y - {k}, count + 1, m, m2, seen + {k})
  {
    hide Both;
    BothNext(seen, m2, k);
    MinusMore(m2, seen, k);
    MinusMore(m, Both(seen, m2), k);
  }

  lemma ApartMiss<K, V, W>(x: map<K, V>, y: map<K, W>, count: nat, m: map<K, V>, m2: map<K, W>, seen: set<K>, k: K)
    requires Apart(x, y, count, m, m2, seen) && k !in seen && k !in y
    ensures Apart(x, y, count, m, m2, seen + {k})
  {
    hide Both;
    BothNext(seen, m2, k);
    MinusMore(m2, seen, k);
  }

  lemma MinusMore<K, V>(m: map<K, V>, s: set<K>, k: K)
    ensures m - (s + {k}) == m - s - {k}
    ensures k !in m ==> m - (s + {k}) == m - s
  {}

  lemma ApartNone<K, V, W>(m: map<K, V>, m2: map<K, W>, none: map<K, V>)
    requires none == map[]
    ensures Apart(m, m2, 0, m, m2, none.Keys)
  {}

  lemma ApartAll<K, V, W>(x: map<K, V>, y: map<K, W>, count: nat, m: map<K, V>, m2: map<K, W>)
    requires Apart(x, y, count, m, m2, m.Keys)
    ensures x == m - m2.Keys && y == m2 - m.Keys && count == |m.Keys * m2.Keys|
  {}

  lemma KeysNext<K(!new), V>(t: Table<K, V>, j: nat)
    requires Distinct(t) && j < |t|
    ensures if t[j].Full? then t[j].key !in Upto(t, j).Keys && Upto(t, j + 1).Keys == Upto(t, j).Keys + {t[j].key}
            else Upto(t, j + 1) == Upto(t, j)
  {}

  /** sen_set_difference: what is in both is taken out of both, and counted. */
  method Difference<K(==,!new), V, W>(a: HashSet<K, V>, b: HashSet<K, W>) returns (count: nat)
    requires a.Valid() && b.Valid() && a as object != b && a.index as object != b.index
    modifies a, a.index, b, b.index
    ensures a.Valid() && a.Content() == old(a.Content() - b.Content().Keys)
    ensures b.Valid() && b.Content() == old(b.Content() - a.Content().Keys)
    ensures count == old(|a.Content().Keys * b.Content().Keys|)
  {
    hide TableOk, ContentOf, Used, Dead, Upto, Reach, Apart;
    ghost var t, m, m2 := a.index[..], a.Content(), b.Content();
    Tabled(t, a.hash);
    Start(t);
    ApartNone(m, m2, Upto(t, 0));
    count := 0;
    var i, j := a.nEntries, 0;
    while i > 0
      invariant a.Valid() && b.Valid() && a.index == old(a.index) && b.index == old(b.index)
      invariant j <= |t| == a.index.Length && i == Used(t[j..]) && forall q :: j <= q < |t| ==> a.index[q] == t[q]
      invariant Apart(a.Content(), b.Content(), count, m, m2, Upto(t, j).Keys)
      decreases i, |t| - j
    {
      hide Distinct;
      SlotsLeft(t, j, i);
      KeysNext(t, j);
      if a.index[j].Full? {
        ghost var x, y, seen := a.Content(), b.Content(), Upto(t, j).Keys;
        var k := a.index[j].key;
        var found, dp := b.At(k);
        if found {
          ApartHit(x, y, count, m, m2, seen, k);
          b.Del(dp);
          a.Del(j);
          count := count + 1;
        } else {
          ApartMiss(x, y, count, m, m2, seen, k);
        }
        i := i - 1;
      }
      j := j + 1;
    }
    AllSeen(t, j);
    ApartAll(a.Content(), b.Content(), count, m, m2);
  }
}
