/**
 * The tokens of a search (`lib/index.c`, token_info_skip and token_info_skip_pos): each is a
 * stream of hits in increasing order, that can be moved on to a section, or to a position.
 */
module Tokens {
  import opened PostingCodec
  import opened CursorHeap

  // ---------------------------------------------------------------- how much is left

  function Positions(ps: seq<Post>): nat {
    if |ps| == 0 then 0 else |ps[0].positions| + Positions(ps[1..])
  }

  function Size(c: Cur): nat {
    |c.positions| + Positions(c.more)
  }

  function Total(b: seq<Cur>): nat {
    if |b| == 0 then 0 else Size(b[0]) + Total(b[1..])
  }

  lemma {:induction false} TotalJoin(a: seq<Cur>, b: seq<Cur>)
    ensures Total(a + b) == Total(a) + Total(b)
  {
    if |a| == 0 {
      assert a + b == b;
    } else {
      TotalJoin(a[1..], b);
      assert (a + b)[1..] == a[1..] + b;
    }
  }

  lemma Without(b: seq<Cur>, j: nat)
    requires j < |b|
    ensures multiset(b[..j] + b[j + 1..]) == multiset(b) - multiset{b[j]}
    ensures Total(b) == Size(b[j]) + Total(b[..j] + b[j + 1..])
  {
    hide Size, Total;
    assert b == b[..j] + ([b[j]] + b[j + 1..]);
    TotalOne(b[j]);
    WithoutOne(b, j);
    TotalJoin(b[..j], b[j + 1..]);
    TotalJoin(b[..j], [b[j]] + b[j + 1..]);
    TotalJoin([b[j]], b[j + 1..]);
  }

  lemma TotalOne(c: Cur)
    ensures Total([c]) == Size(c)
  {}

  lemma WithoutOne(b: seq<Cur>, j: nat)
    requires j < |b|
    ensures multiset(b[..j] + b[j + 1..]) == multiset(b) - multiset{b[j]}
  {
    assert b == b[..j] + [b[j]] + b[j + 1..];
  }

  lemma {:induction false} TotalSame(a: seq<Cur>, b: seq<Cur>)
    requires multiset(a) == multiset(b)
    ensures Total(a) == Total(b)
  {
    hide Size, Total;
    assert |multiset(a)| == |a| && |multiset(b)| == |b|;
    if |a| == 0 {
      assert a == b;
    } else {
      assert a[0] in multiset(b);
      var j :| 0 <= j < |b| && b[j] == a[0];
      Without(a, 0);
      Without(b, j);
      TotalSame(a[..0] + a[0 + 1..], b[..j] + b[j + 1..]);
    }
  }

  /** How many of the cursors have still to list a hit. */
  ghost function Listings(b: seq<Cur>, h: Hit): nat {
    if |b| == 0 then 0 else Listings(b[1..], h) + if Has(b[0], h) then 1 else 0
  }

  lemma {:induction false} ListingsJoin(a: seq<Cur>, b: seq<Cur>, h: Hit)
    ensures Listings(a + b, h) == Listings(a, h) + Listings(b, h)
  {
    hide Has;
    if |a| == 0 {
      assert a + b == b;
    } else {
      ListingsJoin(a[1..], b, h);
      assert (a + b)[1..] == a[1..] + b;
    }
  }

  lemma ListingsWithout(b: seq<Cur>, j: nat, h: Hit)
    requires j < |b|
    ensures Listings(b, h) == Listings(b[..j] + b[j + 1..], h) + if Has(b[j], h) then 1 else 0
  {
    hide Has;
    assert b == b[..j] + b[j..] && b[j..][1..] == b[j + 1..];
    ListingsJoin(b[..j], b[j..], h);
    ListingsJoin(b[..j], b[j + 1..], h);
  }

  lemma {:induction false} ListingsSame(a: seq<Cur>, b: seq<Cur>, h: Hit)
    requires multiset(a) == multiset(b)
    ensures Listings(a, h) == Listings(b, h)
  {
    hide Has, Listings, Total, Size;
    assert |multiset(a)| == |a| && |multiset(b)| == |b|;
    if |a| == 0 {
      assert a == b;
    } else {
      assert a[0] in multiset(b);
      var j :| 0 <= j < |b| && b[j] == a[0];
      Without(a, 0);
      Without(b, j);
      ListingsWithout(a, 0, h);
      ListingsWithout(b, j, h);
      ListingsSame(a[..0] + a[0 + 1..], b[..j] + b[j + 1..], h);
    }
  }

  /** What is left to be listed, when the first cursor becomes `c`, or goes. */
  lemma ListingsAfter(b: seq<Cur>, b2: seq<Cur>, ok: bool, c: Cur, h: Hit)
    requires |b| > 0 && multiset(b2) == multiset(if ok then b[0 := c] else b[1..])
    ensures Listings(b2, h) + (if Has(b[0], h) then 1 else 0) == Listings(b, h) + if ok && Has(c, h) then 1 else 0
  {
    hide Has;
    ListingsSame(b2, if ok then b[0 := c] else b[1..], h);
    assert b[0 := c][1..] == b[1..];
  }

  // ---------------------------------------------------------------- changing the root

  /** The root is moved on, and finds its place. */
  method Reroot(b: seq<Cur>, c: Cur) returns (b2: seq<Cur>)
    requires HeapOk(b) && |b| > 0 && CurOk(c)
    ensures HeapOk(b2) && multiset(b2) == multiset(b[0 := c])
  {
    hide CurOk;
    b2 := b[0 := c];
    if |b2| > 1 {
      b2 := SiftDown(b2);
    }
  }

  /** The root is done; the last cursor takes its place. */
  method Unroot(b: seq<Cur>) returns (b2: seq<Cur>)
    requires HeapOk(b) && |b| > 0
    ensures HeapOk(b2) && multiset(b2) == multiset(b[1..])
  {
    hide CurOk;
    var k := |b| - 1;
    DropRoot(b);
    b2 := b[0 := b[k]][..k];
    if |b2| > 1 {
      b2 := SiftDown(b2);
    }
  }

  lemma DropRoot(b: seq<Cur>)
    requires |b| > 0
    ensures var k := |b| - 1; multiset(b[0 := b[k]][..k]) == multiset(b[1..])
  {
    var k := |b| - 1;
    if k > 0 {
      assert b[0 := b[k]][..k] == [b[k]] + b[1..k];
      assert b[1..] == b[1..k] + [b[k]];
    }
  }

  lemma RestLists(b: seq<Cur>, c: Cur, h: Hit)
    requires |b| > 0
    ensures Lists(b, h) <==> Has(b[0], h) || Lists(b[1..], h)
    ensures Lists(b[0 := c], h) <==> Has(c, h) || Lists(b[1..], h)
    ensures Total(b) == Size(b[0]) + Total(b[1..]) && Total(b[0 := c]) == Size(c) + Total(b[1..])
  {
    var b1 := b[0 := c];
    assert b1[1..] == b[1..];
    if Lists(b[1..], h) {
      var i :| 0 <= i < |b| - 1 && Has(b[1..][i], h);
      assert Has(b[i + 1], h) && Has(b1[i + 1], h);
    }
    if Lists(b, h) {
      var i :| 0 <= i < |b| && Has(b[i], h);
      if i > 0 { assert Has(b[1..][i - 1], h); }
    }
    if Lists(b1, h) {
      var i :| 0 <= i < |b| && Has(b1[i], h);
      if i > 0 { assert Has(b[1..][i - 1], h); }
    }
    if Has(b[0], h) { assert Lists(b, h); }
    if Has(c, h) { assert Has(b1[0], h); }
  }

  /** cursor_heap_pop: the first cursor goes on to its next section. */
  method PopDoc(b: seq<Cur>) returns (b2: seq<Cur>)
    requires HeapOk(b) && |b| > 0
    ensures HeapOk(b2) && Total(b2) < Total(b)
    ensures forall h :: Lists(b2, h) ==> Lists(b, h)
    ensures forall h :: Lists(b, h) && h.id != b[0].id ==> Lists(b2, h)
    ensures forall h :: Listings(b2, h) == Listings(b, h) - if h.id == b[0].id && Has(b[0], h) then 1 else 0
  {
    hide CurOk, Lists, Has, Total, Listings;
    NextSmallerAt(b);
    var (ok, c) := NextDoc(b[0]);
    if ok {
      RootNext(b);
      b2 := Reroot(b, c);
      TotalSame(b2, b[0 := c]);
    } else {
      b2 := Unroot(b);
      TotalSame(b2, b[1..]);
    }
    forall h
      ensures Lists(b2, h) ==> Lists(b, h)
      ensures Lists(b, h) && h.id != b[0].id ==> Lists(b2, h)
      ensures Listings(b2, h) == Listings(b, h) - if h.id == b[0].id && Has(b[0], h) then 1 else 0
    {
      ListingsAfter(b, b2, ok, c, h);
      ListsSame(b2, if ok then b[0 := c] else b[1..], h);
      RestLists(b, c, h);
      RootNextLists(b, h);
    }
    RestLists(b, c, Top(c));
  }

  /** cursor_heap_pop_pos: the first cursor goes on to its next position, or section. */
  method PopPos(b: seq<Cur>) returns (b2: seq<Cur>)
    requires HeapOk(b) && |b| > 0
    ensures HeapOk(b2) && Total(b2) < Total(b)
    ensures forall h :: Lists(b2, h) ==> Lists(b, h)
    ensures forall h :: Lists(b, h) && h != Top(b[0]) ==> Lists(b2, h)
    ensures forall h :: Listings(b2, h) == Listings(b, h) - if h == Top(b[0]) then 1 else 0
  {
    hide CurOk, Lists, Has, Total, Listings;
    NextSmallerAt(b);
    RootNext(b);
    var (ok, c) := NextPos(b[0]);
    if !ok {
      var (ok2, c2) := NextDoc(b[0]);
      ok, c := ok2, c2;
    }
    if ok {
      b2 := Reroot(b, c);
      TotalSame(b2, b[0 := c]);
    } else {
      b2 := Unroot(b);
      TotalSame(b2, b[1..]);
    }
    forall h
      ensures Lists(b2, h) ==> Lists(b, h)
      ensures Lists(b, h) && h != Top(b[0]) ==> Lists(b2, h)
      ensures Listings(b2, h) == Listings(b, h) - if h == Top(b[0]) then 1 else 0
    {
      ListingsAfter(b, b2, ok, c, h);
      RootHas(b, h);
      ListsSame(b2, if ok then b[0 := c] else b[1..], h);
      RestLists(b, c, h);
      RootNextLists(b, h);
    }
    RestLists(b, c, Top(c));
  }

  lemma NextSmallerAt(b: seq<Cur>)
    requires HeapOk(b) && |b| > 0
    ensures NextDoc(b[0]).0 ==> Size(NextDoc(b[0]).1) < Size(b[0])
    ensures NextPos(b[0]).0 ==> Size(NextPos(b[0]).1) < Size(b[0])
    ensures Size(b[0]) > 0
  {}

  lemma RootNext(b: seq<Cur>)
    requires HeapOk(b) && |b| > 0
    ensures NextDoc(b[0]).0 ==> CurOk(NextDoc(b[0]).1)
    ensures NextPos(b[0]).0 ==> CurOk(NextPos(b[0]).1)
  {}

  /** The first cursor has its own first hit, and no other one in front of the next section. */
  lemma RootHas(b: seq<Cur>, h: Hit)
    requires HeapOk(b) && |b| > 0
    ensures Has(b[0], Top(b[0]))
    ensures !NextPos(b[0]).0 && Has(b[0], h) && h.id == b[0].id ==> h == Top(b[0])
  {}

  lemma RootNextLists(b: seq<Cur>, h: Hit)
    requires HeapOk(b) && |b| > 0
    ensures
      var (ok, d) := NextDoc(b[0]);
      if ok then Has(d, h) <==> Has(b[0], h) && h.id != b[0].id else Has(b[0], h) ==> h.id == b[0].id
    ensures
      var (ok, d) := NextPos(b[0]);
      if ok then Has(d, h) <==> Has(b[0], h) && h != Top(b[0]) else Has(b[0], h) && h.id == b[0].id ==> h == Top(b[0])
  {}

  // ---------------------------------------------------------------- tokens

  class TokenInfo {
    const offset: nat      // of the token in the phrase
    var bins: seq<Cur>
    var pos: int           // where the phrase would start
    var p: DocId           // the section of the first hit

    ghost predicate Valid()
      reads this
    {
      HeapOk(bins)
    }

    /** Is `h` still to come? */
    ghost predicate Left(h: Hit)
      reads this
    {
      Lists(bins, h)
    }

    /** `pos` and `p` are those of the first hit to come. */
    ghost predicate AtFirst()
      reads this
    {
      && |bins| > 0 && p == bins[0].id && pos + offset == Top(bins[0]).pos
      && Left(Hit(p, pos + offset)) && forall h :: Left(h) ==> AtMost(Hit(p, pos + offset), h)
    }

    constructor (offset: nat)
      ensures Valid() && this.offset == offset && bins == []
    {
      this.offset := offset;
      bins, pos, p := [], 0, NONE;
    }

    /** cursor_heap_push, for an open cursor with a first position. */
    method Push(c: Cur)
      requires Valid() && CurOk(c)
      modifies this
      ensures Valid() && forall h :: Left(h) <==> old(Left(h)) || Has(c, h)
      ensures |bins| == old(|bins|) + 1
    {
      hide CurOk;
      ghost var b := bins;
      bins := SiftUp(bins + [c], |bins|, c);
      forall h ensures Left(h) <==> Lists(b, h) || Has(c, h) {
        assert (b + [c])[|b| := c] == b + [c];
        ListsSame(bins, b + [c], h);
        ListsSnoc(b, c, h);
      }
    }

    /** token_info_skip: on to the first hit in section `id` or behind. */
    method Skip(id: DocId) returns (ok: bool)
      requires Valid()
      modifies this`bins, this`pos, this`p
      ensures Valid() && (forall h :: Left(h) ==> old(Left(h)))
      ensures forall h :: old(Left(h)) && !Lt(h.id, id) ==> Left(h)
      ensures ok ==> AtFirst() && !Lt(p, id)
      ensures !ok ==> bins == [] && forall h :: !Left(h)
    {
      hide HeapOk, Lists;
      ghost var b := bins;
      while true
        invariant Valid() && (forall h :: Left(h) ==> Lists(b, h))
        invariant forall h :: Lists(b, h) && !Lt(h.id, id) ==> Left(h)
        decreases Total(bins)
      {
        if |bins| == 0 {
          NothingListed(bins);
          return false;
        }
        if !Lt(bins[0].id, id) {
          break;
        }
        bins := PopDoc(bins);
      }
      SetFirst();
      ok := true;
    }

    /** token_info_skip_pos: within section `id`, on to the first hit that starts the phrase at `from` or behind. */
    method SkipPos(id: DocId, from: nat) returns (ok: bool)
      requires Valid()
      modifies this`bins, this`pos, this`p
      ensures Valid() && (forall h :: Left(h) ==> old(Left(h)))
      ensures forall h :: old(Left(h)) && !(h.id == id && h.pos < from + offset) ==> Left(h)
      ensures ok ==> AtFirst() && (p != id || pos >= from)
      ensures !ok ==> bins == [] && forall h :: !Left(h)
    {
      hide HeapOk, Lists;
      ghost var b := bins;
      while true
        invariant Valid() && (forall h :: Left(h) ==> Lists(b, h))
        invariant forall h :: Lists(b, h) && !(h.id == id && h.pos < from + offset) ==> Left(h)
        decreases Total(bins)
      {
        if |bins| == 0 {
          NothingListed(bins);
          return false;
        }
        if bins[0].id != id || Top(bins[0]).pos >= from + offset {
          break;
        }
        bins := PopPos(bins);
      }
      SetFirst();
      ok := true;
    }

    method SetFirst()
      requires Valid() && |bins| > 0
      modifies this`pos, this`p
      ensures AtFirst()
    {
      hide HeapOk, Lists;
      var top := Top(bins[0]);
      pos, p := top.pos - offset, top.id;
      assert top == Hit(p, pos + offset);
      ghost var c := bins[0];
      FirstListed(bins);
    }
  }

  /** token_info_open: a token with the cursors of all its terms, at their first hit. */
  method OpenToken(curs: seq<Cur>, offset: nat) returns (ok: bool, t: TokenInfo)
    requires CursOk(curs)
    ensures fresh(t) && t.Valid() && t.offset == offset && ok == (curs != [])
    ensures ok ==> t.AtFirst()
    ensures forall h :: t.Left(h) <==> Lists(curs, h)
  {
    hide HeapOk, Lists, CurOk;
    t := new TokenInfo(offset);
    var i := 0;
    NothingListed(t.bins);
    NothingListed(curs[..0]);
    while i < |curs|
      invariant i <= |curs| && t.Valid() && t.offset == offset
      invariant forall h :: t.Left(h) <==> Lists(curs[..i], h)
      invariant (i > 0) == (|t.bins| > 0)
    {
      ghost var done := curs[..i];
      t.Push(curs[i]);
      assert curs[..i + 1] == done + [curs[i]];
      forall h ensures t.Left(h) <==> Lists(curs[..i + 1], h) {
        ListsSnoc(done, curs[i], h);
      }
      i := i + 1;
    }
    assert curs[..i] == curs;
    ok := |t.bins| > 0;
    if ok {
      t.SetFirst();
    }
  }

  lemma NothingListed(b: seq<Cur>)
    requires b == []
    ensures forall h :: !Lists(b, h)
  {}

  lemma FirstListed(b: seq<Cur>)
    requires HeapOk(b) && |b| > 0
    ensures Lists(b, Top(b[0])) && forall h :: Lists(b, h) ==> AtMost(Top(b[0]), h)
  {
    assert Has(b[0], Top(b[0]));
    forall h | Lists(b, h) ensures AtMost(Top(b[0]), h) {
      RootFirst(b, h);
    }
  }

  lemma ListsSnoc(b: seq<Cur>, c: Cur, h: Hit)
    ensures Lists(b + [c], h) <==> Lists(b, h) || Has(c, h)
  {
    if Lists(b, h) {
      var i :| 0 <= i < |b| && Has(b[i], h);
      assert Has((b + [c])[i], h);
    }
    if Has(c, h) { assert Has((b + [c])[|b|], h); }
  }
}
