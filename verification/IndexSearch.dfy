/**
 * Searching an index (`lib/index.c`, cursor_heap_push, cursor_heap_pop and cursor_heap_pop_pos, on
 * the cursors of `lib/inv.c`): the heap's streams are the postings that the index stands for.
 */
module IndexSearch {
  import opened ByteCodec
  import opened PostingCodec
  import opened Records
  import opened Merging
  import opened Cursors
  import opened InvertedIndex
  import Heap = CursorHeap
  import Phrase = PhraseSearch

  function Positions(p: Posting): (r: seq<nat>)
    ensures |r| == |p.gaps|
  {
    PositionsOf(0, p.gaps)
  }

  function PostsOf(ps: seq<Posting>): (r: seq<Heap.Post>)
    ensures |r| == |ps| && forall i :: 0 <= i < |ps| ==> r[i] == Heap.Post(ps[i].id, Positions(ps[i]))
  {
    seq(|ps|, i requires 0 <= i < |ps| => Heap.Post(ps[i].id, Positions(ps[i])))
  }

  /** What is to be listed of `ps`, when `k` positions of the first posting have been passed. */
  function CurOf(ps: seq<Posting>, k: nat): Heap.Cur
    requires |ps| > 0 && k < |ps[0].gaps|
  {
    Heap.Cur(ps[0].id, Positions(ps[0])[k..], PostsOf(ps[1..]))
  }

  ghost predicate AllStored(ps: seq<Posting>) {
    forall i :: 0 <= i < |ps| ==> |ps[i].gaps| > 0
  }

  /** The tokenizer gives increasing positions. */
  ghost predicate Spread(ps: seq<Posting>) {
    forall i :: 0 <= i < |ps| ==> Heap.Rising(Positions(ps[i]))
  }

  lemma CurIsOk(prev: DocId, ps: seq<Posting>, k: nat)
    requires Sorted(prev, ps) && Spread(ps) && |ps| > 0 && k < |ps[0].gaps|
    ensures Heap.CurOk(CurOf(ps, k))
  {
    hide PositionsOf;
    var c := CurOf(ps, k);
    assert Heap.Rising(c.positions) by {
      assert Heap.Rising(Positions(ps[0]));
    }
    forall i | 0 <= i < |c.more|
      ensures |c.more[i].positions| > 0 && Heap.Rising(c.more[i].positions) && Lt(c.id, c.more[i].id)
    {
      assert c.more[i] == Heap.Post(ps[i + 1].id, Positions(ps[i + 1]));
      assert Heap.Rising(Positions(ps[i + 1]));
    }
  }

  /** Does a map have a hit? */
  predicate InMap(m: Postings, h: Heap.Hit) {
    h.id in m && exists i :: 0 <= i < |m[h.id].positions| && m[h.id].positions[i] == h.pos
  }

  /** The hits of a new stream are those of the map. */
  lemma HitsOfMap(ps: seq<Posting>, h: Heap.Hit)
    requires Sorted(NONE, ps) && |ps| > 0
    ensures |ps[0].gaps| > 0 && (Heap.Has(CurOf(ps, 0), h) <==> InMap(ToMap(ps), h))
  {
    hide Positions, ToMap, InMap, Sorted;
    FirstGaps(ps);
    assert Positions(ps[0])[0..] == Positions(ps[0]);
    if Heap.Has(CurOf(ps, 0), h) {
      var i: nat :| i < |ps| && ps[i].id == h.id && h.pos in Positions(ps[i]);
      HitOf(ps, i, h);
    }
    if InMap(ToMap(ps), h) {
      var i := HitIn(ps, h);
      if i > 0 {
        assert CurOf(ps, 0).more[i - 1] == Heap.Post(ps[i].id, Positions(ps[i]));
      }
    }
  }

  lemma FirstGaps(ps: seq<Posting>)
    requires Sorted(NONE, ps)
    ensures AllStored(ps)
  {}

  lemma HitOf(ps: seq<Posting>, i: nat, h: Heap.Hit)
    requires Sorted(NONE, ps) && i < |ps| && ps[i].id == h.id && h.pos in Positions(ps[i])
    ensures InMap(ToMap(ps), h)
  {
    hide PositionsOf;
    InToMap(ps, ps[i]);
  }

  lemma HitIn(ps: seq<Posting>, h: Heap.Hit) returns (i: nat)
    requires Sorted(NONE, ps) && InMap(ToMap(ps), h)
    ensures i < |ps| && ps[i].id == h.id && h.pos in Positions(ps[i])
  {
    hide PositionsOf;
    var p :| p in ps && p.id == h.id;
    InToMap(ps, p);
    i :| i < |ps| && ps[i] == p;
  }

  // ---------------------------------------------------------------- cursors as streams

  /** The cursor stands at position `k` of the first of the postings `ps`, with the others to come. */
  ghost predicate Stands(c: Cursor, ps: seq<Posting>, k: nat)
    reads c
  {
    && c.Valid() && c.withPos && c.post != Nothing && 0 < c.out <= |c.plan| && ps == c.plan[c.out - 1..]
    && k < |ps[0].gaps| && c.Taken() == k + 1
    && Heap.Top(CurOf(ps, k)) == Heap.Hit(c.Here().id, c.Here().pos)
  }

  lemma NextDocOf(ps: seq<Posting>, k: nat)
    requires |ps| > 0 && k < |ps[0].gaps| && AllStored(ps)
    ensures Heap.NextDoc(CurOf(ps, k)) == if |ps| == 1 then (false, CurOf(ps, k)) else (true, CurOf(ps[1..], 0))
  {
    if |ps| > 1 {
      assert PostsOf(ps[1..])[1..] == PostsOf(ps[1..][1..]);
      assert Positions(ps[1])[0..] == Positions(ps[1]);
    }
  }

  lemma NextPosOf(ps: seq<Posting>, k: nat)
    requires |ps| > 0 && k < |ps[0].gaps|
    ensures Heap.NextPos(CurOf(ps, k)) ==
        if k + 1 == |ps[0].gaps| then (false, CurOf(ps, k)) else (true, CurOf(ps, k + 1))
  {
    assert Positions(ps[0])[k..][1..] == Positions(ps[0])[k + 1..];
  }

  lemma InPlan(c: Cursor)
    requires c.Valid()
    ensures c.out <= |c.plan|
  {}

  /** cursor_heap_push, up to the place in the heap: a new cursor is moved to its first position. */
  method Start(c: Cursor, ghost ps: seq<Posting>) returns (ok: bool)
    requires c.Opened(ps) && c.withPos && AllStored(ps)
    modifies c
    ensures ok == (ps != []) && (ok ==> Stands(c, ps, 0))
  {
    hide PositionsOf, Cursor.Valid;
    InPlan(c);
    ok := c.Next();
    if ok {
      ok := c.NextPos();
    }
  }

  /** cursor_heap_pop, on the cursor. */
  method PopDoc(c: Cursor, ghost ps: seq<Posting>, ghost k: nat) returns (ok: bool)
    requires Stands(c, ps, k) && AllStored(ps)
    modifies c
    ensures ok == Heap.NextDoc(CurOf(ps, k)).0
    ensures ok ==> Stands(c, ps[1..], 0) && CurOf(ps[1..], 0) == Heap.NextDoc(CurOf(ps, k)).1
  {
    hide PositionsOf, Cursor.Valid;
    NextDocOf(ps, k);
    assert c.Remaining() == ps[1..];
    ok := c.Next();
    if ok {
      ok := c.NextPos();
    }
  }

  /** cursor_heap_pop_pos, on the cursor. */
  method PopPos(c: Cursor, ghost ps: seq<Posting>, ghost k: nat) returns (ok: bool)
    requires Stands(c, ps, k)
    modifies c
    ensures ok == Heap.NextPos(CurOf(ps, k)).0
    ensures !ok ==> Stands(c, ps, k)
    ensures ok ==> Stands(c, ps, k + 1) && CurOf(ps, k + 1) == Heap.NextPos(CurOf(ps, k)).1
  {
    hide PositionsOf, Cursor.Valid;
    NextPosOf(ps, k);
    assert ps[0] == c.plan[c.out - 1];
    ok := c.NextPos();
  }

  /** cursor_heap_push for a term of the index: a stream of the hits that the index stands for, if there are any. */
  method OpenTerm(inv: Inv, t: nat) returns (c: Cursor?)
    requires inv.Valid()
    ensures c == null <==> old(inv.ListOf(t)) == []
    ensures c != null ==> fresh(c) && Stands(c, old(inv.ListOf(t)), 0)
    ensures c != null && Spread(old(inv.ListOf(t))) ==> Heap.CurOk(CurOf(old(inv.ListOf(t)), 0))
    ensures c != null ==> forall h :: Heap.Has(CurOf(old(inv.ListOf(t)), 0), h) <==> InMap(old(inv.View(t)), h)
  {
    hide IndexOk, ListIn, Sorted, Spread, InMap, CurOf, Cursor.Valid, Cursor.Opened;
    ghost var ps := inv.ListOf(t);
    FirstGaps(ps);
    c := inv.OpenCursor(t, true);
    if c != null {
      var ok := Start(c, ps);
      if ok {
        NewStream(ps);
      } else {
        c := null;
      }
    }
  }

  lemma NewStream(ps: seq<Posting>)
    requires Sorted(NONE, ps) && |ps| > 0
    ensures |ps[0].gaps| > 0 && (Spread(ps) ==> Heap.CurOk(CurOf(ps, 0)))
    ensures forall h :: Heap.Has(CurOf(ps, 0), h) <==> InMap(ToMap(ps), h)
  {
    hide Sorted, Spread, InMap, CurOf, ToMap;
    FirstGaps(ps);
    if Spread(ps) {
      CurIsOk(NONE, ps, 0);
    }
    forall h ensures Heap.Has(CurOf(ps, 0), h) <==> InMap(ToMap(ps), h) {
      HitsOfMap(ps, h);
    }
  }

  // ---------------------------------------------------------------- phrases in an index

  ghost predicate AllListed(lists: seq<seq<Posting>>) {
    forall i :: 0 <= i < |lists| ==> Sorted(NONE, lists[i]) && |lists[i]| > 0
  }

  /** The streams of the terms of a token. */
  ghost function Streams(lists: seq<seq<Posting>>): (r: seq<Heap.Cur>)
    requires AllListed(lists)
    ensures |r| == |lists|
  {
    seq(|lists|, i requires 0 <= i < |lists| => CurOf(lists[i], 0))
  }

  ghost predicate SomeHas(lists: seq<seq<Posting>>, h: Heap.Hit)
    requires AllListed(lists)
  {
    exists i :: 0 <= i < |lists| && InMap(ToMap(lists[i]), h)
  }

  lemma StreamsHave(lists: seq<seq<Posting>>, h: Heap.Hit)
    requires AllListed(lists)
    ensures Heap.Lists(Streams(lists), h) <==> SomeHas(lists, h)
  {
    hide InMap, ToMap, Sorted, CurOf, Heap.Has;
    forall i | 0 <= i < |lists| ensures Heap.Has(Streams(lists)[i], h) <==> InMap(ToMap(lists[i]), h) {
      HitsOfMap(lists[i], h);
    }
  }

  /** A phrase starts where each of its tokens has a term that the index has at its place. */
  lemma StartsInIndex(lists: seq<seq<seq<Posting>>>, q: Phrase.Query, id: DocId, s: nat)
    requires |lists| == |q.bins| == |q.offsets|
    requires forall k :: 0 <= k < |lists| ==> AllListed(lists[k]) && q.bins[k] == Streams(lists[k])
    ensures
      Phrase.Starts(q, id, s) <==>
        forall k :: 0 <= k < |lists| ==> SomeHas(lists[k], Heap.Hit(id, s + q.offsets[k]))
  {
    hide Heap.Lists, SomeHas, AllListed, Streams;
    forall k | 0 <= k < |lists|
      ensures Heap.Lists(q.bins[k], Heap.Hit(id, s + q.offsets[k])) <==>
          SomeHas(lists[k], Heap.Hit(id, s + q.offsets[k]))
    {
      StreamsHave(lists[k], Heap.Hit(id, s + q.offsets[k]));
    }
  }

  // ---------------------------------------------------------------- a phrase, from the index to the rows

  /** The map of every term. */
  type Views = imap<nat, Postings>

  ghost function ViewsOf(inv: Inv): (r: Views)
    requires inv.Valid()
    reads inv, Objects(inv.segs), inv.space, inv.space.marks
    ensures forall t: nat :: t in r && r[t] == inv.View(t)
  {
    imap t: nat | true :: inv.View(t)
  }

  /** Positions increase in every section, and no section has the last number of all. */
  ghost predicate Searchable(m: Postings) {
    forall id :: id in m ==> Heap.Rising(m[id].positions) && id.sid + 1 < TWO32
  }

  /** Some term of the token has a hit. */
  ghost predicate TokenAt(v: Views, ts: seq<nat>, h: Heap.Hit) {
    exists i :: 0 <= i < |ts| && ts[i] in v && InMap(v[ts[i]], h)
  }

  /** The phrase of these tokens, at their offsets, starts at position `s` of section `id`. */
  ghost predicate PhraseAt(v: Views, tokens: seq<seq<nat>>, offsets: seq<nat>, id: DocId, s: nat)
    requires |tokens| == |offsets|
  {
    forall k :: 0 <= k < |tokens| ==> TokenAt(v, tokens[k], Heap.Hit(id, s + offsets[k]))
  }

  /** There are just so many places where the phrase starts in section `id`. */
  ghost predicate Occurs(v: Views, tokens: seq<seq<nat>>, offsets: seq<nat>, id: DocId, count: nat)
    requires |tokens| == |offsets|
  {
    exists ss: set<nat> :: |ss| == count && forall s: nat :: s in ss <==> PhraseAt(v, tokens, offsets, id, s)
  }

  /** Exactly the sections in which the phrase starts somewhere, in order, with the number of times. */
  ghost predicate RowsOf(v: Views, tokens: seq<seq<nat>>, offsets: seq<nat>, rows: seq<Phrase.Row>)
    requires |tokens| == |offsets|
  {
    && (forall i :: 0 <= i < |rows| ==> rows[i].count > 0 && Occurs(v, tokens, offsets, rows[i].id, rows[i].count))
    && (forall i, j :: 0 <= i < j < |rows| ==> Lt(rows[i].id, rows[j].id))
    && (forall id, s :: PhraseAt(v, tokens, offsets, id, s) ==> Phrase.HasRow(rows, id))
  }

  lemma SpreadOf(ps: seq<Posting>)
    requires Sorted(NONE, ps) && Searchable(ToMap(ps))
    ensures Spread(ps)
  {
    hide Sorted, ToMap, PositionsOf;
    forall i | 0 <= i < |ps| ensures Heap.Rising(Positions(ps[i])) {
      InToMap(ps, ps[i]);
    }
  }

  /** The positions of a section are listed one by one. */
  method ReadSection(c: Cursor, ghost ps: seq<Posting>) returns (positions: seq<nat>)
    requires Stands(c, ps, 0)
    modifies c
    ensures |ps| > 0 && positions == Positions(ps[0]) && |positions| > 0
    ensures Stands(c, ps, |positions| - 1)
  {
    hide PositionsOf, Cursor.Valid;
    positions := [c.Here().pos];
    ghost var k := 0;
    var more := true;
    while more
      invariant k < |ps[0].gaps| && Stands(c, ps, k) && positions == Positions(ps[0])[..k + 1]
      invariant !more ==> k + 1 == |ps[0].gaps|
      decreases |ps[0].gaps| - k, more
    {
      NextPosOf(ps, k);
      more := PopPos(c, ps, k);
      if more {
        k := k + 1;
        positions := positions + [c.Here().pos];
      }
    }
  }

  lemma PostsSnoc(ps: seq<Posting>, n: nat)
    requires n < |ps|
    ensures PostsOf(ps[..n + 1]) == PostsOf(ps[..n]) + [Heap.Post(ps[n].id, Positions(ps[n]))]
  {
    assert ps[..n + 1] == ps[..n] + [ps[n]];
  }

  /** A cursor at its first hit, read to its end. (The search moves cursors on one hit at a time.) */
  method ReadOut(c: Cursor, ghost ps: seq<Posting>) returns (cur: Heap.Cur)
    requires Stands(c, ps, 0) && AllStored(ps)
    modifies c
    ensures |ps| > 0 && |ps[0].gaps| > 0 && cur == CurOf(ps, 0)
  {
    hide Positions, PostsOf, CurOf, Stands, Heap.NextDoc, Cursor.Valid;
    StandsAt(c, ps, 0);
    var id := c.Here().id;
    var positions := ReadSection(c, ps);
    PostsSnoc(ps, 0);
    NoPosts(ps);
    var posts: seq<Heap.Post> := [Heap.Post(id, positions)];
    ghost var n := 1;
    assert ps[0..] == ps && ps[..1] == [ps[0]];
    var more := true;
    while more
      invariant 1 <= n <= |ps| && posts == PostsOf(ps[..n])
      invariant more ==> Stands(c, ps[n - 1..], |ps[n - 1].gaps| - 1)
      invariant !more ==> n == |ps|
      decreases |ps| - n, more
    {
      ghost var k := |ps[n - 1].gaps| - 1;
      NextDocOf(ps[n - 1..], k);
      more := PopDoc(c, ps[n - 1..], k);
      if more {
        assert ps[n - 1..][1..] == ps[n..];
        StandsAt(c, ps[n..], 0);
        id := c.Here().id;
        positions := ReadSection(c, ps[n..]);
        PostsSnoc(ps, n);
        posts := posts + [Heap.Post(id, positions)];
        n := n + 1;
      }
    }
    assert ps[..n] == ps;
    CurOfPosts(ps);
    cur := Heap.Cur(posts[0].id, posts[0].positions, posts[1..]);
  }

  lemma StandsAt(c: Cursor, ps: seq<Posting>, k: nat)
    requires Stands(c, ps, k)
    ensures |ps| > 0 && k < |ps[0].gaps| && c.Here().id == ps[0].id
  {
    hide PositionsOf, Cursor.Valid;
  }

  lemma NoPosts(ps: seq<Posting>)
    ensures PostsOf(ps[..0]) == []
  {}

  lemma CurOfPosts(ps: seq<Posting>)
    requires |ps| > 0 && |ps[0].gaps| > 0
    ensures CurOf(ps, 0) == Heap.Cur(PostsOf(ps)[0].id, PostsOf(ps)[0].positions, PostsOf(ps)[1..])
  {
    assert PostsOf(ps)[1..] == PostsOf(ps[1..]);
    assert Positions(ps[0])[0..] == Positions(ps[0]);
  }

  lemma OneMore(v: Views, ts: seq<nat>, t: nat, h: Heap.Hit)
    requires t in v
    ensures TokenAt(v, ts + [t], h) <==> TokenAt(v, ts, h) || InMap(v[t], h)
  {
    hide InMap;
    var ts2 := ts + [t];
    assert ts2[|ts|] == t && forall i :: 0 <= i < |ts| ==> ts2[i] == ts[i];
    if TokenAt(v, ts, h) {
      var i :| 0 <= i < |ts| && ts[i] in v && InMap(v[ts[i]], h);
      assert ts2[i] in v && InMap(v[ts2[i]], h);
    }
    if InMap(v[t], h) {
      assert InMap(v[ts2[|ts|]], h);
    }
  }

  lemma ListMore(lists: seq<seq<Posting>>, ps: seq<Posting>, h: Heap.Hit)
    requires AllListed(lists) && Sorted(NONE, ps) && |ps| > 0
    ensures AllListed(lists + [ps])
    ensures SomeHas(lists + [ps], h) <==> SomeHas(lists, h) || InMap(ToMap(ps), h)
    ensures Streams(lists + [ps]) == Streams(lists) + [CurOf(ps, 0)]
  {
    hide InMap, ToMap, Sorted;
    var lists2 := lists + [ps];
    assert lists2[|lists|] == ps && forall i :: 0 <= i < |lists| ==> lists2[i] == lists[i];
    if SomeHas(lists, h) {
      var i :| 0 <= i < |lists| && InMap(ToMap(lists[i]), h);
      assert InMap(ToMap(lists2[i]), h);
    }
    if InMap(ToMap(ps), h) {
      assert InMap(ToMap(lists2[|lists|]), h);
    }
  }

  lemma NewList(v: Views, t: nat, ps: seq<Posting>)
    requires Sorted(NONE, ps) && t in v && v[t] == ToMap(ps) && Searchable(v[t])
    ensures ps != [] ==> |ps[0].gaps| > 0 && Heap.CurOk(CurOf(ps, 0))
    ensures ps == [] ==> forall h :: !InMap(v[t], h)
  {
    hide Searchable, Spread, CurOf;
    SpreadOf(ps);
    if ps != [] {
      CurIsOk(NONE, ps, 0);
    }
  }

  /**
   * token_info_open: the terms of a token, each with what it has
   * to list; the ones that have nothing have no cursor.
   */
  method OpenTerms(inv: Inv, ts: seq<nat>) returns (curs: seq<Heap.Cur>, ghost lists: seq<seq<Posting>>)
    requires inv.Valid() && forall i :: 0 <= i < |ts| ==> Searchable(inv.View(ts[i]))
    ensures AllListed(lists) && curs == Streams(lists) && Heap.CursOk(curs)
    ensures forall h :: SomeHas(lists, h) <==> TokenAt(old(ViewsOf(inv)), ts, h)
  {
    hide ToMap, InMap, CurOf, Streams, AllListed, SomeHas, TokenAt, Searchable, AllStored, Sorted, Stands, Heap.CurOk,
         Heap.Has, Inv.Valid, Inv.ListOf;
    ghost var v := ViewsOf(inv);
    curs, lists := [], [];
    NoLists(v);
    var i := 0;
    while i < |ts|
      invariant i <= |ts| && unchanged(inv, inv.space, inv.space.marks, Objects(inv.segs))
      invariant inv.Valid() && ViewsOf(inv) == v
      invariant AllListed(lists) && curs == Streams(lists) && Heap.CursOk(curs)
      invariant forall h :: SomeHas(lists, h) <==> TokenAt(v, ts[..i], h)
    {
      ghost var ps := inv.ListOf(ts[i]);
      assert ts[..i + 1] == ts[..i] + [ts[i]];
      assert v[ts[i]] == inv.View(ts[i]);
      NewList(v, ts[i], ps);
      forall h ensures TokenAt(v, ts[..i + 1], h) <==> TokenAt(v, ts[..i], h) || InMap(v[ts[i]], h) {
        OneMore(v, ts[..i], ts[i], h);
      }
      var c := OpenTerm(inv, ts[i]);
      if c != null {
        FirstGaps(ps);
        var cur := ReadOut(c, ps);
        forall h
          ensures AllListed(lists + [ps]) && Streams(lists + [ps]) == Streams(lists) + [CurOf(ps, 0)]
          ensures SomeHas(lists + [ps], h) <==> SomeHas(lists, h) || InMap(ToMap(ps), h)
        {
          ListMore(lists, ps, h);
        }
        ListMore(lists, ps, Heap.Hit(NONE, 0));
        curs, lists := curs + [cur], lists + [ps];
      }
      i := i + 1;
    }
    assert ts[..i] == ts;
  }

  lemma NoLists(v: Views)
    ensures AllListed([]) && Streams([]) == [] && forall h :: !SomeHas([], h) && !TokenAt(v, [], h)
  {}

  /** The lists stand for the tokens' terms. */
  ghost predicate Stand(v: Views, tokens: seq<seq<nat>>, lists: seq<seq<seq<Posting>>>) {
    && |lists| == |tokens|
    && forall k :: 0 <= k < |lists| ==>
         AllListed(lists[k]) && forall h :: SomeHas(lists[k], h) <==> TokenAt(v, tokens[k], h)
  }

  lemma PhraseStarts(v: Views, tokens: seq<seq<nat>>, lists: seq<seq<seq<Posting>>>, q: Phrase.Query, id: DocId, s: nat)
    requires Stand(v, tokens, lists) && |lists| == |q.bins| == |q.offsets|
    requires forall k :: 0 <= k < |lists| ==> q.bins[k] == Streams(lists[k])
    ensures Phrase.Starts(q, id, s) <==> PhraseAt(v, tokens, q.offsets, id, s)
  {
    hide AllListed, SomeHas, TokenAt, Streams, Phrase.Starts;
    StartsInIndex(lists, q, id, s);
  }

  /** The rows for the streams are those for the index. */
  lemma RowsInIndex(v: Views, tokens: seq<seq<nat>>, lists: seq<seq<seq<Posting>>>, q: Phrase.Query,
                    rows: seq<Phrase.Row>)
    requires Stand(v, tokens, lists) && Phrase.QueryOk(q) && |tokens| == |lists| == |q.bins| && Phrase.AllRows(q, rows)
    requires forall k :: 0 <= k < |lists| ==> q.bins[k] == Streams(lists[k])
    ensures RowsOf(v, tokens, q.offsets, rows)
  {
    hide Stand, Streams, PhraseAt, Phrase.Starts, Phrase.HasRow, Heap.Lists;
    forall id, s: nat
      ensures Phrase.Starts(q, id, s) <==> PhraseAt(v, tokens, q.offsets, id, s)
      ensures Phrase.Starts(q, id, s) ==> s < q.limit
    {
      PhraseStarts(v, tokens, lists, q, id, s);
      if Phrase.Starts(q, id, s) {
        BelowLimit(q, id, s);
      }
    }
    forall i | 0 <= i < |rows| ensures Occurs(v, tokens, q.offsets, rows[i].id, rows[i].count) {
      var ss := Phrase.StartSet(q, rows[i].id, q.limit);
      assert forall s: nat :: s in ss <==> PhraseAt(v, tokens, q.offsets, rows[i].id, s);
    }
  }

  lemma BelowLimit(q: Phrase.Query, id: DocId, s: nat)
    requires Phrase.QueryOk(q) && Phrase.Starts(q, id, s)
    ensures s < q.limit
  {
    hide Heap.Lists;
    assert Heap.Lists(q.bins[0], Heap.Hit(id, s + q.offsets[0]));
  }

  /** The sections of all hits of a token have a number after them. */
  lemma TokenBound(v: Views, ts: seq<nat>, lists: seq<seq<Posting>>, h: Heap.Hit)
    requires AllListed(lists) && forall i :: 0 <= i < |ts| && ts[i] in v ==> Searchable(v[ts[i]])
    requires SomeHas(lists, h) <==> TokenAt(v, ts, h)
    ensures Heap.Lists(Streams(lists), h) ==> h.id.sid + 1 < TWO32
  {
    hide AllListed, Streams, SomeHas;
    StreamsHave(lists, h);
  }

  /**
   * sen_index_select, in exact mode, for a phrase of two or more tokens, from the index to the rows:
   * exactly the sections in which the phrase starts somewhere, by the maps that the index stands for.
   */
  method SearchPhrase(inv: Inv, tokens: seq<seq<nat>>, offsets: seq<nat>) returns (rows: seq<Phrase.Row>)
    requires inv.Valid() && |tokens| == |offsets| >= 2
    requires forall k, i :: 0 <= k < |tokens| && 0 <= i < |tokens[k]| ==> Searchable(inv.View(tokens[k][i]))
    ensures RowsOf(old(ViewsOf(inv)), tokens, offsets, rows)
  {
    hide InMap, Searchable, Streams, AllListed, SomeHas, TokenAt, Heap.CursOk, Heap.Lists, RowsOf, Phrase.QueryOk,
         Phrase.AllRows, Inv.Valid, Inv.View;
    ghost var v := ViewsOf(inv);
    var curs: seq<seq<Heap.Cur>> := [];
    ghost var lists: seq<seq<seq<Posting>>> := [];
    while |curs| < |tokens|
      invariant |curs| == |lists| <= |tokens| && unchanged(inv, inv.space, inv.space.marks, Objects(inv.segs))
      invariant inv.Valid() && ViewsOf(inv) == v
      invariant Stand(v, tokens[..|lists|], lists)
      invariant forall k :: 0 <= k < |curs| ==> Heap.CursOk(curs[k]) && curs[k] == Streams(lists[k])
      invariant forall k, h :: 0 <= k < |curs| && Heap.Lists(curs[k], h) ==> h.id.sid + 1 < TWO32
    {
      var k := |curs|;
      forall i | 0 <= i < |tokens[k]| ensures Searchable(inv.View(tokens[k][i])) {}
      var cs;
      ghost var ls;
      cs, ls := OpenTerms(inv, tokens[k]);
      forall h ensures Heap.Lists(cs, h) ==> h.id.sid + 1 < TWO32 {
        TokenBound(v, tokens[k], ls, h);
      }
      curs, lists := curs + [cs], lists + [ls];
    }
    assert tokens[..|lists|] == tokens;
    rows := Phrase.SelectPhrase(curs, offsets);
    RowsInIndex(v, tokens, lists, Phrase.QueryOf(curs, offsets), rows);
  }
}
