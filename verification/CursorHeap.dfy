/**
 * The heap of cursors that makes one stream of several (`lib/index.c`, cursor_heap_push,
 * cursor_heap_recalc_min, cursor_heap_pop and cursor_heap_pop_pos).
 *
 * A cursor is the postings it has still to list, the current one first, with the positions of
 * the current one that are still to be listed. Each has a current position.
 */
module CursorHeap {
  import opened PostingCodec

  /** A posting as a search sees it: a section and the positions of a token in it. */
  datatype Post = Post(id: DocId, positions: seq<nat>)

  datatype Cur = Cur(id: DocId, positions: seq<nat>, more: seq<Post>)

  datatype Hit = Hit(id: DocId, pos: nat)

  predicate Before(a: Hit, b: Hit) {
    Lt(a.id, b.id) || (a.id == b.id && a.pos < b.pos)
  }

  predicate AtMost(a: Hit, b: Hit) {
    !Before(b, a)
  }

  ghost predicate Rising(ps: seq<nat>) {
    forall i, j :: 0 <= i < j < |ps| ==> ps[i] < ps[j]
  }

  /** Sections in increasing order, each with positions in increasing order. */
  ghost predicate PostsOk(ps: seq<Post>) {
    && (forall i :: 0 <= i < |ps| ==> |ps[i].positions| > 0 && Rising(ps[i].positions))
    && (forall i, j :: 0 <= i < j < |ps| ==> Lt(ps[i].id, ps[j].id))
  }

  ghost predicate CurOk(c: Cur) {
    && |c.positions| > 0 && Rising(c.positions) && PostsOk(c.more)
    && forall i :: 0 <= i < |c.more| ==> Lt(c.id, c.more[i].id)
  }

  /** The current position: `post` of the cursor. */
  function Top(c: Cur): Hit {
    Hit(c.id, if |c.positions| > 0 then c.positions[0] else 0)
  }

  /** What a cursor has still to list. */
  ghost predicate Has(c: Cur, h: Hit) {
    || (h.id == c.id && h.pos in c.positions)
    || exists i :: 0 <= i < |c.more| && c.more[i].id == h.id && h.pos in c.more[i].positions
  }

  lemma TopFirst(c: Cur, h: Hit)
    requires CurOk(c) && Has(c, h)
    ensures Has(c, Top(c)) && AtMost(Top(c), h)
  {}

  /** sen_inv_cursor_next: to the next section. */
  function NextDoc(c: Cur): (r: (bool, Cur)) {
    if |c.more| == 0 then (false, c) else (true, Cur(c.more[0].id, c.more[0].positions, c.more[1..]))
  }

  /** sen_inv_cursor_next_pos: to the next position in the section. */
  function NextPos(c: Cur): (r: (bool, Cur)) {
    if |c.positions| <= 1 then (false, c) else (true, c.(positions := c.positions[1..]))
  }

  // ---------------------------------------------------------------- the heap

  function Parent(n: nat): nat
    requires n > 0
  {
    (n - 1) / 2
  }

  ghost predicate CursOk(b: seq<Cur>) {
    forall i :: 0 <= i < |b| ==> CurOk(b[i])
  }

  /** No cursor is before its parent. */
  ghost predicate HeapOk(b: seq<Cur>) {
    && CursOk(b)
    && forall i :: 0 < i < |b| ==> AtMost(Top(b[Parent(i)]), Top(b[i]))
  }

  /** What the cursors of a heap have still to list. */
  ghost predicate Lists(b: seq<Cur>, h: Hit) {
    exists i :: 0 <= i < |b| && Has(b[i], h)
  }

  lemma {:induction false} RootBelow(b: seq<Cur>, i: nat)
    requires HeapOk(b) && i < |b|
    ensures AtMost(Top(b[0]), Top(b[i]))
  {
    if i > 0 {
      RootBelow(b, Parent(i));
    }
  }

  /** The root is the first of all that is still to be listed. */
  lemma RootFirst(b: seq<Cur>, h: Hit)
    requires HeapOk(b) && Lists(b, h)
    ensures |b| > 0 && Lists(b, Top(b[0])) && AtMost(Top(b[0]), h)
    ensures
      var first := Top(b[0]);
      || first.id.rid < h.id.rid
      || (first.id.rid == h.id.rid && first.id.sid < h.id.sid)
      || (first.id == h.id && first.pos <= h.pos)
  {
    var i :| 0 <= i < |b| && Has(b[i], h);
    RootBelow(b, i);
    TopFirst(b[i], h);
    assert Has(b[0], Top(b[0]));
  }

  lemma ListsSame(a: seq<Cur>, b: seq<Cur>, h: Hit)
    requires multiset(a) == multiset(b)
    ensures Lists(a, h) <==> Lists(b, h)
    ensures CursOk(a) <==> CursOk(b)
  {
    assert forall c :: c in a <==> c in multiset(a);
    assert forall c :: c in b <==> c in multiset(b);
    assert CursOk(a) <==> forall c :: c in a ==> CurOk(c);
    assert CursOk(b) <==> forall c :: c in b ==> CurOk(c);
    if Lists(a, h) {
      var i :| 0 <= i < |a| && Has(a[i], h);
      assert a[i] in b;
    }
    if Lists(b, h) {
      var i :| 0 <= i < |b| && Has(b[i], h);
      assert b[i] in a;
    }
  }

  lemma MoveHole(b: seq<Cur>, n: nat, m: nat, c: Cur)
    requires n < |b| && m < |b| && n != m
    ensures multiset(b[n := b[m]][m := c]) == multiset(b[n := c])
  {}

  /** A heap, but for cursor `n`, which may be before its parent. */
  ghost predicate RisingAt(b: seq<Cur>, n: nat) {
    && CursOk(b) && n < |b|
    && (forall i :: 0 < i < |b| && i != n ==> AtMost(Top(b[Parent(i)]), Top(b[i])))
    && (n > 0 ==> forall i :: 0 < i < |b| && Parent(i) == n ==> AtMost(Top(b[Parent(n)]), Top(b[i])))
  }

  /** A heap, but for cursor `n`, which may be behind its children. */
  ghost predicate SinkingAt(b: seq<Cur>, n: nat) {
    && CursOk(b) && n < |b|
    && (forall i :: 0 < i < |b| && Parent(i) != n ==> AtMost(Top(b[Parent(i)]), Top(b[i])))
    && (n > 0 ==> forall i :: 0 < i < |b| && Parent(i) == n ==> AtMost(Top(b[Parent(n)]), Top(b[i])))
  }

  /** The loop of cursor_heap_push: up from slot `n`, until the parent is not behind. */
  method SiftUp(b0: seq<Cur>, n0: nat, c: Cur) returns (b: seq<Cur>)
    requires n0 < |b0| && RisingAt(b0[n0 := c], n0)
    ensures HeapOk(b) && multiset(b) == multiset(b0[n0 := c]) && |b| == |b0|
  {
    hide CurOk;
    b := b0;
    var n: nat := n0;
    while n > 0
      invariant n < |b| == |b0| && RisingAt(b[n := c], n) && multiset(b[n := c]) == multiset(b0[n0 := c])
    {
      hide Before, AtMost;
      var n2 := (n - 1) / 2;
      var c2 := b[n2];
      if Before(Top(c2), Top(c)) {
        break;
      }
      MoveHole(b, n, n2, c);
      RiseOne(b, n, c);
      b := b[n := c2];
      n := n2;
    }
    b := b[n := c];
  }

  lemma Transitive(a: Hit, b: Hit, c: Hit)
    requires AtMost(a, b) && AtMost(b, c)
    ensures AtMost(a, c)
  {}

  lemma RiseOne(b: seq<Cur>, n: nat, c: Cur)
    requires 0 < n < |b| && RisingAt(b[n := c], n) && !Before(Top(b[Parent(n)]), Top(c))
    ensures RisingAt(b[n := b[Parent(n)]][Parent(n) := c], Parent(n))
  {
    hide CurOk, Before, Top;
    var p := Parent(n);
    var b1, b2 := b[n := c], b[n := b[p]][p := c];
    assert AtMost(Top(c), Top(b[p]));
    forall i | 0 <= i < |b2| ensures CurOk(b2[i]) {
      assert CurOk(b1[i]) && CurOk(b1[n]) && CurOk(b1[p]);
    }
    forall i | 0 < i < |b2| && i != p ensures AtMost(Top(b2[Parent(i)]), Top(b2[i])) {
      if i != n {
        assert AtMost(Top(b1[Parent(i)]), Top(b1[i]));
        if Parent(i) == p { Transitive(Top(c), Top(b[p]), Top(b[i])); }
      }
    }
    if p > 0 {
      assert AtMost(Top(b1[Parent(p)]), Top(b1[p]));
      forall i | 0 < i < |b2| && Parent(i) == p ensures AtMost(Top(b2[Parent(p)]), Top(b2[i])) {
        if i != n {
          assert AtMost(Top(b1[p]), Top(b1[i]));
          Transitive(Top(b1[Parent(p)]), Top(b1[p]), Top(b1[i]));
        }
      }
    }
  }

  /** cursor_heap_recalc_min: down from the root, to the smaller child, until neither is before. */
  method SiftDown(b0: seq<Cur>) returns (b: seq<Cur>)
    requires |b0| > 1 && SinkingAt(b0, 0)
    ensures HeapOk(b) && multiset(b) == multiset(b0) && |b| == |b0|
  {
    hide CurOk, Top, SinkingAt;
    b := b0;
    var n: nat, m, c := 0, |b|, b[0];
    assert b[0 := c] == b;
    while true
      invariant n < m == |b| == |b0| && SinkingAt(b[n := c], n) && multiset(b[n := c]) == multiset(b0)
      decreases m - n
    {
      var n1 := n * 2 + 1;
      var n2 := n1 + 1;
      var next := n;
      if n1 < m && Before(Top(b[n1]), Top(c)) {
        if n2 < m && Before(Top(b[n2]), Top(c)) && Before(Top(b[n2]), Top(b[n1])) {
          next := n2;
        } else {
          next := n1;
        }
      } else {
        if n2 < m && Before(Top(b[n2]), Top(c)) {
          next := n2;
        } else {
          SunkEnough(b, n, c);
          b := b[n := c];
          return;
        }
      }
      SinkOne(b, n, next, c);
      MoveHole(b, n, next, c);
      b := b[n := b[next]];
      n := next;
    }
  }

  lemma SunkEnough(b: seq<Cur>, n: nat, c: Cur)
    requires n < |b| && SinkingAt(b[n := c], n)
    requires 2 * n + 1 < |b| ==> !Before(Top(b[2 * n + 1]), Top(c))
    requires 2 * n + 2 < |b| ==> !Before(Top(b[2 * n + 2]), Top(c))
    ensures HeapOk(b[n := c])
  {
    hide CurOk, Before, Top;
    var b1 := b[n := c];
    forall i | 0 < i < |b1| ensures AtMost(Top(b1[Parent(i)]), Top(b1[i])) {
      if Parent(i) == n {
        assert i == 2 * n + 1 || i == 2 * n + 2;
      }
    }
  }

  lemma SinkOne(b: seq<Cur>, n: nat, k: nat, c: Cur)
    requires n < |b| && k < |b| && SinkingAt(b[n := c], n) && (k == 2 * n + 1 || k == 2 * n + 2)
    requires Before(Top(b[k]), Top(c))
    requires var o := if k == 2 * n + 1 then 2 * n + 2 else 2 * n + 1;
             o < |b| ==> AtMost(Top(b[k]), Top(b[o]))
    ensures SinkingAt(b[n := b[k]][k := c], k)
  {
    hide CurOk, Top;
    assert AtMost(Top(b[k]), Top(c));
    hide Before, AtMost;
    var b1, b2 := b[n := c], b[n := b[k]][k := c];
    forall i | 0 <= i < |b2| ensures CurOk(b2[i]) {
      assert CurOk(b1[i]) && CurOk(b1[n]) && CurOk(b1[k]);
    }
    forall i | 0 < i < |b2| && Parent(i) != k ensures AtMost(Top(b2[Parent(i)]), Top(b2[i])) {
      if Parent(i) == n {
        assert i == 2 * n + 1 || i == 2 * n + 2;
      } else {
        assert AtMost(Top(b1[Parent(i)]), Top(b1[i]));
        if i == n { assert AtMost(Top(b1[Parent(n)]), Top(b1[k])); }
      }
    }
    forall i | 0 < i < |b2| && Parent(i) == k ensures AtMost(Top(b2[Parent(k)]), Top(b2[i])) {
      assert AtMost(Top(b1[Parent(i)]), Top(b1[i]));
    }
  }
}
