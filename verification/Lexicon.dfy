/**
 * The lexicon (`lib/sym.c`, _sen_sym_get and sen_sym_at): keys get ids in the order of their first
 * insertion, and are found again through a Patricia tree.
 */
module Lexicon {
  import opened ByteCodec
  import opened KeyBits
  import opened Patricia

  const MAX_KEY_LENGTH := 0xffff

  /** memcmp(a, k, |k|) == 0. */
  predicate Starts(a: Key, k: Key) {
    |k| <= |a| && a[..|k|] == k
  }

  lemma StartsSame(keySize: nat, a: Key, k: Key)
    requires IsKey(keySize, a) && IsKey(keySize, k)
    ensures Starts(a, k) <==> a == k
  {}

  /** Link `side` of node `n` is the d-th on the way of `k`, behind a node that checks bit `c`. */
  ghost predicate Pos(ns: Nodes, t: Tree, k: Key, d: nat, n: nat, side: bool, c: int) {
    && n < |ns| && Leads(ns, t, k, d)
    && Linked(ns, LinkOf(ns[n], side), c, Sub(ns, t, k, d)) && Sorted(ns, Sub(ns, t, k, d))
    && if d == 0 then n == 0 && side && c == -1
       else
         && Leads(ns, t, k, d - 1) && Sub(ns, t, k, d - 1).Inner? && Sub(ns, t, k, d - 1).id == n
         && c == ns[n].check && c < Bits(k) && side == Bit(k, c)
  }

  lemma PosNext(ns: Nodes, t: Tree, k: Key, d: nat, n: nat, side: bool, c: int)
    requires Pos(ns, t, k, d, n, side, c)
    requires var s := Sub(ns, t, k, d); s.Inner? && s.id < |ns| && ns[s.id].check < Bits(k)
    ensures var s := Sub(ns, t, k, d); Pos(ns, t, k, d + 1, s.id, Bit(k, ns[s.id].check), ns[s.id].check)
    ensures var s := Sub(ns, t, k, d); Sub(ns, t, k, d + 1) == Child(ns, s, k) && c < ns[s.id].check
  {
    hide OnSide;
    SubNext(ns, t, k, d);
  }

  lemma PosStart(ns: Nodes, keySize: nat, t: Tree, k: Key)
    requires TreeOk(ns, keySize, t)
    ensures Pos(ns, t, k, 0, 0, true, -1) && Sub(ns, t, k, 0) == t
  {}

  /** Where the bits of `k` end, there is the only node that may hold it. */
  ghost predicate Ended(ns: Nodes, t: Tree, k: Key, d: nat)
  {
    && Leads(ns, t, k, d)
    && match Sub(ns, t, k, d)
       case Null => true
       case Leaf(id) => id < |ns| && ns[id].key != k
       case Inner(id, _, _) => id < |ns| && ns[id].check >= Bits(k)
  }

  lemma NotThere(ns: Nodes, keySize: nat, t: Tree, k: Key, d: nat, i: nat)
    requires TreeOk(ns, keySize, t) && Ended(ns, t, k, d) && 0 < i < |ns|
    requires Sorted(ns, Sub(ns, t, k, d))
    ensures ns[i].key != k
  {
    if ns[i].key == k {
      AgreeSame(k, Bits(k));
      StaysBelow(ns, t, k, d, i);
    }
  }

  /** DistinctKeys ids have distinct keys. */
  lemma {:induction false} OneKey(ns: Nodes, t: Tree, i: nat, j: nat)
    requires Sorted(ns, t) && i in Leaves(t) && j in Leaves(t) && i < |ns| && j < |ns| && ns[i].key == ns[j].key
    ensures i == j
  {
    if t.Inner? {
      OneKey(ns, if i in Leaves(t.left) then t.left else t.right, i, j);
    }
  }

  // ---------------------------------------------------------------- a place for a new key

  /** All keys of `t` agree with `k` before bit `c`, and differ from it there; its root checks a later bit. */
  ghost predicate Parts(ns: Nodes, t: Tree, k: Key, c: nat) {
    && c < Bits(k)
    && (forall a :: a in Leaves(t) ==>
          0 < a < |ns| && c < Bits(ns[a].key) && Agree(ns[a].key, k, c) && Bit(ns[a].key, c) != Bit(k, c))
    && (t.Inner? ==> t.id < |ns| && c < ns[t.id].check)
  }

  /** The node for a new key, with the id of itself and what it takes the place of. */
  function NewNode(k: Key, c: nat, r: nat, old_: nat): PatNode
    requires c < Bits(k)
  {
    if Bit(k, c) then PatNode(old_, r, c, k) else PatNode(r, old_, c, k)
  }

  function NewTree(k: Key, c: nat, r: nat, t: Tree): Tree
    requires c < Bits(k)
  {
    if Bit(k, c) then Inner(r, t, Leaf(r)) else Inner(r, Leaf(r), t)
  }

  /** The nodes after the new one is linked in place of the link `side` of node `n`. */
  function Insert(ns: Nodes, k: Key, c: nat, n: nat, side: bool): Nodes
    requires n < |ns| && c < Bits(k)
  {
    ns[n := SetLink(ns[n], side, |ns|)] + [NewNode(k, c, |ns|, LinkOf(ns[n], side))]
  }

  lemma InsertIs(ns: Nodes, k: Key, c: nat, n: nat, side: bool)
    requires n < |ns| && c < Bits(k)
    ensures
      var ns2 := Insert(ns, k, c, n, side);
      && Relinked(ns, ns2, n, side, |ns|) && SameKeys(ns, ns2)
      && ns2[|ns|] == NewNode(k, c, |ns|, LinkOf(ns[n], side)) && LinkOf(ns2[n], side) == |ns|
  {}

  /** What hangs there is not changed by putting a node above it. */
  lemma HangsOn(ns: Nodes, ns2: Nodes, t: Tree, k: Key, d: nat, n: nat, side: bool, cp: int, c: nat)
    requires Pos(ns, t, k, d, n, side, cp) && cp < c && Parts(ns, Sub(ns, t, k, d), k, c)
    requires Relinked(ns, ns2, n, side, |ns|)
    ensures Linked(ns2, LinkOf(ns[n], side), c, Sub(ns, t, k, d))
  {
    var u := Sub(ns, t, k, d);
    if n in Inners(u) {
      InnersAbove(ns, LinkOf(ns[n], side), cp, u, n);
    }
    LinkedFrame(ns, ns2, LinkOf(ns[n], side), cp, u, n, side, |ns|);
  }

  lemma NewSorted(ns: Nodes, ns2: Nodes, t: Tree, k: Key, c: nat)
    requires Parts(ns, t, k, c) && Sorted(ns, t) && SameKeys(ns, ns2) && |ns2| == |ns| + 1
    requires |ns| > 0 && ns2[|ns|].key == k && ns2[|ns|].check == c
    ensures Sorted(ns2, NewTree(k, c, |ns|, t)) && Leaves(NewTree(k, c, |ns|, t)) == Leaves(t) + {|ns|}
  {
    SortedFrame(ns, ns2, t);
    AgreeSame(k, c);
    assert OnSide(ns2, t, |ns|, !Bit(k, c));
    assert OnSide(ns2, Leaf(|ns|), |ns|, Bit(k, c));
  }

  lemma ParentAt(ns: Nodes, t: Tree, k: Key, d: nat)
    requires d > 0 && Leads(ns, t, k, d)
    ensures Leads(ns, t, k, d - 1)
    ensures var p := Sub(ns, t, k, d - 1); p.Inner? && p.id == ParentId(ns, t, k, d)
    decreases d
  {
    if d > 1 {
      ParentAt(ns, Child(ns, t, k), k, d - 1);
    }
  }

  /** Linking a tree for a new key at a place on its way keeps everything in order. */
  lemma InsertOk(ns: Nodes, keySize: nat, t: Tree, k: Key, d: nat, n: nat, side: bool, cp: int, c: nat,
                 s: nat, cs: nat, new_: Tree)
    requires TreeOk(ns, keySize, t) && IsKey(keySize, k) && Pos(ns, t, k, d, n, side, cp) && c < Bits(k)
    requires s < |ns| && Agree(k, ns[s].key, cs) && OnWay(ns, t, k, d, s, cs)
    requires
      var ns2 := Insert(ns, k, c, n, side);
      && Linked(ns2, |ns|, cp, new_) && Sorted(ns2, new_)
      && Leaves(new_) == Leaves(Sub(ns, t, k, d)) + {|ns|}
    ensures TreeOk(Insert(ns, k, c, n, side), keySize, Graft(ns, t, k, d, new_))
  {
    hide Agree, Sorted, Linked, Graft, Sub, OnWay, KeysOk;
    InsertLinked(ns, keySize, t, k, d, n, side, cp, c, new_);
    InsertSorted(ns, keySize, t, k, d, n, side, cp, c, s, cs, new_);
    InsertKeys(ns, keySize, k, c, n, side);
  }

  lemma InsertKeys(ns: Nodes, keySize: nat, k: Key, c: nat, n: nat, side: bool)
    requires KeysOk(ns, keySize) && IsKey(keySize, k) && n < |ns| && c < Bits(k)
    ensures KeysOk(Insert(ns, k, c, n, side), keySize)
  {}

  lemma InsertSorted(ns: Nodes, keySize: nat, t: Tree, k: Key, d: nat, n: nat, side: bool, cp: int, c: nat,
                     s: nat, cs: nat, new_: Tree)
    requires TreeOk(ns, keySize, t) && IsKey(keySize, k) && Pos(ns, t, k, d, n, side, cp) && c < Bits(k)
    requires s < |ns| && Agree(k, ns[s].key, cs) && OnWay(ns, t, k, d, s, cs)
    requires Sorted(Insert(ns, k, c, n, side), new_) && Leaves(new_) == Leaves(Sub(ns, t, k, d)) + {|ns|}
    ensures
      var t2 := Graft(ns, t, k, d, new_);
      Sorted(Insert(ns, k, c, n, side), t2) && Leaves(t2) == Leaves(t) + {|ns|}
  {
    hide Agree, Sorted, Linked, Graft, Insert, OnWay;
    InsertIs(ns, k, c, n, side);
    GraftSorted(ns, Insert(ns, k, c, n, side), t, k, d, new_, s, cs);
  }

  lemma InsertLinked(ns: Nodes, keySize: nat, t: Tree, k: Key, d: nat, n: nat, side: bool, cp: int, c: nat, new_: Tree)
    requires TreeOk(ns, keySize, t) && Pos(ns, t, k, d, n, side, cp) && c < Bits(k)
    requires Linked(Insert(ns, k, c, n, side), |ns|, cp, new_)
    ensures Linked(Insert(ns, k, c, n, side), Insert(ns, k, c, n, side)[0].r, -1, Graft(ns, t, k, d, new_))
  {
    hide Agree, Sorted, Linked;
    var ns2 := Insert(ns, k, c, n, side);
    InsertIs(ns, k, c, n, side);
    if d > 0 {
      ParentAt(ns, t, k, d);
      ParentInner(ns, ns[0].r, -1, t, k, d);
      InnersNotHeader(ns, ns[0].r, t, n);
      GraftLinked(ns, ns2, ns[0].r, -1, t, k, d, |ns|, new_);
    }
  }

  lemma InnersNotHeader(ns: Nodes, link: nat, t: Tree, n: nat)
    requires Linked(ns, link, -1, t) && n in Inners(t)
    ensures n > 0
  {
    InnersAbove(ns, link, -1, t, n);
  }

  /** The ordinary case: a node between two that check bits before and behind the one it checks. */
  lemma InsertBetween(ns: Nodes, keySize: nat, t: Tree, k: Key, d: nat, n: nat, side: bool, cp: int, c: nat, s: nat,
                      cs: nat)
    requires TreeOk(ns, keySize, t) && IsKey(keySize, k) && Pos(ns, t, k, d, n, side, cp)
    requires cp < c && Parts(ns, Sub(ns, t, k, d), k, c)
    requires s < |ns| && Agree(k, ns[s].key, cs) && OnWay(ns, t, k, d, s, cs)
    ensures TreeOk(Insert(ns, k, c, n, side), keySize, Graft(ns, t, k, d, NewTree(k, c, |ns|, Sub(ns, t, k, d))))
  {
    hide Agree, Sorted;
    var ns2, u := Insert(ns, k, c, n, side), Sub(ns, t, k, d);
    InsertIs(ns, k, c, n, side);
    HangsOn(ns, ns2, t, k, d, n, side, cp, c);
    NewSorted(ns, ns2, u, k, c);
    InsertOk(ns, keySize, t, k, d, n, side, cp, c, s, cs, NewTree(k, c, |ns|, u));
  }

  /** When the bit that differs is the last one of the key, the new node is only a leaf. */
  lemma InsertLeaf(ns: Nodes, keySize: nat, t: Tree, k: Key, d: nat, n: nat, side: bool, c: nat, s: nat)
    requires TreeOk(ns, keySize, t) && IsKey(keySize, k) && Pos(ns, t, k, d, n, side, c) && c < Bits(k)
    requires Sub(ns, t, k, d) == Null
    requires s < |ns| && Agree(k, ns[s].key, c) && OnWay(ns, t, k, d, s, c)
    ensures TreeOk(Insert(ns, k, c, n, side), keySize, Graft(ns, t, k, d, Leaf(|ns|)))
  {
    hide Agree;
    InsertIs(ns, k, c, n, side);
    InsertOk(ns, keySize, t, k, d, n, side, c, c, s, c, Leaf(|ns|));
  }

  // ---------------------------------------------------------------- where the first differing bit belongs

  /** Below a node that checks a later bit than `c`, all keys are like that of `s` up to there. */
  lemma PartsInner(ns: Nodes, t: Tree, k: Key, s: nat, c: nat)
    requires Sorted(ns, t) && t.Inner? && s in Leaves(t) && 0 < s < |ns|
    requires c < ns[t.id].check && FirstDiff(ns[s].key, k, c)
    ensures Parts(ns, t, k, c)
  {
    forall a | a in Leaves(t)
      ensures 0 < a < |ns| && c < Bits(ns[a].key) && Agree(ns[a].key, k, c) && Bit(ns[a].key, c) != Bit(k, c)
    {
      assert Bit(ns[a].key, c) == Bit(ns[t.id].key, c) == Bit(ns[s].key, c);
    }
  }

  lemma PartsLeaf(ns: Nodes, k: Key, s: nat, c: nat)
    requires 0 < s < |ns| && FirstDiff(ns[s].key, k, c)
    ensures Parts(ns, Leaf(s), k, c)
  {}

  /** No node on the way down to `s` checks the first differing bit. */
  lemma NotChecked(ns: Nodes, t: Tree, k: Key, e: nat, s: nat, c: nat)
    requires Leads(ns, t, k, e + 1) && Leads(ns, t, k, e) && s in Leaves(Sub(ns, t, k, e + 1)) && s < |ns|
    requires var u := Sub(ns, t, k, e); u.Inner? && u.id < |ns| && ns[u.id].check < Bits(k) && Sorted(ns, u)
    requires Sub(ns, t, k, e + 1) == Child(ns, Sub(ns, t, k, e), k)
    requires FirstDiff(ns[s].key, k, c)
    ensures ns[Sub(ns, t, k, e).id].check != c
  {}

  /** A key whose bits lead nowhere differs from that of the last node no later than at the bit it checks. */
  lemma NowhereBit(ns: Nodes, u: Tree, k: Key, c: nat)
    requires u.Inner? && Sorted(ns, u) && u.id < |ns| && ns[u.id].check < Bits(k) && Child(ns, u, k) == Null
    requires FirstDiff(ns[u.id].key, k, c)
    ensures c <= ns[u.id].check && 0 < u.id && u.id in Leaves(u)
  {}

  /** The result of a search that did not find `k`: it is to be compared with the key of node `s`. */
  ghost predicate Missed(ns: Nodes, t: Tree, k: Key, d: nat,
                         n0: nat, side0: bool, c0: int, n1: nat, side1: bool, c1: int, s: nat) {
    && Pos(ns, t, k, d, n0, side0, c0) && Ended(ns, t, k, d) && (d > 0 ==> Pos(ns, t, k, d - 1, n1, side1, c1))
    && 0 < s < |ns|
    && match Sub(ns, t, k, d)
       case Null => d > 0 && s == n0
       case Leaf(id) => s == id
       case Inner(id, _, _) => s == id
  }

  lemma MissedBelow(ns: Nodes, t: Tree, k: Key, d: nat, n0: nat, side0: bool, c0: int, n1: nat, side1: bool, c1: int,
                    s: nat)
    requires Missed(ns, t, k, d, n0, side0, c0, n1, side1, c1, s)
    ensures Sub(ns, t, k, d) != Null ==> s in Leaves(Sub(ns, t, k, d))
    ensures d > 0 ==> Leads(ns, t, k, d - 1) && s in Leaves(Sub(ns, t, k, d - 1))
  {
    if d > 0 {
      SubPrefix(ns, t, k, d, d - 1);
    }
  }

  /**
   * A node for `k`, linked in place of that link, gives tree
   * `t2`, where it is an inner one or links only to itself.
   */
  ghost predicate Fits(ns: Nodes, keySize: nat, t: Tree, k: Key, n: nat, side: bool, c: nat, t2: Tree) {
    && n < |ns| && c < Bits(k) && TreeOk(Insert(ns, k, c, n, side), keySize, t2)
    && Inners(t) <= Inners(t2) <= Inners(t) + {|ns|} && (n == 0 || n in Inners(t))
    && (|ns| in Inners(t2) || LinkOf(ns[n], side) == 0)
  }

  lemma PosInner(ns: Nodes, t: Tree, k: Key, d: nat, n: nat, side: bool, c: int)
    requires Pos(ns, t, k, d, n, side, c)
    ensures n == 0 || n in Inners(t)
  {
    hide Linked, Sorted;
    if d > 0 {
      InnersOfSub(ns, t, k, d - 1);
    }
  }

  /** A new inner node in place of a link. */
  lemma PlaceBetween(ns: Nodes, keySize: nat, t: Tree, k: Key, d: nat, n: nat, side: bool, cp: int, c: nat, s: nat,
                     cs: nat)
    returns (t2: Tree)
    requires TreeOk(ns, keySize, t) && IsKey(keySize, k) && Pos(ns, t, k, d, n, side, cp)
    requires cp < c < Bits(k) && Parts(ns, Sub(ns, t, k, d), k, c)
    requires s < |ns| && Agree(k, ns[s].key, cs) && OnWay(ns, t, k, d, s, cs)
    ensures Fits(ns, keySize, t, k, n, side, c, t2) && |ns| in Inners(t2)
  {
    hide Agree, Sorted, Linked, KeysOk, Parts, OnWay, Insert, Leads, Sub;
    PosInner(ns, t, k, d, n, side, cp);
    InsertBetween(ns, keySize, t, k, d, n, side, cp, c, s, cs);
    t2 := Graft(ns, t, k, d, NewTree(k, c, |ns|, Sub(ns, t, k, d)));
    GraftInners(ns, t, k, d, NewTree(k, c, |ns|, Sub(ns, t, k, d)), {|ns|});
  }

  /** The new node is linked in place of the link that the search ended at. */
  lemma PlaceHere(ns: Nodes, keySize: nat, t: Tree, k: Key, d: nat, n0: nat, side0: bool, c0: int,
                  n1: nat, side1: bool, c1: int, s: nat, c: nat) returns (t2: Tree)
    requires TreeOk(ns, keySize, t) && IsKey(keySize, k) && Missed(ns, t, k, d, n0, side0, c0, n1, side1, c1, s)
    requires FirstDiff(ns[s].key, k, c) && c > c0
    ensures Fits(ns, keySize, t, k, n0, side0, c, t2) && |ns| in Inners(t2)
  {
    hide FirstDiff, Agree, OnSide;
    var u := Sub(ns, t, k, d);
    MissedBelow(ns, t, k, d, n0, side0, c0, n1, side1, c1, s);
    if d > 0 {
      OnTheWay(ns, ns[0].r, -1, t, k, d, s, c);
      if u == Null {
        ChildAt(ns, t, k, d);
        NowhereBit(ns, Sub(ns, t, k, d - 1), k, c);
      }
    }
    DiffAgrees(ns[s].key, k, c);
    if u.Leaf? {
      PartsLeaf(ns, k, s, c);
    } else {
      PartsInner(ns, u, k, s, c);
    }
    t2 := PlaceBetween(ns, keySize, t, k, d, n0, side0, c0, c, s, c);
  }

  lemma ChildAt(ns: Nodes, t: Tree, k: Key, d: nat)
    requires d > 0 && Leads(ns, t, k, d)
    ensures Leads(ns, t, k, d - 1) && var p := Sub(ns, t, k, d - 1);
            p.Inner? && p.id < |ns| && ns[p.id].check < Bits(k) && Sub(ns, t, k, d) == Child(ns, p, k)
  {
    SubPrefix(ns, t, k, d, d - 1);
    SubNext(ns, t, k, d - 1);
  }

  lemma DiffAgrees(a: Key, k: Key, c: nat)
    requires FirstDiff(a, k, c)
    ensures c < Bits(k) && c < Bits(a) && Agree(a, k, c) && Agree(k, a, c)
  {}

  /** ... or of a link further up, to a node that checks a later bit than `c`. */
  lemma PlaceAbove(ns: Nodes, keySize: nat, t: Tree, k: Key, e: nat, n: nat, side: bool, cp: int, s: nat, c: nat)
    returns (t2: Tree)
    requires TreeOk(ns, keySize, t) && IsKey(keySize, k) && Pos(ns, t, k, e, n, side, cp)
    requires var u := Sub(ns, t, k, e); u.Inner? && s in Leaves(u) && u.id < |ns| && c < ns[u.id].check
    requires 0 < s < |ns| && FirstDiff(ns[s].key, k, c) && c > cp
    ensures Fits(ns, keySize, t, k, n, side, c, t2) && |ns| in Inners(t2)
  {
    hide FirstDiff, Agree, OnSide;
    var u := Sub(ns, t, k, e);
    if e > 0 {
      SubPrefix(ns, t, k, e, e - 1);
      OnTheWay(ns, ns[0].r, -1, t, k, e, s, c);
    }
    DiffAgrees(ns[s].key, k, c);
    PartsInner(ns, u, k, s, c);
    t2 := PlaceBetween(ns, keySize, t, k, e, n, side, cp, c, s, c);
  }

  /** ... or, when that link leads nowhere and the last bit checked is the one that differs, with the bit after it. */
  lemma PlaceNowhere(ns: Nodes, keySize: nat, t: Tree, k: Key, d: nat, n0: nat, side0: bool, c0: nat,
                     n1: nat, side1: bool, c1: int, c2: nat) returns (t2: Tree)
    requires TreeOk(ns, keySize, t) && IsKey(keySize, k) && Missed(ns, t, k, d, n0, side0, c0, n1, side1, c1, n0)
    requires Sub(ns, t, k, d) == Null && FirstDiff(ns[n0].key, k, c0)
    requires c2 < Bits(k) && (c2 == c0 || c2 == c0 + 1)
    ensures Fits(ns, keySize, t, k, n0, side0, c2, t2) && (c2 > c0 ==> |ns| in Inners(t2))
  {
    hide FirstDiff, Agree, OnSide;
    PosInner(ns, t, k, d, n0, side0, c0);
    MissedBelow(ns, t, k, d, n0, side0, c0, n1, side1, c1, n0);
    OnTheWay(ns, ns[0].r, -1, t, k, d, n0, c0);
    DiffAgrees(ns[n0].key, k, c0);
    if c2 == c0 {
      InsertLeaf(ns, keySize, t, k, d, n0, side0, c0, n0);
      t2 := Graft(ns, t, k, d, Leaf(|ns|));
      GraftInners(ns, t, k, d, Leaf(|ns|), {});
    } else {
      t2 := PlaceBetween(ns, keySize, t, k, d, n0, side0, c0, c2, n0, c0);
    }
  }

  /** No key has a byte 0x01. */
  ghost predicate PlainKeys(ns: Nodes) {
    forall i, j :: 0 < i < |ns| && 0 <= j < |ns[i].key| ==> ns[i].key[j] != 1
  }

  lemma PlainDiff(ns: Nodes, t: Tree, k: Key, s: nat)
    requires TreeOk(ns, 0, t) && IsKey(0, k) && PlainKeys(ns) && 0 < s < |ns|
    ensures !FirstDiff(ns[s].key, k, Bits(k) - 1)
  {
    hide FirstDiff;
    if FirstDiff(ns[s].key, k, Bits(k) - 1) {
      DiffAtEnd(ns[s].key, k);
    }
  }

  /** How far the bits of `k` lead from a link: the last link followed, and the bit checked in front of it. */
  function Follow(ns: Nodes, k: Key, n: nat, side: bool, c: int): (r: (nat, bool, int))
    requires n < |ns|
    ensures r.0 < |ns|
    decreases Bits(k) - c
  {
    var r0 := LinkOf(ns[n], side);
    if 0 < r0 < |ns| && c < ns[r0].check < Bits(k) then Follow(ns, k, r0, Bit(k, ns[r0].check), ns[r0].check)
    else (n, side, c)
  }

  /** The bits of `k` lead nowhere, and the last one checked is where it differs from the key of that node. */
  ghost predicate EndsNowhere(ns: Nodes, k: Key) {
    |ns| > 0 &&
    var (n, side, c) := Follow(ns, k, 0, true, -1);
    LinkOf(ns[n], side) == 0 && c >= 0 && FirstDiff(ns[n].key, k, c)
  }

  /** The nodes with a new one there: it checks the next bit, or the same one if that is the last. */
  function AddNowhere(ns: Nodes, k: Key): Nodes
    requires |ns| > 0 && var c := Follow(ns, k, 0, true, -1).2; 0 <= c < Bits(k)
  {
    var (n, side, c) := Follow(ns, k, 0, true, -1);
    Insert(ns, k, if c + 1 < Bits(k) then c + 1 else c, n, side)
  }

  lemma NotNowhere(ns: Nodes, k: Key)
    requires |ns| > 0 && ns[0].r == 0
    ensures !EndsNowhere(ns, k)
  {}

  lemma NowhereIs(ns: Nodes, k: Key, s: nat, n: nat, side: bool, c0: int, c: nat)
    requires n < |ns| && s < |ns| && (n, side, c0) == Follow(ns, k, 0, true, -1) && FirstDiff(ns[s].key, k, c)
    requires LinkOf(ns[n], side) == 0 ==> s == n
    ensures EndsNowhere(ns, k) ==> LinkOf(ns[n], side) == 0 && c == c0
    ensures c == c0 ==> AddNowhere(ns, k) == Insert(ns, k, if c < Bits(k) - 1 then c + 1 else c, n, side)
  {
    hide Follow, Insert;
  }

  ghost predicate DistinctKeys(ns: Nodes) {
    forall i, j :: 0 < i < |ns| && 0 < j < |ns| && ns[i].key == ns[j].key ==> i == j
  }

  /** The id of every key. */
  ghost function DictOf(ns: Nodes): map<Key, nat>
    requires DistinctKeys(ns)
  {
    map i | 0 < i < |ns| :: ns[i].key := i
  }

  lemma InDict(ns: Nodes, k: Key)
    requires DistinctKeys(ns)
    ensures k in DictOf(ns) ==> 0 < DictOf(ns)[k] < |ns| && ns[DictOf(ns)[k]].key == k
    ensures forall i :: 0 < i < |ns| && ns[i].key == k ==> k in DictOf(ns) && DictOf(ns)[k] == i
  {}

  lemma DictSnoc(ns: Nodes, ns2: Nodes, k: Key)
    requires DistinctKeys(ns) && DistinctKeys(ns2) && SameKeys(ns, ns2) && |ns2| == |ns| + 1 && |ns| > 0
        && ns2[|ns|].key == k
    ensures DictOf(ns2) == DictOf(ns)[k := |ns|]
  {}

  class Sym {
    const keySize: nat
    var nodes: Nodes
    ghost var tree: Tree

    /** Nodes are also found on the way down, except (with bytes 0x01 in keys) for some that are only leaves. */
    ghost predicate Valid()
      reads this
    {
      && TreeOk(nodes, keySize, tree) && Inners(tree) <= Leaves(tree)
      && (keySize == 0 && PlainKeys(nodes) ==> Leaves(tree) <= Inners(tree)) && OthersIdle(nodes, tree)
    }

    /** The ids of the keys. */
    ghost function Dict(): map<Key, nat>
      requires Valid()
      reads this
    {
      KeysDistinct(nodes, keySize, tree);
      DictOf(nodes)
    }

    constructor (keySize: nat)
      ensures Valid() && this.keySize == keySize && Dict() == map[] && nodes == [PatNode(0, 0, 0, [])]
    {
      this.keySize := keySize;
      nodes, tree := [PatNode(0, 0, 0, [])], Null;
    }

    /** sen_sym_at: the id of a key, or 0. */
    method At(k: Key) returns (r: nat)
      requires Valid() && IsKey(keySize, k)
      ensures r == if k in Dict() then Dict()[k] else 0
      ensures r != 0 ==> r < |nodes| && nodes[r].key == k
      ensures r == 0 ==> forall i :: 0 < i < |nodes| ==> nodes[i].key != k
    {
      hide Sorted, IsKey, DictOf;
      KeysDistinct(nodes, keySize, tree);
      InDict(nodes, k);
      var c: int, n, side := -1, 0, true;
      ghost var d := 0;
      PosStart(nodes, keySize, tree, k);
      r := nodes[0].r;
      while r != 0
        invariant Pos(nodes, tree, k, d, n, side, c) && r == LinkOf(nodes[n], side)
        decreases Sub(nodes, tree, k, d)
      {
        var rn := nodes[r];
        if Bits(k) <= rn.check {
          break;
        }
        if rn.check <= c {
          StartsSame(keySize, rn.key, k);
          if Starts(rn.key, k) {
            return;
          }
          break;
        }
        PosNext(nodes, tree, k, d, n, side, c);
        c, n, side := rn.check, r, Bit(k, rn.check);
        r := LinkOf(rn, side);
        d := d + 1;
      }
      r := 0;
      forall i | 0 < i < |nodes| ensures nodes[i].key != k {
        NotThere(nodes, keySize, tree, k, d, i);
      }
    }

    /** The descent of _sen_sym_get: p0 and p1 are the last two links followed. */
    method Search(k: Key)
      returns (found: bool, s: nat, n0: nat, side0: bool, c0: int, n1: nat, side1: bool, c1: int, ghost d: nat)
      requires Valid() && IsKey(keySize, k) && nodes[0].r != 0
      ensures found ==> 0 < s < |nodes| && nodes[s].key == k
      ensures !found ==> Missed(nodes, tree, k, d, n0, side0, c0, n1, side1, c1, s) && nodes[s].key != k
      ensures n0 < |nodes| && (n0, side0, c0) == Follow(nodes, k, 0, true, -1)
    {
      hide Sorted, IsKey;
      c0, c1 := -1, -1;
      n0, side0, n1, side1 := 0, true, 0, true;
      d := 0;
      PosStart(nodes, keySize, tree, k);
      while true
        invariant Pos(nodes, tree, k, d, n0, side0, c0)
            && (d > 0 ==> n0 > 0 && Pos(nodes, tree, k, d - 1, n1, side1, c1))
        invariant d == 0 ==> LinkOf(nodes[n0], side0) != 0
        invariant Follow(nodes, k, n0, side0, c0) == Follow(nodes, k, 0, true, -1)
        decreases Sub(nodes, tree, k, d)
      {
        var r0 := LinkOf(nodes[n0], side0);
        if r0 == 0 {
          found, s := false, n0;
          NotThere(nodes, keySize, tree, k, d, s);
          return;
        }
        var rn0 := nodes[r0];
        if c0 < rn0.check < Bits(k) {
          PosNext(nodes, tree, k, d, n0, side0, c0);
          c1, n1, side1 := c0, n0, side0;
          c0, n0, side0 := rn0.check, r0, Bit(k, rn0.check);
          d := d + 1;
        } else {
          s := r0;
          StartsSame(keySize, rn0.key, k);
          found := rn0.check < Bits(k) && Starts(rn0.key, k);
          return;
        }
      }
    }

    /** From the header down to the first link to a node that checks a later bit than `c`. */
    method Redescend(k: Key, c: nat, s: nat, ghost d: nat) returns (n: nat, side: bool, ghost e: nat, ghost cp: int)
      requires Valid() && IsKey(keySize, k) && 0 < s < |nodes| && FirstDiff(nodes[s].key, k, c)
      requires d > 0 && Leads(nodes, tree, k, d) && Leads(nodes, tree, k, d - 1)
          && s in Leaves(Sub(nodes, tree, k, d - 1))
      requires var u := Sub(nodes, tree, k, d - 1); u.Inner? && u.id < |nodes| && c < nodes[u.id].check
      ensures Pos(nodes, tree, k, e, n, side, cp) && c > cp
      ensures var u := Sub(nodes, tree, k, e); u.Inner? && s in Leaves(u) && u.id < |nodes| && c < nodes[u.id].check
    {
      hide Sorted, OnSide, IsKey, FirstDiff;
      n, side, e, cp := 0, true, 0, -1;
      PosStart(nodes, keySize, tree, k);
      SubPrefix(nodes, tree, k, d - 1, 0);
      while LinkOf(nodes[n], side) != 0
        invariant Pos(nodes, tree, k, e, n, side, cp) && c > cp && e < d
        invariant s in Leaves(Sub(nodes, tree, k, e))
        decreases d - e
      {
        var r0 := LinkOf(nodes[n], side);
        SubPrefix(nodes, tree, k, d - 1, e);
        if c < nodes[r0].check {
          return;
        }
        SubPrefix(nodes, tree, k, d - 1, e + 1);
        PosNext(nodes, tree, k, e, n, side, cp);
        NotChecked(nodes, tree, k, e, s, c);
        n, side := r0, Bit(k, nodes[r0].check);
        cp, e := nodes[r0].check, e + 1;
      }
      SubPrefix(nodes, tree, k, d - 1, e);
    }

    /** Where the new node goes: the link to be changed, and the bit it checks. */
    method Place(k: Key) returns (found: bool, s: nat, n: nat, side: bool, c: nat, ghost t2: Tree)
      requires Valid() && IsKey(keySize, k) && nodes[0].r != 0
      ensures found ==> 0 < s < |nodes| && nodes[s].key == k
      ensures !found ==> Fits(nodes, keySize, tree, k, n, side, c, t2)
      ensures !found ==> forall i :: 0 < i < |nodes| ==> nodes[i].key != k
      ensures !found && keySize == 0 && PlainKeys(nodes) ==> |nodes| in Inners(t2)
      ensures !found && EndsNowhere(nodes, k) ==>
                n < |nodes| && c < Bits(k) && Insert(nodes, k, c, n, side) == AddNowhere(nodes, k)
    {
      hide Sorted, OnSide, Agree, IsKey, TreeOk, FirstDiff, PlainKeys, Follow, EndsNowhere, AddNowhere, Insert, Fits,
           Inners;
      var n0, side0, c0, n1, side1, c1;
      ghost var d;
      found, s, n0, side0, c0, n1, side1, c1, d := Search(k);
      n, side, c, t2 := n0, side0, 0, tree;
      if found {
        return;
      }
      forall i | 0 < i < |nodes| ensures nodes[i].key != k {
        NotThere(nodes, keySize, tree, k, d, i);
      }
      MissedBelow(nodes, tree, k, d, n0, side0, c0, n1, side1, c1, s);
      KeyAt(nodes, keySize, tree, s);
      c := FindDiff(keySize, nodes[s].key, k);
      DiffAgrees(nodes[s].key, k, c);
      NowhereIs(nodes, k, s, n0, side0, c0, c);
      if c == c0 && LinkOf(nodes[n0], side0) == 0 {
        ghost var c2 := c;
        if c < Bits(k) - 1 {
          c := c + 1;
        } else if keySize == 0 && PlainKeys(nodes) {
          PlainDiff(nodes, tree, k, s);
        }
        t2 := PlaceNowhere(nodes, keySize, tree, k, d, n0, side0, c2, n1, side1, c1, c);
      } else if c < c0 {
        if c > c1 {
          n, side := n1, side1;
          t2 := PlaceAbove(nodes, keySize, tree, k, d - 1, n, side, c1, s, c);
        } else {
          ghost var e, cp;
          n, side, e, cp := Redescend(k, c, s, d);
          t2 := PlaceAbove(nodes, keySize, tree, k, e, n, side, cp, s, c);
        }
      } else {
        if d > 0 && Sub(nodes, tree, k, d) != Null {
          ChildAt(nodes, tree, k, d);
          NotChecked(nodes, tree, k, d - 1, s, c);
        }
        t2 := PlaceHere(nodes, keySize, tree, k, d, n0, side0, c0, n1, side1, c1, s, c);
      }
    }

    /** The new node, linked in. */
    method Add(k: Key, n: nat, side: bool, c: nat, ghost t2: Tree) returns (r: nat)
      requires Valid() && Fits(nodes, keySize, tree, k, n, side, c, t2)
      requires keySize == 0 && PlainKeys(nodes) ==> |nodes| in Inners(t2)
      modifies this
      ensures Valid() && r == old(|nodes|) && Dict() == old(Dict())[k := r]
      ensures nodes == Insert(old(nodes), k, c, n, side)
      ensures |nodes| == r + 1 && nodes[r].key == k && SameKeys(old(nodes), nodes)
    {
      hide DictOf, Sorted, Linked, TreeOk, OthersIdle;
      InsertIs(nodes, k, c, n, side);
      InsertIdle(nodes, keySize, tree, k, n, side, c, t2);
      LeavesGrow(nodes, keySize, tree, Insert(nodes, k, c, n, side), t2);
      r := |nodes|;
      KeysDistinct(nodes, keySize, tree);
      KeysDistinct(Insert(nodes, k, c, n, side), keySize, t2);
      DictSnoc(nodes, Insert(nodes, k, c, n, side), k);
      var old_ := LinkOf(nodes[n], side);
      nodes := nodes[n := SetLink(nodes[n], side, r)] + [NewNode(k, c, r, old_)];
      tree := t2;
      assert keySize == 0 && PlainKeys(nodes) ==> PlainKeys(old(nodes)) by {
        assert forall i :: 0 < i < r ==> nodes[i].key == old(nodes)[i].key;
      }
    }

    /** _sen_sym_get: the id of a key, which is added when it is not there. */
    method Get(k: Key) returns (r: nat, isNew: bool)
      requires Valid() && IsKey(keySize, k)
      modifies this
      ensures Valid()
      ensures Bits(k) > MAX_KEY_LENGTH ==> r == 0 && !isNew && nodes == old(nodes)
      ensures Bits(k) <= MAX_KEY_LENGTH ==>
                && isNew == (k !in old(Dict()))
                && r == (if isNew then old(|nodes|) else old(Dict())[k])
                && Dict() == old(Dict())[k := r]
      ensures !isNew ==> nodes == old(nodes)
      ensures isNew ==> |nodes| == |old(nodes)| + 1 && nodes[r].key == k
      ensures forall i :: 0 < i < |old(nodes)| ==> nodes[i].key == old(nodes)[i].key
      ensures isNew && |old(nodes)| == 1 ==> nodes == Insert(old(nodes), k, Bits(k) - 1, 0, true)
      ensures isNew && EndsNowhere(old(nodes), k) ==> nodes == AddNowhere(old(nodes), k)
    {
      hide TreeOk, IsKey, DictOf, PlainKeys, EndsNowhere, AddNowhere, Insert, OthersIdle, Fits, Inners;
      if Bits(k) > MAX_KEY_LENGTH {
        return 0, false;
      }
      KeysDistinct(nodes, keySize, tree);
      InDict(nodes, k);
      HasHeader(nodes, keySize, tree);
      var n, side, c := 0, true, Bits(k) - 1;
      ghost var t2: Tree;
      if nodes[0].r != 0 {
        var found, s;
        found, s, n, side, c, t2 := Place(k);
        if found {
          return s, false;
        }
      } else {
        t2 := PlaceFirst(nodes, keySize, tree, k);
        NotNowhere(nodes, k);
      }
      isNew := true;
      r := Add(k, n, side, c, t2);
    }
  }

  lemma KeysDistinct(ns: Nodes, keySize: nat, t: Tree)
    requires TreeOk(ns, keySize, t)
    ensures DistinctKeys(ns)
  {
    forall i, j | 0 < i < |ns| && 0 < j < |ns| && ns[i].key == ns[j].key ensures i == j {
      OneKey(ns, t, i, j);
    }
  }

  /** The new node is an inner one, or links only to itself. */
  lemma InsertIdle(ns: Nodes, keySize: nat, t: Tree, k: Key, n: nat, side: bool, c: nat, t2: Tree)
    requires Fits(ns, keySize, t, k, n, side, c, t2) && OthersIdle(ns, t)
    ensures n < |ns| && c < Bits(k) && OthersIdle(Insert(ns, k, c, n, side), t2)
  {
    hide TreeOk, Inners;
    var ns2 := Insert(ns, k, c, n, side);
    forall j: nat | 0 < j < |ns2| && j !in Inners(t2) ensures Idle(ns2, j) {
      if j < |ns| {
        assert Idle(ns, j) && j != n;
      }
    }
  }

  lemma LeavesGrow(ns: Nodes, keySize: nat, t: Tree, ns2: Nodes, t2: Tree)
    requires TreeOk(ns, keySize, t) && TreeOk(ns2, keySize, t2) && |ns2| == |ns| + 1
    ensures Leaves(t2) == Leaves(t) + {|ns|}
  {
    hide KeysOk, Linked, Sorted, Leaves;
  }

  lemma HasHeader(ns: Nodes, keySize: nat, t: Tree)
    requires TreeOk(ns, keySize, t)
    ensures |ns| > 0 && (|ns| == 1 ==> ns[0].r == 0)
  {}

  lemma KeyAt(ns: Nodes, keySize: nat, t: Tree, s: nat)
    requires TreeOk(ns, keySize, t) && 0 < s < |ns|
    ensures IsKey(keySize, ns[s].key)
  {}

  /** The first key. */
  lemma PlaceFirst(ns: Nodes, keySize: nat, t: Tree, k: Key) returns (t2: Tree)
    requires TreeOk(ns, keySize, t) && IsKey(keySize, k) && ns[0].r == 0
    ensures Bits(k) > 0 && Fits(ns, keySize, t, k, 0, true, Bits(k) - 1, t2) && |ns| in Inners(t2)
    ensures |ns| == 1
  {
    var c, ns2 := Bits(k) - 1, Insert(ns, k, Bits(k) - 1, 0, true);
    assert t == Null;
    assert 0 < |ns| && (|ns| > 1 ==> 1 in Leaves(t));
    NewSorted(ns, ns2, Null, k, c);
    t2 := NewTree(k, c, 1, Null);
  }
}
