/**
 * Prefix search in a lexicon of strings (`lib/sym.c`, get_tc and sen_sym_prefix_search_with_set).
 */
module PrefixSearch {
  import opened ByteCodec
  import opened KeyBits
  import opened Patricia
  import opened Lexicon

  lemma StartsBits(a: Key, p: Key)
    ensures Starts(a, p) <==> Agree(a, p, Bits(p))
  {
    if Starts(a, p) {
      assert p[..|p|] == p;
      AgreeBytes(a, p, |p|);
    }
    if Agree(a, p, Bits(p)) {
      forall i | 0 <= i < |p| ensures a[i] == p[i] {
        forall n | 0 <= n < 8 ensures BitOf(a[i], n) == BitOf(p[i], n) {
          BitAt(a, i, n);
          BitAt(p, i, n);
          assert Bit(a, 8 * i + n) == Bit(p, 8 * i + n);
        }
        ByteBits(a[i], p[i]);
      }
    }
  }

  /** get_tc: the nodes below node `id`, on the way down or, with a check before bit `len`, by a link back. */
  method GetTc(ns: Nodes, h: set<nat>, id: nat, len: nat, ghost link: nat, ghost c: int, ghost t: Tree)
    returns (h2: set<nat>)
    requires t.Inner? && t.id == id && Linked(ns, link, c, t)
    ensures forall i: nat :: i in h2 <==>
      i in h || (i in Inners(t) && i != id) || (i in Leaves(t) && i < |ns| && ns[i].check < len)
    decreases t, 0
  {
    var rn := ns[id];
    h2 := GetTcLink(ns, h, rn.r, rn.check, len, t.right);
    h2 := GetTcLink(ns, h2, rn.l, rn.check, len, t.left);
    forall i | i in Inners(t.left) || i in Inners(t.right) ensures i != id {
      if i in Inners(t.left) {
        InnersAbove(ns, rn.l, rn.check, t.left, i);
      } else {
        InnersAbove(ns, rn.r, rn.check, t.right, i);
      }
    }
  }

  method GetTcLink(ns: Nodes, h: set<nat>, id: nat, check: nat, len: nat, ghost t: Tree) returns (h2: set<nat>)
    requires Linked(ns, id, check, t)
    ensures forall i: nat :: i in h2 <==> i in h || i in Inners(t) || (i in Leaves(t) && i < |ns| && ns[i].check < len)
    decreases t, 1
  {
    h2 := h;
    if id != 0 {
      var node := ns[id];
      if node.check > check {
        h2 := h2 + {id};
        h2 := GetTc(ns, h2, id, len, id, check, t);
      } else if node.check < len {
        h2 := h2 + {id};
      }
    }
  }

  /** All keys below a node that checks a bit behind `p` start with `p`, or none does. */
  lemma AllStart(ns: Nodes, t: Tree, p: Key, i: nat)
    requires t.Inner? && Sorted(ns, t) && i in Leaves(t) && Bits(p) <= ns[t.id].check
    ensures i < |ns| && t.id < |ns| && (Starts(ns[i].key, p) <==> Starts(ns[t.id].key, p))
  {
    StartsBits(ns[i].key, p);
    StartsBits(ns[t.id].key, p);
    assert i in Leaves(t.left) || i in Leaves(t.right);
  }

  /** Down as far as the bits of `p` lead. */
  method Descend(ns: Nodes, p: Key, ghost t: Tree)
    returns (r: nat, ghost d: nat, ghost n: nat, ghost side: bool, ghost c: int)
    requires TreeOk(ns, 0, t)
    ensures Pos(ns, t, p, d, n, side, c) && r == LinkOf(ns[n], side)
    ensures r != 0 ==> r < |ns| && !(c < ns[r].check < Bits(p))
  {
    hide Sorted, OnSide, Agree;
    var check: int := -1;
    d, n, side, c := 0, 0, true, check;
    PosStart(ns, 0, t, p);
    r := ns[0].r;
    while r != 0
      invariant Pos(ns, t, p, d, n, side, c) && r == LinkOf(ns[n], side) && check == c
      decreases Sub(ns, t, p, d)
    {
      var rn := ns[r];
      if check < rn.check < Bits(p) {
        PosNext(ns, t, p, d, n, side, c);
        c, n, side, d := rn.check, r, Bit(p, rn.check), d + 1;
        check := rn.check;
        r := if Bit(p, check) then rn.r else rn.l;
      } else {
        break;
      }
    }
  }

  /**
   * What the search finds of the keys that start with `p`: nodes
   * that check one of its bits, or that a link leads down to.
   */
  ghost predicate Found(ns: Nodes, p: Key, h: set<nat>) {
    forall i: nat :: i in h <==> 0 < i < |ns| && Starts(ns[i].key, p) && (ns[i].check < Bits(p) || Entered(ns, i))
  }

  /** What is found, in terms of the bytes of the keys and the links of the nodes. */
  lemma Explained(ns: Nodes, p: Key, h: set<nat>)
    requires |ns| > 0 && Found(ns, p, h)
    ensures forall i: nat :: i in h <==>
        && 0 < i < |ns| && p <= ns[i].key
        && (|| ns[i].check < Bits(p) || ns[0].r == i
            || exists j: nat :: 0 < j < |ns| && ns[j].check < ns[i].check && (ns[j].l == i || ns[j].r == i))
    ensures PlainKeys(ns) && (forall i :: 0 < i < |ns| && PlainKeys(ns) ==> Entered(ns, i)) ==>
        forall i: nat :: i in h <==> 0 < i < |ns| && p <= ns[i].key
  {
    hide PlainKeys;
    forall i: nat | 0 < i < |ns| ensures Starts(ns[i].key, p) <==> p <= ns[i].key {}
    forall i: nat | 0 < i < |ns|
      ensures Entered(ns, i) <==>
          || ns[0].r == i
          || exists j: nat :: 0 < j < |ns| && ns[j].check < ns[i].check && (ns[j].l == i || ns[j].r == i)
    {
      if j: nat :| 0 < j < |ns| && ns[j].check < ns[i].check && (ns[j].l == i || ns[j].r == i) {
        assert LinksDown(ns, j, i);
      }
    }
  }

  /** sen_sym_prefix_search_with_set. */
  method Search(sym: Sym, p: seq<byte>) returns (ok: bool, h: set<nat>)
    requires sym.Valid() && sym.keySize == 0
    ensures ok == (h != {}) && Found(sym.nodes, p, h)
    ensures forall i: nat :: i in h <==>
        && 0 < i < |sym.nodes| && p <= sym.nodes[i].key
        && (|| sym.nodes[i].check < Bits(p) || sym.nodes[0].r == i
            || exists j: nat ::
                 && 0 < j < |sym.nodes| && sym.nodes[j].check < sym.nodes[i].check
                 && (sym.nodes[j].l == i || sym.nodes[j].r == i))
    ensures PlainKeys(sym.nodes) ==> forall i: nat :: i in h <==> 0 < i < |sym.nodes| && p <= sym.nodes[i].key
  {
    hide Sorted, OnSide, Agree, PlainKeys, Starts, Entered, OthersIdle;
    var ns := sym.nodes;
    ghost var t := sym.tree;
    var r;
    ghost var d, n, side, c;
    r, d, n, side, c := Descend(ns, p, t);
    ghost var u := Sub(ns, t, p, d);
    h, ok := {}, r != 0 && Starts(ns[r].key, p);
    if ok {
      h := {r};
      if ns[r].check >= Bits(p) {
        h := GetTc(ns, h, r, Bits(p), r, c, u);
      }
      assert r in h;
    }
    forall i: nat
      ensures i in h <==> 0 < i < |ns| && Starts(ns[i].key, p) && (ns[i].check < Bits(p) || Entered(ns, i))
      ensures 0 < i < |ns| && PlainKeys(ns) ==> Entered(ns, i)
    {
      Collected(ns, t, p, d, n, side, c, r, i);
      if 0 < i < |ns| {
        InnersEntered(ns, 0, t, i);
      }
    }
    Explained(ns, p, h);
  }

  /** Exactly the nodes that hold keys starting with `p`, and are found below the end of its way. */
  lemma Collected(ns: Nodes, t: Tree, p: Key, d: nat, n: nat, side: bool, c: int, r: nat, i: nat)
    requires TreeOk(ns, 0, t) && Inners(t) <= Leaves(t) && Pos(ns, t, p, d, n, side, c) && r == LinkOf(ns[n], side)
    requires r != 0 ==> r < |ns| && !(c < ns[r].check < Bits(p))
    ensures (0 < i < |ns| && Starts(ns[i].key, p) && (i in Inners(t) || ns[i].check < Bits(p))) <==>
            && r != 0 && Starts(ns[r].key, p)
            && (i == r || (ns[r].check >= Bits(p) && var u := Sub(ns, t, p, d);
                           (i in Inners(u) && i != r) || (i in Leaves(u) && i < |ns| && ns[i].check < Bits(p))))
  {
    hide Agree, OnSide;
    var u := Sub(ns, t, p, d);
    SubPrefix(ns, t, p, d, 0);
    InnersHeld(ns, u);
    InnersOfSub(ns, t, p, d);
    if 0 < i < |ns| && Starts(ns[i].key, p) {
      StartsBits(ns[i].key, p);
      StaysBelow(ns, t, p, d, i);
      if i in Inners(t) && ns[i].check >= Bits(p) {
        InnerBelow(ns, t, p, d, i);
      }
    }
    if d > 0 { assert c < Bits(p); }
    if u.Inner? {
      if i in Leaves(u) { AllStart(ns, u, p, i); }
    }
  }

  // ---------------------------------------------------------------- a key that the search misses

  /** "x", and "x\x01" with a third byte that has bit `j - 2` alone. */
  function ChainKey(j: nat): Key {
    if j < 2 then [0x78, 0] else [0x78, 1, Mask(j - 2), 0]
  }

  /** The nodes for the first `m` of them: each hangs at the one before it. */
  ghost predicate Chain(ns: Nodes, m: nat) {
    && 1 <= m <= 9 && |ns| == m + 1 && ns[0] == PatNode(0, 1, 0, [])
    && ns[1] == PatNode(1, if m > 1 then 2 else 0, 15, ChainKey(1))
    && forall j :: 2 <= j <= m ==> ns[j] == PatNode(if j < m then j + 1 else 0, j, 14 + j, ChainKey(j))
  }

  /** A key "x\x01..." without the bits that the nodes check. */
  ghost predicate OffChain(k: Key, m: nat) {
    |k| >= 3 && m <= 9 && k[0] == 0x78 && k[1] == 1 && forall i :: 0 <= i < m - 1 ==> !BitOf(k[2], i)
  }

  lemma {:induction false} FollowChain(ns: Nodes, m: nat, k: Key, j: nat)
    requires Chain(ns, m) && OffChain(k, m) && 2 <= j <= m
    ensures Follow(ns, k, j, false, 14 + j) == (m, false, 14 + m)
    decreases m - j
  {
    hide Mask, BitOf, ChainKey;
    if j < m {
      BitAt(k, 2, j - 1);
      FollowChain(ns, m, k, j + 1);
    }
  }

  lemma FollowAll(ns: Nodes, m: nat, k: Key)
    requires Chain(ns, m) && OffChain(k, m)
    ensures Follow(ns, k, 0, true, -1) == (m, m == 1, 14 + m)
  {
    hide Mask, ChainKey;
    BitAt(k, 1, 7);
    LastBits();
    assert Follow(ns, k, 0, true, -1) == Follow(ns, k, 1, true, 15);
    if m > 1 {
      BitAt(k, 2, 0);
      assert Follow(ns, k, 1, true, 15) == Follow(ns, k, 2, false, 16);
      FollowChain(ns, m, k, 2);
    }
  }

  lemma MaskBits(n: nat, i: nat)
    requires n < 8 && i < 8
    ensures BitOf(Mask(n), i) == (i == n)
  {}

  /** The key of the last node differs from `k` first at the bit that the node checks. */
  lemma ChainDiff(m: nat, k: Key)
    requires 1 <= m && OffChain(k, m)
    ensures FirstDiff(ChainKey(m), k, 14 + m)
  {
    hide Mask, BitOf;
    var a := ChainKey(m);
    var n, i := if m == 1 then 7 else m - 2, if m == 1 then 1 else 2;
    assert a[..i] == k[..i];
    AgreeBytes(a, k, i);
    BitAt(a, i, n);
    BitAt(k, i, n);
    if m == 1 {
      assert !BitOf(0, 7) && BitOf(1, 7) by { LastBits(); }
    } else {
      MaskBits(m - 2, m - 2);
    }
    forall x | 8 * i <= x < 14 + m ensures Bit(a, x) == Bit(k, x) {
      BitAt(a, i, x - 8 * i);
      BitAt(k, i, x - 8 * i);
      if m == 1 { FirstBitsOf1(x - 8); } else { MaskBits(m - 2, x - 16); }
    }
  }

  lemma LastBits()
    ensures !BitOf(0, 7) && BitOf(1, 7)
  {}

  lemma FirstBitsOf1(i: nat)
    requires i < 7
    ensures BitOf(1, i) == BitOf(0, i)
  {}

  /** The next key of the chain checks the next bit. */
  lemma ChainGrows(ns: Nodes, m: nat)
    requires Chain(ns, m) && m < 9
    ensures OffChain(ChainKey(m + 1), m) && EndsNowhere(ns, ChainKey(m + 1)) && IsKey(0, ChainKey(m + 1))
    ensures Follow(ns, ChainKey(m + 1), 0, true, -1).2 + 1 < 32 && Chain(AddNowhere(ns, ChainKey(m + 1)), m + 1)
  {
    hide Mask, BitOf, Follow;
    var k := ChainKey(m + 1);
    forall i | 0 <= i < m - 1 ensures !BitOf(k[2], i) {
      MaskBits(m - 1, i);
    }
    FollowAll(ns, m, k);
    ChainDiff(m, k);
    MaskBits(m - 1, m - 1);
    BitAt(k, 2, m - 1);
  }

  lemma ChainNew(ns: Nodes, m: nat)
    requires Chain(ns, m) && m < 9
    ensures forall i :: 0 < i < |ns| ==> ns[i].key != ChainKey(m + 1)
  {}

  /** The first node of the chain. */
  lemma ChainStarts(ns: Nodes)
    requires ns == [PatNode(0, 0, 0, [])]
    ensures Chain(Insert(ns, ChainKey(1), 15, 0, true), 1) && Bits(ChainKey(1)) == 16 && IsKey(0, ChainKey(1))
  {}

  /** The key "x\x01" after that: no link from a node with a smaller check leads to it. */
  lemma LastMissed(ns: Nodes)
    requires Chain(ns, 9)
    ensures |ns| == 10 && forall i :: 0 < i < |ns| ==> ns[i].key != [0x78, 1, 0]
    ensures
      var k: Key := [0x78, 1, 0];
      && EndsNowhere(ns, k) && Follow(ns, k, 0, true, -1).2 == 23
      && var ns2 := AddNowhere(ns, k);
         |ns2| == 11 && ns2[10].key == k && ns2[10].check == 23 && !Entered(ns2, 10)
  {
    hide Mask, BitOf, Follow;
    var k: Key := [0x78, 1, 0];
    forall i | 0 <= i < 8 ensures !BitOf(0, i) {
      ZeroBit(i);
    }
    FollowAll(ns, 9, k);
    ChainDiff(9, k);
  }

  lemma ZeroBit(i: nat)
    ensures !BitOf(0, i)
  {}

  lemma NotIn(sym: Sym, k: Key)
    requires sym.Valid() && forall i :: 0 < i < |sym.nodes| ==> sym.nodes[i].key != k
    ensures k !in sym.Dict()
  {}

  /** A run after which a prefix search misses a key: ten insertions, and a search for "x\x01". */
  method MissedKey() returns (sym: Sym, r: nat, ok: bool, h: set<nat>)
    ensures sym.Valid() && sym.keySize == 0 && Found(sym.nodes, [0x78, 1], h)
    ensures
      var k: Key := [0x78, 1, 0];
      IsKey(0, k) && k in sym.Dict() && sym.Dict()[k] == r && Starts(k, [0x78, 1]) && r !in h
  {
    hide Chain, AddNowhere, EndsNowhere, Entered, Follow, Sym.Valid, Sym.Dict;
    sym := new Sym(0);
    var isNew;
    ChainStarts(sym.nodes);
    r, isNew := sym.Get(ChainKey(1));
    var m := 1;
    while m < 9
      invariant 1 <= m <= 9 && sym.Valid() && sym.keySize == 0 && Chain(sym.nodes, m)
    {
      ChainGrows(sym.nodes, m);
      ChainNew(sym.nodes, m);
      NotIn(sym, ChainKey(m + 1));
      r, isNew := sym.Get(ChainKey(m + 1));
      m := m + 1;
    }
    LastMissed(sym.nodes);
    NotIn(sym, [0x78, 1, 0]);
    r, isNew := sym.Get([0x78, 1, 0]);
    ok, h := Search(sym, [0x78, 1]);
  }
}
