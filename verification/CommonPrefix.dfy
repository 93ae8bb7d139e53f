/**
 * Common-prefix search in a lexicon of strings (`lib/sym.c`, sen_sym_common_prefix_search): the
 * longest key that the input starts with.
 */
module CommonPrefix {
  import opened KeyBits
  import opened Patricia
  import opened Lexicon

  /** String `a` (with its NUL) is a prefix of string `k`. */
  ghost predicate PrefixOf(a: Key, k: Key) {
    |a| > 0 && Starts(k, a[..|a| - 1])
  }

  /** Where a prefix differs from the string, it has ended. */
  lemma DiffersAtEnd(a: Key, k: Key, c: nat)
    requires IsKey(0, a) && IsKey(0, k) && PrefixOf(a, k)
    requires c < Bits(a) && c < Bits(k) && Bit(a, c) != Bit(k, c)
    ensures c / 8 == |a| - 1 && !Bit(a, c) && Bit(k, c)
  {}

  lemma EndBits(a: Key, c: nat)
    requires |a| > 0 && a[|a| - 1] == 0 && c < Bits(a) && c / 8 == |a| - 1
    ensures !Bit(a, c)
  {}

  /** The key that `p` is if it ends at byte `n` and agrees with the first `n` bytes of `k`. */
  lemma EndsAt(p: Key, k: Key, n: nat)
    requires IsKey(0, p) && IsKey(0, k) && n < |p| && n < |k|
    ensures p[n] == 0 && p[..n] == k[..n] <==> PrefixOf(p, k) && |p| == n + 1
  {}

  /** From the left link of a node, left within the byte `n`, to the only key that may end there. */
  method LeftMost(ns: Nodes, k: Key, n: nat, link: nat, c: nat, ghost t: Tree) returns (r2: nat)
    requires KeysOk(ns, 0) && IsKey(0, k) && n < |k| && Linked(ns, link, c, t) && Sorted(ns, t)
    requires 8 * n <= c < 8 * (n + 1)
    requires forall a :: a in Leaves(t) ==> 0 < a < |ns| && c < Bits(ns[a].key)
    ensures r2 != 0 ==> r2 in Leaves(t) && PrefixOf(ns[r2].key, k) && |ns[r2].key| == n + 1
    ensures r2 == 0 ==> forall a :: a in Leaves(t) ==> !(PrefixOf(ns[a].key, k) && |ns[a].key| == n + 1)
  {
    hide IsKey, Agree, Starts, Bit, PrefixOf;
    var cl, rl := c, link;
    ghost var u := t;
    r2 := 0;
    while rl != 0
      invariant Linked(ns, rl, cl, u) && Sorted(ns, u) && 8 * n <= cl < 8 * (n + 1) && Leaves(u) <= Leaves(t)
      invariant forall a :: a in Leaves(t) && PrefixOf(ns[a].key, k) && |ns[a].key| == n + 1 ==> a in Leaves(u)
      decreases u
    {
      var rnl := ns[rl];
      if 8 * (n + 1) <= rnl.check {
        break;
      }
      if rnl.check <= cl {
        var p := rnl.key;
        EndsAt(p, k, n);
        if p[n] == 0 && p[..n] == k[..n] {
          r2 := rl;
        }
        return;
      }
      forall a | a in Leaves(u.right) ensures !(PrefixOf(ns[a].key, k) && |ns[a].key| == n + 1) {
        if PrefixOf(ns[a].key, k) && |ns[a].key| == n + 1 {
          KeyEnd(ns, a);
          EndBits(ns[a].key, rnl.check);
        }
      }
      u := u.left;
      cl, rl := rnl.check, rnl.l;
    }
  }

  lemma KeyEnd(ns: Nodes, a: nat)
    requires KeysOk(ns, 0) && 0 < a < |ns|
    ensures |ns[a].key| > 0 && ns[a].key[|ns[a].key| - 1] == 0
  {}

  /** A key that is worth finding: not empty, and a prefix of `k`. */
  ghost predicate Wanted(ns: Nodes, k: Key, i: nat) {
    0 < i < |ns| && |ns[i].key| > 1 && PrefixOf(ns[i].key, k)
  }

  /** The best so far is `r2`; the keys below `u` are longer than `len2` bits, and no other is better. */
  ghost predicate Best(ns: Nodes, k: Key, u: Tree, r2: nat, len2: nat) {
    && len2 % 8 == 0 && len2 >= 8
    && (r2 != 0 ==> Wanted(ns, k, r2) && Bits(ns[r2].key) <= len2)
    && (r2 != 0 ==> forall a :: a in Leaves(u) && a < |ns| ==> |ns[a].key| > 1)
    && (forall a :: a in Leaves(u) && Wanted(ns, k, a) ==> Bits(ns[a].key) > len2)
    && (forall i: nat :: Wanted(ns, k, i) && i !in Leaves(u) ==> r2 != 0 && |ns[i].key| <= |ns[r2].key|)
  }

  /** Past node `u`, to the left: a prefix does not have a bit that the string does not have. */
  lemma GoLeft(ns: Nodes, k: Key, u: Tree, r2: nat, len2: nat)
    requires KeysOk(ns, 0) && IsKey(0, k) && Best(ns, k, u, r2, len2) && Sorted(ns, u) && u.Inner?
    requires ns[u.id].check < Bits(k) && !Bit(k, ns[u.id].check)
    ensures Best(ns, k, u.left, r2, len2)
  {
    forall a | a in Leaves(u.right) ensures !Wanted(ns, k, a) {
      if Wanted(ns, k, a) {
        DiffersAtEnd(ns[a].key, k, ns[u.id].check);
      }
    }
  }

  /** ... to the right, when the byte was looked at before: nothing that ends there is left. */
  lemma GoRight(ns: Nodes, k: Key, u: Tree, r2: nat, len2: nat)
    requires KeysOk(ns, 0) && IsKey(0, k) && Best(ns, k, u, r2, len2) && Sorted(ns, u) && u.Inner?
    requires ns[u.id].check < Bits(k) && Bit(k, ns[u.id].check) && len2 > ns[u.id].check
    ensures Best(ns, k, u.right, r2, len2)
  {
    hide IsKey, Bit, Starts, Agree, Wanted;
    forall a | a in Leaves(u.left) ensures !Wanted(ns, k, a) {
      EndsBefore(ns, k, u, r2, len2, a);
    }
    forall a | a in Leaves(u.right) && r2 != 0 && a < |ns| ensures |ns[a].key| > 1 {
      assert a in Leaves(u);
    }
  }

  lemma WholeBytes(c: nat, len: nat)
    requires len % 8 == 0 && c < len
    ensures 8 * (c / 8 + 1) <= len
  {}

  lemma EndsBefore(ns: Nodes, k: Key, u: Tree, r2: nat, len2: nat, a: nat)
    requires KeysOk(ns, 0) && IsKey(0, k) && Best(ns, k, u, r2, len2) && Sorted(ns, u) && u.Inner?
    requires ns[u.id].check < Bits(k) && Bit(k, ns[u.id].check) && len2 > ns[u.id].check
    requires a in Leaves(u.left)
    ensures !Wanted(ns, k, a)
  {
    hide IsKey, Bit, Starts, Agree;
    var c := ns[u.id].check;
    WholeBytes(c, len2);
    if Wanted(ns, k, a) {
      assert Bits(ns[a].key) > len2;
      DiffersAtEnd(ns[a].key, k, c);
    }
  }

  /** ... or after the one key that may end there has been looked for on the left. */
  lemma GoRightFound(ns: Nodes, k: Key, u: Tree, r2: nat, len2: nat, r3: nat)
    requires KeysOk(ns, 0) && IsKey(0, k) && Best(ns, k, u, r2, len2) && Sorted(ns, u) && u.Inner?
    requires ns[u.id].check < Bits(k) && Bit(k, ns[u.id].check) && len2 <= ns[u.id].check
    requires
      var n := ns[u.id].check / 8;
      if r3 != 0 then r3 in Leaves(u.left) && PrefixOf(ns[r3].key, k) && |ns[r3].key| == n + 1
      else forall a :: a in Leaves(u.left) ==> !(PrefixOf(ns[a].key, k) && |ns[a].key| == n + 1)
    ensures Best(ns, k, u.right, if r3 != 0 then r3 else r2, 8 * (ns[u.id].check / 8 + 1))
  {
    hide IsKey, PrefixOf, Bit, Starts, Agree, Best;
    var n := ns[u.id].check / 8;
    forall a | a in Leaves(u) && Wanted(ns, k, a)
      ensures if a in Leaves(u.right) then Bits(ns[a].key) > 8 * (n + 1) else r3 != 0 && |ns[a].key| == n + 1
    {
      EndsWhere(ns, k, u, a);
    }
    BestRight(ns, k, u, r2, len2, r3, n);
  }

  lemma BestRight(ns: Nodes, k: Key, u: Tree, r2: nat, len2: nat, r3: nat, n: nat)
    requires Best(ns, k, u, r2, len2) && u.Inner? && len2 <= 8 * n + 7
    requires forall a :: a in Leaves(u) && Wanted(ns, k, a) ==>
               if a in Leaves(u.right) then Bits(ns[a].key) > 8 * (n + 1) else r3 != 0 && |ns[a].key| == n + 1
    requires r3 != 0 ==> r3 < |ns| && PrefixOf(ns[r3].key, k) && |ns[r3].key| == n + 1
    requires forall a :: a in Leaves(u.right) && a < |ns| ==> |ns[a].key| > n
    ensures Best(ns, k, u.right, if r3 != 0 then r3 else r2, 8 * (n + 1))
  {
    hide PrefixOf;
  }

  /** A prefix of the string is longer on the right of a node, and ends there on the left. */
  lemma EndsWhere(ns: Nodes, k: Key, u: Tree, a: nat)
    requires KeysOk(ns, 0) && IsKey(0, k) && Sorted(ns, u) && u.Inner? && a in Leaves(u) && Wanted(ns, k, a)
    requires ns[u.id].check < Bits(k) && Bit(k, ns[u.id].check)
    ensures
      var n := ns[u.id].check / 8;
      if a in Leaves(u.right) then Bits(ns[a].key) > 8 * (n + 1) else a in Leaves(u.left) && |ns[a].key| == n + 1
  {
    hide IsKey, Bit, Starts, Agree, PrefixOf;
    var c := ns[u.id].check;
    if a in Leaves(u.right) {
      KeyPast(ns, k, a, c);
    } else {
      DiffersAtEnd(ns[a].key, k, c);
    }
  }

  lemma KeyPast(ns: Nodes, k: Key, a: nat, c: nat)
    requires KeysOk(ns, 0) && IsKey(0, k) && Wanted(ns, k, a)
    requires c < Bits(ns[a].key) && c < Bits(k) && Bit(ns[a].key, c)
    ensures |ns[a].key| > c / 8 + 1
  {}

  /** Below a node that checks a bit behind the end of the string there is no prefix of it. */
  lemma NoneBehind(ns: Nodes, k: Key, u: Tree, a: nat)
    requires KeysOk(ns, 0) && IsKey(0, k) && Sorted(ns, u) && u.Inner? && a in Leaves(u) && Bits(k) <= ns[u.id].check
    ensures !Wanted(ns, k, a)
  {}

  lemma NulAtEnd(k: Key, len: nat)
    requires IsKey(0, k)
    ensures |k| > 0 && k[|k| - 1] == 0 && (len < |k| && k[len] == 0 ==> len == |k| - 1)
  {}

  lemma StartBest(ns: Nodes, k: Key, u: Tree)
    requires forall i :: i in Leaves(u) <==> 0 < i < |ns|
    ensures Best(ns, k, u, 0, 8)
  {}

  /** Nothing wanted is left below `u`. */
  lemma NoMore(ns: Nodes, k: Key, u: Tree, r2: nat, len2: nat)
    requires Best(ns, k, u, r2, len2) && forall a :: a in Leaves(u) ==> !Wanted(ns, k, a)
    ensures r2 != 0 ==> r2 < |ns| && |ns[r2].key| > 1 && PrefixOf(ns[r2].key, k)
    ensures forall i: nat :: Wanted(ns, k, i) ==> r2 != 0 && |ns[i].key| <= |ns[r2].key|
  {}

  /** The last key there is: better than any other, if it is a prefix. */
  lemma LastOne(ns: Nodes, k: Key, r: nat, r2: nat, len2: nat)
    requires KeysOk(ns, 0) && 0 < r < |ns| && Best(ns, k, Leaf(r), r2, len2)
    ensures PrefixOf(ns[r].key, k) ==> forall i: nat :: Wanted(ns, k, i) ==> |ns[i].key| <= |ns[r].key|
  {}

  /** The bytes of the string before byte `n`; does it end there? */
  method PassBytes(k: Key, len: nat, n: nat) returns (ended: bool, len1: nat)
    requires IsKey(0, k) && len <= n && len < |k| && forall i :: 0 <= i < len ==> k[i] != 0
    ensures len1 <= n && len1 < |k| && forall i :: 0 <= i < len1 ==> k[i] != 0
    ensures if ended then |k| <= n else len1 == n
  {
    NulAtEnd(k, 0);
    ended, len1 := false, len;
    while len1 < n
      invariant len1 <= n && len1 < |k| && forall i :: 0 <= i < len1 ==> k[i] != 0
    {
      if k[len1] == 0 {
        NulAtEnd(k, len1);
        return true, len1;
      }
      len1 := len1 + 1;
    }
  }

  /** At a node: the next link, and the best so far. */
  method Step(ns: Nodes, k: Key, r: nat, len2: nat, r2: nat, ghost u: Tree)
    returns (next: nat, nextLen2: nat, nextR2: nat, ghost v: Tree)
    requires KeysOk(ns, 0) && IsKey(0, k) && u.Inner? && r == u.id && 0 < r < |ns| && ns[r].check < Bits(k)
    requires Sorted(ns, u) && Linked(ns, ns[r].l, ns[r].check, u.left) && Best(ns, k, u, r2, len2)
    ensures (v == u.left && next == ns[r].l) || (v == u.right && next == ns[r].r)
    ensures next == LinkOf(ns[r], Bit(k, ns[r].check))
    ensures Best(ns, k, v, nextR2, nextLen2)
  {
    hide IsKey, Bit, Starts, Agree, Best;
    var rn := ns[r];
    var n := rn.check / 8;
    nextLen2, nextR2 := len2, r2;
    if Bit(k, rn.check) {
      next, v := rn.r, u.right;
      if len2 <= rn.check {
        nextLen2 := (n + 1) * 8;
        var r3 := LeftMost(ns, k, n, rn.l, rn.check, u.left);
        GoRightFound(ns, k, u, r2, len2, r3);
        if r3 != 0 {
          nextR2 := r3;
        }
      } else {
        GoRight(ns, k, u, r2, len2);
      }
    } else {
      next, v := rn.l, u.left;
      GoLeft(ns, k, u, r2, len2);
    }
  }

  /** The bits of `k` lead to a link back to the empty key. */
  predicate LedToEmpty(ns: Nodes, k: Key)
    requires |ns| > 0
  {
    var (n, side, c) := Follow(ns, k, 0, true, -1);
    var e := LinkOf(ns[n], side);
    0 < e < |ns| && ns[e].check <= c && |ns[e].key| == 1
  }

  /** A link that `k` leads to, from a node that checks bit `c`. */
  ghost predicate Led(ns: Nodes, k: Key, r: nat, c: int) {
    |ns| > 0 &&
    exists n: nat, side: bool :: n < |ns| && r == LinkOf(ns[n], side)
      && Follow(ns, k, n, side, c) == Follow(ns, k, 0, true, -1)
  }

  lemma LedOn(ns: Nodes, k: Key, r: nat, c: int)
    requires Led(ns, k, r, c) && 0 < r < |ns| && c < ns[r].check < Bits(k)
    ensures Led(ns, k, LinkOf(ns[r], Bit(k, ns[r].check)), ns[r].check)
  {}

  lemma LedEnds(ns: Nodes, k: Key, r: nat, c: int)
    requires Led(ns, k, r, c) && !(0 < r < |ns| && c < ns[r].check < Bits(k))
    ensures |ns| > 0 && (LedToEmpty(ns, k) <==> 0 < r < |ns| && ns[r].check <= c && |ns[r].key| == 1)
  {}

  lemma LedStart(ns: Nodes, k: Key)
    requires |ns| > 0
    ensures Led(ns, k, ns[0].r, -1)
  {
    assert ns[0].r == LinkOf(ns[0], true);
  }

  /** What the search finds, in terms of the bytes of the keys. */
  lemma Explained(ns: Nodes, k: Key, r: nat)
    requires r != 0 ==> r < |ns| && PrefixOf(ns[r].key, k)
    requires forall i: nat :: Wanted(ns, k, i) ==> r != 0 && |ns[i].key| <= |ns[r].key|
    ensures r != 0 ==> |ns[r].key| > 0 && ns[r].key[..|ns[r].key| - 1] <= k
    ensures forall i :: 0 < i < |ns| ==>
        var a := ns[i].key;
        |a| > 1 && a[..|a| - 1] <= k ==> r != 0 && |a| <= |ns[r].key|
  {
    forall i: nat | 0 < i < |ns| && |ns[i].key| > 1 && ns[i].key[..|ns[i].key| - 1] <= k ensures Wanted(ns, k, i) {}
  }

  /**
   * sen_sym_common_prefix_search: the longest non-empty key that `k` starts with, if there is one;
   * the empty key only if the bits of `k` lead to it.
   */
  method Search(sym: Sym, k: Key) returns (r: nat)
    requires sym.Valid() && sym.keySize == 0 && IsKey(0, k)
    ensures r != 0 ==> r < |sym.nodes| && |sym.nodes[r].key| > 0
    ensures r != 0 ==> sym.nodes[r].key[..|sym.nodes[r].key| - 1] <= k
    ensures forall i :: 0 < i < |sym.nodes| ==>
        var a := sym.nodes[i].key;
        |a| > 1 && a[..|a| - 1] <= k ==> r != 0 && |a| <= |sym.nodes[r].key|
    ensures |sym.nodes| > 0 && (r != 0 && |sym.nodes[r].key| == 1 <==> LedToEmpty(sym.nodes, k))
  {
    hide IsKey, Bit, Starts, OnSide, Agree, Best, Wanted, Led, LedToEmpty, Follow, OthersIdle;
    NulAtEnd(k, 0);
    var ns, c: int, len: nat, len2: nat, r2: nat := sym.nodes, -1, 0, 8, 0;
    ghost var u := sym.tree;
    r := ns[0].r;
    StartBest(ns, k, u);
    LedStart(ns, k);
    while r != 0
      invariant KeysOk(ns, 0) && Linked(ns, r, c, u) && Sorted(ns, u) && Best(ns, k, u, r2, len2) && Led(ns, k, r, c)
      invariant 8 * len <= c + 1 && len < |k| && forall i :: 0 <= i < len ==> k[i] != 0
      decreases u
    {
      var rn := ns[r];
      if rn.check <= c {
        var p := rn.key;
        KeyEnd(ns, r);
        LastOne(ns, k, r, r2, len2);
        LedEnds(ns, k, r, c);
        StartsNone(ns[r].key, k);
        if Starts(k, p[..|p| - 1]) {
          Explained(ns, k, r);
          return r;
        }
        break;
      }
      ghost var above := c;
      c := rn.check;
      var n := rn.check / 8;
      var ended;
      ended, len := PassBytes(k, len, n);
      if ended {
        forall a | a in Leaves(u) ensures !Wanted(ns, k, a) {
          NoneBehind(ns, k, u, a);
        }
        LedEnds(ns, k, r, above);
        break;
      }
      LedOn(ns, k, r, above);
      r, len2, r2, u := Step(ns, k, r, len2, r2, u);
    }
    if r == 0 {
      LedEnds(ns, k, r, c);
    }
    NotWanted(ns, k, r);
    NoMore(ns, k, u, r2, len2);
    Explained(ns, k, r2);
    return r2;
  }

  lemma NotWanted(ns: Nodes, k: Key, r: nat)
    ensures 0 < r < |ns| && !PrefixOf(ns[r].key, k) ==> !Wanted(ns, k, r)
  {}

  lemma StartsNone(a: Key, k: Key)
    ensures |a| == 1 ==> Starts(k, a[..|a| - 1])
  {}

  // ---------------------------------------------------------------- the empty key is missed

  /** In a lexicon with the empty key alone, the bits of "a" lead nowhere. */
  lemma EmptyNotLed()
    ensures var k: Key := [0x61, 0]; IsKey(0, k) && !LedToEmpty(Insert([PatNode(0, 0, 0, [])], [0], 7, 0, true), k)
  {}

  /** Every string starts with the empty key, and yet it is not found. */
  method MissedEmpty() returns (sym: Sym, r: nat)
    ensures sym.Valid() && sym.keySize == 0 && [0] in sym.Dict() && PrefixOf([0], [0x61, 0]) && r == 0
  {
    hide Sym.Valid, Sym.Dict, LedToEmpty;
    sym := new Sym(0);
    EmptyNotLed();
    var e, isNew := sym.Get([0]);
    r := Search(sym, [0x61, 0]);
  }
}
