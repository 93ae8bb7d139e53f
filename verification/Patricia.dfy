/**
 * The shape of the Patricia tree of a lexicon (`lib/sym.c`).
 *
 * A node tests one bit of a key, and its two links lead down to a node that tests a later bit, or
 * back up (a link to a node whose check is not larger) to the node that holds the key. One link
 * leads nowhere. Node 0 is the header; its `r` leads to the root.
 */
module Patricia {
  import opened KeyBits

  datatype PatNode = PatNode(l: nat, r: nat, check: nat, key: Key)

  type Nodes = seq<PatNode>

  /** What the links mean: a link back is a leaf. */
  datatype Tree = Null | Leaf(id: nat) | Inner(id: nat, left: Tree, right: Tree)

  function LinkOf(n: PatNode, right: bool): nat {
    if right then n.r else n.l
  }

  function SetLink(n: PatNode, right: bool, v: nat): PatNode {
    if right then n.(r := v) else n.(l := v)
  }

  ghost function Leaves(t: Tree): set<nat> {
    match t
    case Null => {}
    case Leaf(id) => {id}
    case Inner(_, l, r) => Leaves(l) + Leaves(r)
  }

  ghost function Inners(t: Tree): set<nat> {
    match t
    case Inner(id, l, r) => {id} + Inners(l) + Inners(r)
    case _ => {}
  }

  /** The link `link`, followed from a node that checks bit `c`, leads to the tree `t`. */
  ghost predicate Linked(ns: Nodes, link: nat, c: int, t: Tree)
    decreases t
  {
    match t
    case Null => link == 0
    case Leaf(id) => link == id && 0 < id < |ns| && ns[id].check <= c
    case Inner(id, l, r) =>
      && link == id && 0 < id < |ns| && c < ns[id].check
      && Linked(ns, ns[id].l, ns[id].check, l) && Linked(ns, ns[id].r, ns[id].check, r)
  }

  /** The keys in `t` agree with that of node `id` before its check, and have `side` there. */
  ghost predicate OnSide(ns: Nodes, t: Tree, id: nat, side: bool) {
    && id < |ns|
    && forall a :: a in Leaves(t) ==>
         && 0 < a < |ns| && ns[id].check < Bits(ns[a].key)
         && Agree(ns[a].key, ns[id].key, ns[id].check) && Bit(ns[a].key, ns[id].check) == side
  }

  /** Every node separates the keys below it by its bit, and its own key is one of them. */
  ghost predicate Sorted(ns: Nodes, t: Tree) {
    match t
    case Inner(id, l, r) =>
      && 0 < id < |ns| && id in Leaves(t)
      && OnSide(ns, l, id, false) && OnSide(ns, r, id, true) && Sorted(ns, l) && Sorted(ns, r)
    case _ => true
  }

  ghost predicate KeysOk(ns: Nodes, keySize: nat) {
    forall i :: 0 < i < |ns| ==> IsKey(keySize, ns[i].key) && ns[i].check < Bits(ns[i].key)
  }

  ghost predicate TreeOk(ns: Nodes, keySize: nat, t: Tree) {
    |ns| > 0 && KeysOk(ns, keySize) && Linked(ns, ns[0].r, -1, t) && Sorted(ns, t)
    && forall i :: i in Leaves(t) <==> 0 < i < |ns|
  }

  // ---------------------------------------------------------------- the way down

  function Child(ns: Nodes, t: Tree, k: Key): Tree
    requires t.Inner? && t.id < |ns| && ns[t.id].check < Bits(k)
  {
    if Bit(k, ns[t.id].check) then t.right else t.left
  }

  /** The bits of `k` lead `d` steps down. */
  ghost predicate Leads(ns: Nodes, t: Tree, k: Key, d: nat) {
    d > 0 ==> t.Inner? && 0 < t.id < |ns| && ns[t.id].check < Bits(k) && Leads(ns, Child(ns, t, k), k, d - 1)
  }

  ghost function Sub(ns: Nodes, t: Tree, k: Key, d: nat): Tree
    requires Leads(ns, t, k, d)
    decreases d
  {
    if d == 0 then t else Sub(ns, Child(ns, t, k), k, d - 1)
  }

  lemma {:induction false} SubNext(ns: Nodes, t: Tree, k: Key, d: nat)
    requires Leads(ns, t, k, d)
    requires var s := Sub(ns, t, k, d); s.Inner? && 0 < s.id < |ns| && ns[s.id].check < Bits(k)
    ensures Leads(ns, t, k, d + 1) && Sub(ns, t, k, d + 1) == Child(ns, Sub(ns, t, k, d), k)
    decreases d
  {
    if d > 0 {
      SubNext(ns, Child(ns, t, k), k, d - 1);
    }
  }

  lemma {:induction false} SubPrefix(ns: Nodes, t: Tree, k: Key, d: nat, e: nat)
    requires Leads(ns, t, k, d) && e <= d
    ensures Leads(ns, t, k, e) && Leaves(Sub(ns, t, k, d)) <= Leaves(Sub(ns, t, k, e))
    ensures e < d ==> var s := Sub(ns, t, k, e); s.Inner? && 0 < s.id < |ns| && ns[s.id].check < Bits(k)
    decreases d
  {
    if d > 0 {
      if e > 0 {
        SubPrefix(ns, Child(ns, t, k), k, d - 1, e - 1);
      } else {
        SubPrefix(ns, Child(ns, t, k), k, d - 1, 0);
      }
    }
  }

  /** A key that starts with the bits of `k` is wherever these lead. */
  lemma {:induction false} StaysBelow(ns: Nodes, t: Tree, k: Key, d: nat, a: nat)
    requires Leads(ns, t, k, d) && Sorted(ns, t) && a in Leaves(t) && a < |ns| && Agree(ns[a].key, k, Bits(k))
    ensures a in Leaves(Sub(ns, t, k, d))
    decreases d
  {
    if d > 0 {
      StaysBelow(ns, Child(ns, t, k), k, d - 1, a);
    }
  }

  // ---------------------------------------------------------------- a new sub-tree in its place

  ghost function Graft(ns: Nodes, t: Tree, k: Key, d: nat, new_: Tree): Tree
    requires Leads(ns, t, k, d)
    decreases d
  {
    if d == 0 then new_
    else
      var u := Graft(ns, Child(ns, t, k), k, d - 1, new_);
      if Bit(k, ns[t.id].check) then t.(right := u) else t.(left := u)
  }

  /** Node `at` gets another link on `side`, and there is a new node. */
  ghost predicate Relinked(ns: Nodes, ns2: Nodes, at: nat, side: bool, v: nat) {
    && at < |ns| && |ns2| == |ns| + 1
    && ns2[at] == SetLink(ns[at], side, v)
    && forall i :: 0 <= i < |ns| && i != at ==> ns2[i] == ns[i]
  }

  lemma {:induction false} InnersAbove(ns: Nodes, link: nat, c: int, t: Tree, i: nat)
    requires Linked(ns, link, c, t) && i in Inners(t)
    ensures 0 < i < |ns| && ns[i].check > c
    decreases t
  {
    if t.Inner? && i != t.id {
      if i in Inners(t.left) {
        InnersAbove(ns, ns[t.id].l, ns[t.id].check, t.left, i);
      } else {
        InnersAbove(ns, ns[t.id].r, ns[t.id].check, t.right, i);
      }
    }
  }

  lemma {:induction false} InnersHeld(ns: Nodes, t: Tree)
    requires Sorted(ns, t)
    ensures Inners(t) <= Leaves(t)
  {
    if t.Inner? {
      InnersHeld(ns, t.left);
      InnersHeld(ns, t.right);
    }
  }

  lemma {:induction false} LinkedFrame(ns: Nodes, ns2: Nodes, link: nat, c: int, t: Tree, at: nat, side: bool, v: nat)
    requires Linked(ns, link, c, t) && Relinked(ns, ns2, at, side, v) && at !in Inners(t)
    ensures Linked(ns2, link, c, t)
    decreases t
  {
    if t.Inner? {
      LinkedFrame(ns, ns2, ns[t.id].l, ns[t.id].check, t.left, at, side, v);
      LinkedFrame(ns, ns2, ns[t.id].r, ns[t.id].check, t.right, at, side, v);
    }
  }

  /** The two sides of a node have no node in common. */
  lemma SidesApart(ns: Nodes, t: Tree, i: nat)
    requires Sorted(ns, t) && t.Inner?
    ensures !(i in Inners(t.left) && i in Inners(t.right))
  {
    InnersHeld(ns, t.left);
    InnersHeld(ns, t.right);
  }

  /** The node from which the d-th link leads on. */
  ghost function ParentId(ns: Nodes, t: Tree, k: Key, d: nat): nat
    requires d > 0 && Leads(ns, t, k, d)
    decreases d
  {
    if d == 1 then t.id else ParentId(ns, Child(ns, t, k), k, d - 1)
  }

  lemma {:induction false} ParentInner(ns: Nodes, link: nat, c: int, t: Tree, k: Key, d: nat)
    requires d > 0 && Leads(ns, t, k, d) && Linked(ns, link, c, t)
    ensures
      var p := ParentId(ns, t, k, d);
      p in Inners(t) && p < |ns| && ns[p].check < Bits(k) && c < ns[t.id].check <= ns[p].check
    decreases d
  {
    if d > 1 {
      ParentInner(ns, LinkOf(ns[t.id], Bit(k, ns[t.id].check)), ns[t.id].check, Child(ns, t, k), k, d - 1);
    }
  }

  /** The link of which `new_` hangs is changed, and there is a new node. */
  ghost predicate Grafted(ns: Nodes, ns2: Nodes, t: Tree, k: Key, d: nat, v: nat, new_: Tree)
    requires d > 0 && Leads(ns, t, k, d)
  {
    var p := ParentId(ns, t, k, d);
    && p < |ns| && ns[p].check < Bits(k)
    && Relinked(ns, ns2, p, Bit(k, ns[p].check), v) && Linked(ns2, v, ns[p].check, new_)
  }

  /** What hangs on the other side of the root is untouched. */
  lemma OtherSide(ns: Nodes, ns2: Nodes, link: nat, c: int, t: Tree, k: Key, d: nat, v: nat, new_: Tree)
    requires d > 0 && Leads(ns, t, k, d) && Linked(ns, link, c, t) && Sorted(ns, t)
        && Grafted(ns, ns2, t, k, d, v, new_)
    ensures
      var bit := Bit(k, ns[t.id].check);
      && t.id < |ns2| && ns2[t.id].check == ns[t.id].check
      && LinkOf(ns2[t.id], !bit) == LinkOf(ns[t.id], !bit)
      && Linked(ns2, LinkOf(ns[t.id], !bit), ns[t.id].check, if bit then t.left else t.right)
  {
    hide Agree;
    var p, bit := ParentId(ns, t, k, d), Bit(k, ns[t.id].check);
    var other := if bit then t.left else t.right;
    if p in Inners(other) {
      InnersAbove(ns, LinkOf(ns[t.id], !bit), ns[t.id].check, other, p);
      if d > 1 {
        ParentInner(ns, LinkOf(ns[t.id], bit), ns[t.id].check, Child(ns, t, k), k, d - 1);
        SidesApart(ns, t, p);
      }
    }
    ParentInner(ns, link, c, t, k, d);
    if d > 1 {
      ParentInner(ns, LinkOf(ns[t.id], bit), ns[t.id].check, Child(ns, t, k), k, d - 1);
    }
    LinkedFrame(ns, ns2, LinkOf(ns[t.id], !bit), ns[t.id].check, other, p, Bit(k, ns[p].check), v);
  }

  lemma {:induction false} GraftLinked(ns: Nodes, ns2: Nodes, link: nat, c: int, t: Tree, k: Key, d: nat, v: nat,
                                       new_: Tree)
    requires d > 0 && Leads(ns, t, k, d) && Linked(ns, link, c, t) && Sorted(ns, t)
        && Grafted(ns, ns2, t, k, d, v, new_)
    ensures Linked(ns2, link, c, Graft(ns, t, k, d, new_))
    decreases d
  {
    hide Agree, Sorted;
    OtherSide(ns, ns2, link, c, t, k, d, v, new_);
    if d > 1 {
      var bit := Bit(k, ns[t.id].check);
      ParentInner(ns, LinkOf(ns[t.id], bit), ns[t.id].check, Child(ns, t, k), k, d - 1);
      SortedChild(ns, t, k);
      GraftLinked(ns, ns2, LinkOf(ns[t.id], bit), ns[t.id].check, Child(ns, t, k), k, d - 1, v, new_);
    }
  }

  lemma SortedChild(ns: Nodes, t: Tree, k: Key)
    requires Sorted(ns, t) && t.Inner? && t.id < |ns| && ns[t.id].check < Bits(k)
    ensures Sorted(ns, Child(ns, t, k))
  {}

  // ---------------------------------------------------------------- nodes that links lead down to

  /** The header, or a node that checks an earlier bit, links to node `i`. */
  ghost predicate Entered(ns: Nodes, i: nat)
    requires i < |ns|
  {
    ns[0].r == i || exists j: nat :: LinksDown(ns, j, i)
  }

  ghost predicate LinksDown(ns: Nodes, j: nat, i: nat)
    requires i < |ns|
  {
    0 < j < |ns| && ns[j].check < ns[i].check && (ns[j].l == i || ns[j].r == i)
  }

  /** A node that links to nothing, except perhaps back to itself. */
  predicate Idle(ns: Nodes, j: nat)
    requires j < |ns|
  {
    (ns[j].l == 0 || ns[j].l == j) && (ns[j].r == 0 || ns[j].r == j)
  }

  ghost predicate OthersIdle(ns: Nodes, t: Tree) {
    forall j: nat :: 0 < j < |ns| && j !in Inners(t) ==> Idle(ns, j)
  }

  lemma {:induction false} LinkIn(ns: Nodes, link: nat, c: int, t: Tree, j: nat, i: nat)
    requires Linked(ns, link, c, t) && j in Inners(t) && 0 < i < |ns| && LinksDown(ns, j, i)
    ensures i in Inners(t)
    decreases t
  {
    if j != t.id {
      if j in Inners(t.left) {
        LinkIn(ns, ns[t.id].l, ns[t.id].check, t.left, j, i);
      } else {
        LinkIn(ns, ns[t.id].r, ns[t.id].check, t.right, j, i);
      }
    }
  }

  lemma {:induction false} LinkTo(ns: Nodes, link: nat, c: int, t: Tree, i: nat)
    requires Linked(ns, link, c, t) && i in Inners(t)
    ensures i < |ns| && (i == link || exists j: nat :: LinksDown(ns, j, i))
    decreases t
  {
    if i != t.id {
      var right := i in Inners(t.right);
      var u := if right then t.right else t.left;
      LinkTo(ns, LinkOf(ns[t.id], right), ns[t.id].check, u, i);
      if i == u.id {
        assert LinksDown(ns, t.id, i);
      }
    }
  }

  /** The inner nodes are those that links lead down to. */
  lemma InnersEntered(ns: Nodes, keySize: nat, t: Tree, i: nat)
    requires TreeOk(ns, keySize, t) && OthersIdle(ns, t) && 0 < i < |ns|
    ensures i in Inners(t) <==> Entered(ns, i)
  {
    hide Sorted, KeysOk;
    if i in Inners(t) {
      LinkTo(ns, ns[0].r, -1, t, i);
    }
    if j: nat :| LinksDown(ns, j, i) {
      if j in Inners(t) {
        LinkIn(ns, ns[0].r, -1, t, j, i);
      } else {
        assert Idle(ns, j);
      }
    }
  }

  // ---------------------------------------------------------------- keys of the grafted tree

  /** Keys and checks of the old nodes are the same. */
  ghost predicate SameKeys(ns: Nodes, ns2: Nodes) {
    |ns| <= |ns2| && forall i :: 0 <= i < |ns| ==> ns2[i].key == ns[i].key && ns2[i].check == ns[i].check
  }

  lemma {:induction false} SortedFrame(ns: Nodes, ns2: Nodes, t: Tree)
    requires Sorted(ns, t) && SameKeys(ns, ns2)
    ensures Sorted(ns2, t)
  {
    if t.Inner? {
      SortedFrame(ns, ns2, t.left);
      SortedFrame(ns, ns2, t.right);
    }
  }

  /** Key `k` agrees with that of node `i` up to its check, by way of the key of node `s`. */
  lemma AgreeVia(ns: Nodes, i: nat, s: nat, k: Key, c: nat)
    requires i < |ns| && s < |ns| && Agree(k, ns[s].key, c) && Agree(ns[s].key, ns[i].key, ns[i].check)
        && ns[i].check <= c
    ensures Agree(k, ns[i].key, ns[i].check)
  {}

  /** On the way down, node `s` is always below, and no check is larger than `c`. */
  ghost predicate OnWay(ns: Nodes, t: Tree, k: Key, d: nat, s: nat, c: int)
    requires Leads(ns, t, k, d)
    decreases d
  {
    d > 0 ==> s in Leaves(t) && ns[t.id].check <= c && OnWay(ns, Child(ns, t, k), k, d - 1, s, c)
  }

  lemma {:induction false} OnTheWay(ns: Nodes, link: nat, lc: int, t: Tree, k: Key, d: nat, s: nat, c: int)
    requires d > 0 && Leads(ns, t, k, d) && Linked(ns, link, lc, t)
    requires Leads(ns, t, k, d - 1) && s in Leaves(Sub(ns, t, k, d - 1))
    requires var p := Sub(ns, t, k, d - 1); p.Inner? && p.id < |ns| && ns[p.id].check <= c
    ensures OnWay(ns, t, k, d, s, c)
    decreases d
  {
    SubPrefix(ns, t, k, d - 1, 0);
    if d > 1 {
      var u := Child(ns, t, k);
      OnTheWay(ns, LinkOf(ns[t.id], Bit(k, ns[t.id].check)), ns[t.id].check, u, k, d - 1, s, c);
      assert ns[t.id].check < ns[u.id].check;
    }
  }

  lemma OnSideMore(ns: Nodes, ns2: Nodes, t: Tree, t2: Tree, id: nat, side: bool)
    requires OnSide(ns, t, id, side) && SameKeys(ns, ns2) && |ns| < |ns2| && Leaves(t2) <= Leaves(t) + {|ns|}
    requires var k := ns2[|ns|].key;
             |ns| in Leaves(t2) ==>
                |ns| > 0 && ns[id].check < Bits(k) && Agree(k, ns[id].key, ns[id].check) && Bit(k, ns[id].check) == side
    ensures OnSide(ns2, t2, id, side)
  {}

  /** The grafted tree is sorted, if the new key agrees with one in the tree up to all checks on the way. */
  lemma {:induction false} GraftSorted(ns: Nodes, ns2: Nodes, t: Tree, k: Key, d: nat, new_: Tree, s: nat, c: nat)
    requires Leads(ns, t, k, d) && Sorted(ns, t) && SameKeys(ns, ns2) && s < |ns|
    requires |ns| < |ns2| && ns2[|ns|].key == k && Sorted(ns2, new_)
    requires Leaves(new_) == Leaves(Sub(ns, t, k, d)) + {|ns|}
    requires Agree(k, ns[s].key, c) && OnWay(ns, t, k, d, s, c)
    ensures Sorted(ns2, Graft(ns, t, k, d, new_)) && Leaves(Graft(ns, t, k, d, new_)) == Leaves(t) + {|ns|}
    decreases d
  {
    hide Agree, Bit;
    if d > 0 {
      var u := Child(ns, t, k);
      var other := if Bit(k, ns[t.id].check) then t.left else t.right;
      GraftSorted(ns, ns2, u, k, d - 1, new_, s, c);
      AgreeVia(ns, t.id, s, k, c);
      OnSideMore(ns, ns2, u, Graft(ns, u, k, d - 1, new_), t.id, Bit(k, ns[t.id].check));
      HeldOld(ns, other, t.id, !Bit(k, ns[t.id].check));
      OnSideMore(ns, ns2, other, other, t.id, !Bit(k, ns[t.id].check));
      SortedFrame(ns, ns2, other);
    }
  }

  lemma HeldOld(ns: Nodes, t: Tree, id: nat, side: bool)
    requires OnSide(ns, t, id, side)
    ensures |ns| !in Leaves(t)
  {}

  lemma {:induction false} GraftInners(ns: Nodes, t: Tree, k: Key, d: nat, new_: Tree, more: set<nat>)
    requires Leads(ns, t, k, d) && Inners(new_) == Inners(Sub(ns, t, k, d)) + more
    ensures Inners(Graft(ns, t, k, d, new_)) == Inners(t) + more
    decreases d
  {
    if d > 0 {
      GraftInners(ns, Child(ns, t, k), k, d - 1, new_, more);
    }
  }

  /** A node that checks a bit behind `k` is below the way of `k` if its own key is. */
  lemma {:induction false} InnerBelow(ns: Nodes, t: Tree, k: Key, d: nat, i: nat)
    requires Leads(ns, t, k, d) && Sorted(ns, t) && i in Inners(t) && i < |ns| && ns[i].check >= Bits(k)
    requires i in Leaves(Sub(ns, t, k, d))
    ensures i in Inners(Sub(ns, t, k, d))
    decreases d
  {
    if d > 0 {
      InnersHeld(ns, t.left);
      InnersHeld(ns, t.right);
      SubPrefix(ns, t, k, d, 1);
      assert Sub(ns, t, k, 1) == Child(ns, t, k);
      InnerBelow(ns, Child(ns, t, k), k, d - 1, i);
    }
  }

  lemma {:induction false} InnersOfSub(ns: Nodes, t: Tree, k: Key, d: nat)
    requires Leads(ns, t, k, d)
    ensures Inners(Sub(ns, t, k, d)) <= Inners(t)
    decreases d
  {
    if d > 0 {
      InnersOfSub(ns, Child(ns, t, k), k, d - 1);
    }
  }
}
