/**
 * Marking by pointer reversal, and the collector of the query language (`lib/scm.c`, obj_mark and
 * sen_ctx_mgc).
 */
module Marking {
  /** sen_obj, as far as the collector looks at it. */
  class Obj {
    var marked: bool
    var referer: bool       // car and cdr are in use
    var bulk: bool
    var owned: bool     // the object owns its bulk value
    var car: Obj?
    var cdr: Obj?

    constructor ()
      ensures !marked && !referer && !bulk && !owned && car == null && cdr == null
    {
      marked, referer, bulk, owned, car, cdr := false, false, false, false, null, null;
    }
  }

  // ---------------------------------------------------------------- the graph

  datatype Node = Node(referer: bool, car: Obj?, cdr: Obj?)

  type Graph = map<Obj, Node>

  ghost function NodeOf(x: Obj): Node
    reads x`referer, x`car, x`cdr
  {
    Node(x.referer, x.car, x.cdr)
  }

  ghost function GraphOf(cells: set<Obj>): Graph
    reads cells`referer, cells`car, cells`cdr
  {
    map x | x in cells :: NodeOf(x)
  }

  ghost function MarkedIn(cells: set<Obj>): set<Obj>
    reads cells`marked
  {
    set x | x in cells && x.marked
  }

  predicate In(q: Obj?, m: set<Obj>) {
    q == null || q in m
  }

  ghost predicate KidsIn(n: Node, m: set<Obj>) {
    n.referer ==> In(n.car, m) && In(n.cdr, m)
  }

  /** No cell of `m` refers to one outside. */
  ghost predicate Closed(g: Graph, m: set<Obj>) {
    forall x :: x in m && x in g ==> KidsIn(g[x], m)
  }

  predicate IsKid(n: Node, y: Obj) {
    n.referer && (n.car == y || n.cdr == y)
  }

  /** The cells at most `k` references away from `r`. */
  ghost function Near(g: Graph, r: Obj, k: nat): set<Obj> {
    if k == 0 then {r}
    else
      var m := Near(g, r, k - 1);
      m + set y | y in g && exists x :: x in m && x in g && IsKid(g[x], y)
  }

  ghost predicate Reaches(g: Graph, r: Obj, x: Obj) {
    exists k: nat :: x in Near(g, r, k)
  }

  lemma {:induction false} ClosedNear(g: Graph, m: set<Obj>, r: Obj, k: nat)
    requires Closed(g, m) && r in m
    ensures Near(g, r, k) <= m
  {
    if k > 0 {
      ClosedNear(g, m, r, k - 1);
    }
  }

  /** What is reached is in every set with the root in it that no referring cell leads out of, and only that is. */
  lemma ReachesLeast(g: Graph, r: Obj, x: Obj)
    requires r in g && x in g
    requires forall y :: y in g && g[y].referer ==>
        (g[y].car == null || g[y].car in g) && (g[y].cdr == null || g[y].cdr in g)
    ensures Reaches(g, r, x) ==>
        forall m: set<Obj> ::
          m <= g.Keys && r in m && (forall y :: y in m && g[y].referer ==>
            (g[y].car == null || g[y].car in m) && (g[y].cdr == null || g[y].cdr in m)) ==>
          x in m
    ensures !Reaches(g, r, x) ==>
        exists m: set<Obj> ::
          m <= g.Keys && r in m && x !in m && forall y :: y in m && g[y].referer ==>
            (g[y].car == null || g[y].car in m) && (g[y].cdr == null || g[y].cdr in m)
  {
    hide Near;
    if Reaches(g, r, x) {
      var k: nat :| x in Near(g, r, k);
      forall m: set<Obj> | m <= g.Keys && r in m && Closed(g, m) ensures x in m {
        ClosedNear(g, m, r, k);
      }
    } else {
      var all := set y | y in g && Reaches(g, r, y);
      RootReached(g, r);
      forall y | y in all && g[y].referer ensures KidsIn(g[y], all) {
        KidsReached(g, r, y);
      }
      assert all <= g.Keys && r in all && x !in all;
    }
  }

  lemma RootReached(g: Graph, r: Obj)
    ensures Reaches(g, r, r)
  {
    assert r in Near(g, r, 0);
  }

  lemma KidsReached(g: Graph, r: Obj, y: Obj)
    requires y in g && Reaches(g, r, y) && KidsIn(g[y], g.Keys) && g[y].referer
    ensures g[y].car == null || Reaches(g, r, g[y].car)
    ensures g[y].cdr == null || Reaches(g, r, g[y].cdr)
  {
    var k: nat :| y in Near(g, r, k);
    assert g[y].car != null ==> g[y].car in Near(g, r, k + 1);
    assert g[y].cdr != null ==> g[y].cdr in Near(g, r, k + 1);
  }

  // ---------------------------------------------------------------- reversed pointers

  /** The cells on the way from the current one back to the root; their pointers are reversed. */
  datatype Trail = Root | Step(cell: Obj, rest: Trail)

  function Top(trail: Trail): Obj? {
    if trail.Root? then null else trail.cell
  }

  ghost function Cells(trail: Trail): set<Obj> {
    if trail.Root? then {} else Cells(trail.rest) + {trail.cell}
  }

  function Length(trail: Trail): nat {
    if trail.Root? then 0 else Length(trail.rest) + 1
  }

  /** A cell of the trail: its car (or, with the flag still set, its cdr) points back instead of on. */
  ghost predicate Reversed(now: Node, was: Node, back: Obj?, on: Obj) {
    && was.referer
    && if now.referer then now.car == was.car && now.cdr == back && was.cdr == on
       else now.car == back && now.cdr == was.cdr && was.car == on
  }

  /** Back from `p` along the trail. */
  ghost predicate Linked(g: Graph, now: Graph, trail: Trail, p: Obj)
    requires now.Keys == g.Keys
  {
    match trail
    case Root => true
    case Step(x, rest) =>
      && x in g && x != p && x !in Cells(rest)
      && Reversed(now[x], g[x], Top(rest), p) && Linked(g, now, rest, x)
  }

  ghost predicate Threaded(g: Graph, now: Graph, trail: Trail, p: Obj) {
    && now.Keys == g.Keys && p in g && p !in Cells(trail) && Linked(g, now, trail, p)
    && (forall x :: x in g && x !in Cells(trail) ==> now[x] == g[x])
  }

  lemma {:induction false} LinkedFrame(g: Graph, now: Graph, now2: Graph, trail: Trail, p: Obj)
    requires now.Keys == g.Keys == now2.Keys && Linked(g, now, trail, p)
    requires forall x :: x in Cells(trail) && x in g ==> now2[x] == now[x]
    ensures Linked(g, now2, trail, p)
  {
    if trail.Step? {
      LinkedFrame(g, now, now2, trail.rest, trail.cell);
    }
  }

  /** Descending from `p` into `q`. */
  lemma Descend(g: Graph, now: Graph, trail: Trail, p: Obj, q: Obj, n: Node)
    requires Threaded(g, now, trail, p) && q in g && q != p && q !in Cells(trail)
    requires Reversed(n, g[p], Top(trail), q)
    ensures Threaded(g, now[p := n], Step(p, trail), q)
  {
    LinkedFrame(g, now, now[p := n], trail, p);
  }

  /** Going back from `p` to the top of the trail. */
  lemma Ascend(g: Graph, now: Graph, trail: Trail, p: Obj)
    requires Threaded(g, now, trail, p) && trail.Step?
    ensures
      var q := trail.cell;
      && q in g && g[q].referer && q != p
      && (if now[q].referer then now[q].cdr == Top(trail.rest) && g[q] == now[q].(cdr := p)
          else now[q].car == Top(trail.rest) && g[q] == now[q].(referer := true, car := p))
      && Threaded(g, now[q := g[q]], trail.rest, q)
  {
    LinkedFrame(g, now, now[trail.cell := g[trail.cell]], trail.rest, trail.cell);
  }

  // ---------------------------------------------------------------- marks

  /**
   * The cells of the trail are marked, with their car if it is
   * passed, and lie as far from the root as the trail is long.
   */
  ghost predicate Trailed(g: Graph, now: Graph, root: Obj, trail: Trail, m: set<Obj>) {
    match trail
    case Root => true
    case Step(x, rest) =>
      && x in g && x in now && x in m && x in Near(g, root, Length(rest))
      && (now[x].referer ==> In(g[x].car, m))
      && Trailed(g, now, root, rest, m)
  }

  lemma {:induction false} TrailedFrame(g: Graph, now: Graph, now2: Graph, root: Obj, trail: Trail, m: set<Obj>,
                                        m2: set<Obj>)
    requires Trailed(g, now, root, trail, m) && m <= m2
    requires forall x :: x in Cells(trail) && x in now ==> x in now2 && now2[x] == now[x]
    ensures Trailed(g, now2, root, trail, m2)
  {
    if trail.Step? {
      TrailedFrame(g, now, now2, root, trail.rest, m, m2);
    }
  }

  /** Every marked cell but those at work has its kids marked. */
  ghost predicate Settled(g: Graph, trail: Trail, p: Obj, m: set<Obj>) {
    forall x :: x in m && x in g && x !in Cells(trail) && x != p ==> KidsIn(g[x], m)
  }

  /** Every mark is an old one, or on a cell that can be reached. */
  ghost predicate Earned(g: Graph, root: Obj, m0: set<Obj>, m: set<Obj>) {
    && m0 <= m
    && forall x :: x in m && x !in m0 ==> Reaches(g, root, x)
  }

  datatype Label = E2 | E5 | E6

  /** Between the steps of obj_mark. */
  ghost predicate Busy(g: Graph, now: Graph, root: Obj, trail: Trail, p: Obj, m0: set<Obj>, m: set<Obj>) {
    && Threaded(g, now, trail, p) && Closed(g, g.Keys)
    && Trailed(g, now, root, trail, m) && Settled(g, trail, p, m) && Earned(g, root, m0, m)
    && p in Near(g, root, Length(trail))
  }

  /** At the labels of obj_mark. */
  ghost predicate Marks(g: Graph, now: Graph, root: Obj, trail: Trail, p: Obj, m0: set<Obj>, m: set<Obj>, at: Label) {
    && Busy(g, now, root, trail, p, m0, m)
    && match at
       case E2 => p !in m || (trail == Root && p == root && KidsIn(g[p], m))
       case E5 => p in m && g[p].referer && In(g[p].car, m)
       case E6 => p in m && KidsIn(g[p], m)
  }

  /** E2: `p` gets its mark. */
  lemma MarkOne(g: Graph, now: Graph, root: Obj, trail: Trail, p: Obj, m0: set<Obj>, m: set<Obj>)
    requires Marks(g, now, root, trail, p, m0, m, E2)
    ensures Busy(g, now, root, trail, p, m0, m + {p})
  {
    TrailedFrame(g, now, now, root, trail, m, m + {p});
    assert Reaches(g, root, p);
  }

  /** E2 and E5: on to the kid `q`, by its car or its cdr. */
  lemma MarkDown(g: Graph, now: Graph, root: Obj, trail: Trail, p: Obj, m0: set<Obj>, m: set<Obj>, q: Obj, n: Node)
    requires Busy(g, now, root, trail, p, m0, m) && p in m && q !in m && IsKid(g[p], q)
    requires Reversed(n, g[p], Top(trail), q) && (n.referer ==> In(g[p].car, m))
    ensures Marks(g, now[p := n], root, Step(p, trail), q, m0, m, E2)
  {
    CellsMarked(g, now, root, trail, m);
    Descend(g, now, trail, p, q, n);
    TrailedFrame(g, now, now[p := n], root, trail, m, m);
    assert q in Near(g, root, Length(trail) + 1);
  }

  lemma {:induction false} CellsMarked(g: Graph, now: Graph, root: Obj, trail: Trail, m: set<Obj>)
    requires Trailed(g, now, root, trail, m)
    ensures Cells(trail) <= m
  {
    if trail.Step? {
      CellsMarked(g, now, root, trail.rest, m);
    }
  }

  /** E6: back to the top of the trail, for its cdr (E5) or further back (E6). */
  lemma MarkUp(g: Graph, now: Graph, root: Obj, trail: Trail, p: Obj, m0: set<Obj>, m: set<Obj>)
    requires Marks(g, now, root, trail, p, m0, m, E6) && trail.Step?
    ensures trail.cell in g && trail.cell in now
    ensures
      var q := trail.cell;
      Marks(g, now[q := g[q]], root, trail.rest, q, m0, m, if now[q].referer then E6 else E5)
  {
    var q := trail.cell;
    Ascend(g, now, trail, p);
    TrailedFrame(g, now, now[q := g[q]], root, trail.rest, m, m);
  }

  /** At the end, exactly the old marks and what can be reached from the root are marked. */
  lemma MarkedAll(g: Graph, now: Graph, root: Obj, p: Obj, m0: set<Obj>, m: set<Obj>)
    requires Marks(g, now, root, Root, p, m0, m, E6)
    ensures now == g && Closed(g, m)
    ensures forall x :: x in m <==> x in m0 || Reaches(g, root, x)
  {
    forall x ensures Reaches(g, root, x) ==> x in m {
      if Reaches(g, root, x) {
        var k: nat :| x in Near(g, root, k);
        assert root in m by {
          assert p in Near(g, root, 0);
        }
        ClosedNear(g, m, root, k);
      }
    }
  }

  lemma GraphKeys(cells: set<Obj>)
    ensures GraphOf(cells).Keys == cells
  {}

  lemma SameFields(cells: set<Obj>, g: Graph)
    requires GraphOf(cells) == g
    ensures forall x :: x in cells ==> x in g && g[x] == Node(x.referer, x.car, x.cdr)
  {}

  /** What it means for the fields that no cell, and no marked cell, refers to one outside. */
  lemma ClosedFields(cells: set<Obj>)
    ensures Closed(GraphOf(cells), cells) <==> forall x :: x in cells && x.referer ==>
        (x.car == null || x.car in cells) && (x.cdr == null || x.cdr in cells)
    ensures Closed(GraphOf(cells), cells) ==>
        (Closed(GraphOf(cells), MarkedIn(cells)) <==> forall x :: x in cells && x.referer && x.marked ==>
          (x.car == null || (x.car as Obj).marked) && (x.cdr == null || (x.cdr as Obj).marked))
  {
    var g, m := GraphOf(cells), MarkedIn(cells);
    assert forall x :: x in cells ==> g[x] == NodeOf(x);
    assert forall x :: x in cells ==> (x in m <==> x.marked);
  }

  lemma StartMarks(g: Graph, root: Obj, m0: set<Obj>)
    requires root in g && Closed(g, g.Keys) && Closed(g, m0)
    ensures Marks(g, g, root, Root, root, m0, m0, E2)
  {}

  /** The current cell is as it was; its kids are cells. */
  lemma Unreversed(g: Graph, now: Graph, root: Obj, trail: Trail, p: Obj, m0: set<Obj>, m: set<Obj>)
    requires Busy(g, now, root, trail, p, m0, m)
    ensures p in g && p in now && now[p] == g[p] && (g[p].referer ==> In(g[p].car, g.Keys) && In(g[p].cdr, g.Keys))
  {}

  /** What is known where `p` has been marked. */
  ghost predicate Marking(g: Graph, cells: set<Obj>, root: Obj, trail: Trail, p: Obj, m0: set<Obj>)
    reads cells
  {
    g.Keys == cells && p in cells && p.marked && Busy(g, GraphOf(cells), root, trail, p, m0, MarkedIn(cells))
  }

  /** E2: `p` is marked; a bulk value that the root only borrows is copied. */
  method Visit(p: Obj, o: Obj, ghost g: Graph, ghost cells: set<Obj>, ghost trail: Trail, ghost m0: set<Obj>)
    requires g.Keys == cells && p in cells && Marks(g, GraphOf(cells), o, trail, p, m0, MarkedIn(cells), E2)
    modifies p`marked, o`owned
    ensures Marking(g, cells, o, trail, p, m0) && MarkedIn(cells) == old(MarkedIn(cells)) + {p}
    ensures o.owned == old(o.owned || o.bulk)
    ensures !p.referer ==> KidsIn(g[p], MarkedIn(cells))
  {
    hide Busy, Marks;
    ghost var m := MarkedIn(cells);
    MarkOne(g, GraphOf(cells), o, trail, p, m0, m);
    Unreversed(g, GraphOf(cells), o, trail, p, m0, m + {p});
    p.marked := true;
    if o.bulk && !o.owned {
      o.owned := true;
    }
    assert MarkedIn(cells) == m + {p};
    assert GraphOf(cells) == old(GraphOf(cells));
  }

  method DownCar(p: Obj, t: Obj?, ghost g: Graph, ghost cells: set<Obj>, ghost root: Obj, ghost trail: Trail,
                 ghost m0: set<Obj>)
    requires Marking(g, cells, root, trail, p, m0) && t == Top(trail)
    requires p.referer && p.car != null && !(p.car as Obj).marked
    modifies p`referer, p`car
    ensures old(p.car) in cells && Marks(g, GraphOf(cells), root, Step(p, trail), old(p.car as Obj), m0,
        MarkedIn(cells), E2)
  {
    hide Busy, Marks, Closed, Reaches, Near;
    ghost var now := GraphOf(cells);
    Unreversed(g, now, root, trail, p, m0, MarkedIn(cells));
    var q := p.car;
    MarkDown(g, now, root, trail, p, m0, MarkedIn(cells), q, Node(false, t, p.cdr));
    p.referer := false;
    p.car := t;
    assert GraphOf(cells) == now[p := Node(false, t, p.cdr)];
  }

  method DownCdr(p: Obj, t: Obj?, ghost g: Graph, ghost cells: set<Obj>, ghost root: Obj, ghost trail: Trail,
                 ghost m0: set<Obj>)
    requires Marking(g, cells, root, trail, p, m0) && t == Top(trail)
    requires p.referer && In(p.car, MarkedIn(cells)) && p.cdr != null && !(p.cdr as Obj).marked
    modifies p`cdr
    ensures old(p.cdr) in cells && Marks(g, GraphOf(cells), root, Step(p, trail), old(p.cdr as Obj), m0,
        MarkedIn(cells), E2)
  {
    hide Busy, Marks, Closed, Reaches, Near;
    ghost var now := GraphOf(cells);
    Unreversed(g, now, root, trail, p, m0, MarkedIn(cells));
    var q := p.cdr;
    MarkDown(g, now, root, trail, p, m0, MarkedIn(cells), q, Node(true, p.car, t));
    p.cdr := t;
    assert GraphOf(cells) == now[p := Node(true, p.car, t)];
  }

  /** E6, when there is a way back. */
  method Up(q: Obj, p: Obj, ghost g: Graph, ghost cells: set<Obj>, ghost root: Obj, ghost trail: Trail,
            ghost m0: set<Obj>)
    returns (t: Obj?, at: Label)
    requires Marking(g, cells, root, trail, p, m0) && KidsIn(g[p], MarkedIn(cells)) && trail.Step? && q == trail.cell
    modifies q`referer, q`car, q`cdr
    ensures q in cells && Marks(g, GraphOf(cells), root, trail.rest, q, m0, MarkedIn(cells), at)
    ensures at != E2 && t == Top(trail.rest)
  {
    hide Busy, Closed, Reaches, Near;
    ghost var now := GraphOf(cells);
    TrailStep(g, now, root, trail, p, m0, MarkedIn(cells));
    MarkUp(g, now, root, trail, p, m0, MarkedIn(cells));
    if !q.referer {
      q.referer := true;
      t := q.car;
      q.car := p;
      at := E5;
    } else {
      t := q.cdr;
      q.cdr := p;
      at := E6;
    }
    assert GraphOf(cells) == now[q := g[q]];
  }

  lemma TrailStep(g: Graph, now: Graph, root: Obj, trail: Trail, p: Obj, m0: set<Obj>, m: set<Obj>)
    requires Busy(g, now, root, trail, p, m0, m) && trail.Step?
    ensures
      var q := trail.cell;
      && q in g && q in now && g[q].referer
      && (if now[q].referer then now[q].cdr == Top(trail.rest) && g[q] == now[q].(cdr := p)
          else now[q].car == Top(trail.rest) && g[q] == now[q].(referer := true, car := p))
  {}

  lemma AtE5(g: Graph, now: Graph, root: Obj, trail: Trail, p: Obj, m0: set<Obj>, m: set<Obj>)
    requires Marks(g, now, root, trail, p, m0, m, E5)
    ensures p in m && Busy(g, now, root, trail, p, m0, m) && g[p].referer && In(g[p].car, m)
  {}

  lemma AtE6(g: Graph, now: Graph, root: Obj, trail: Trail, p: Obj, m0: set<Obj>, m: set<Obj>)
    requires Marks(g, now, root, trail, p, m0, m, E6)
    ensures p in m && p in g && Busy(g, now, root, trail, p, m0, m) && KidsIn(g[p], m)
  {}

  lemma ToE5(g: Graph, now: Graph, root: Obj, trail: Trail, p: Obj, m0: set<Obj>, m: set<Obj>)
    requires Busy(g, now, root, trail, p, m0, m) && p in m && p in g && g[p].referer && In(g[p].car, m)
    ensures Marks(g, now, root, trail, p, m0, m, E5)
  {}

  lemma ToE6(g: Graph, now: Graph, root: Obj, trail: Trail, p: Obj, m0: set<Obj>, m: set<Obj>)
    requires Busy(g, now, root, trail, p, m0, m) && p in m && p in g && KidsIn(g[p], m)
    ensures Marks(g, now, root, trail, p, m0, m, E6)
  {}

  method StepE2(p: Obj, t: Obj?, o: Obj, ghost g: Graph, ghost cells: set<Obj>, ghost trail: Trail, ghost m0: set<Obj>)
    returns (p2: Obj, t2: Obj?, at: Label, ghost trail2: Trail)
    requires g.Keys == cells && o in cells && p in cells && t == Top(trail)
    requires Marks(g, GraphOf(cells), o, trail, p, m0, MarkedIn(cells), E2)
    modifies p`marked, p`referer, p`car, o`owned
    ensures p2 in cells && t2 == Top(trail2) && Marks(g, GraphOf(cells), o, trail2, p2, m0, MarkedIn(cells), at)
    ensures MarkedIn(cells) == old(MarkedIn(cells)) + {p} && (at == E2 ==> p2 !in MarkedIn(cells))
    ensures o.owned == old(o.owned || o.bulk)
  {
    hide Busy, Marks, Closed, Reaches, Near;
    Visit(p, o, g, cells, trail, m0);
    ghost var now, m := GraphOf(cells), MarkedIn(cells);
    Unreversed(g, now, o, trail, p, m0, m);
    p2, t2, trail2 := p, t, trail;
    if !p.referer {
      at := E6;
      ToE6(g, now, o, trail, p, m0, m);
    } else {
      var q := p.car;
      if q != null && !q.marked {
        DownCar(p, t, g, cells, o, trail, m0);
        p2, t2, trail2, at := q, p, Step(p, trail), E2;
      } else {
        at := E5;
        ToE5(g, now, o, trail, p, m0, m);
      }
    }
  }

  method StepE5(p: Obj, t: Obj?, ghost o: Obj, ghost g: Graph, ghost cells: set<Obj>, ghost trail: Trail,
                ghost m0: set<Obj>)
    returns (p2: Obj, t2: Obj?, at: Label, ghost trail2: Trail)
    requires g.Keys == cells && p in cells && t == Top(trail)
    requires Marks(g, GraphOf(cells), o, trail, p, m0, MarkedIn(cells), E5)
    modifies p`cdr
    ensures p2 in cells && t2 == Top(trail2) && Marks(g, GraphOf(cells), o, trail2, p2, m0, MarkedIn(cells), at)
    ensures if at == E2 then p2 !in MarkedIn(cells) else at == E6 && trail2 == trail
  {
    hide Busy, Marks, Closed, Reaches, Near;
    ghost var now, m := GraphOf(cells), MarkedIn(cells);
    AtE5(g, now, o, trail, p, m0, m);
    Unreversed(g, now, o, trail, p, m0, m);
    p2, t2, trail2 := p, t, trail;
    var q := p.cdr;
    if q != null && !q.marked {
      DownCdr(p, t, g, cells, o, trail, m0);
      p2, t2, trail2, at := q, p, Step(p, trail), E2;
    } else {
      at := E6;
      ToE6(g, now, o, trail, p, m0, m);
    }
  }

  method StepE6(p: Obj, q: Obj, ghost o: Obj, ghost g: Graph, ghost cells: set<Obj>, ghost trail: Trail,
                ghost m0: set<Obj>)
    returns (t2: Obj?, at: Label)
    requires g.Keys == cells && p in cells && q in cells && trail.Step? && q == trail.cell
    requires Marks(g, GraphOf(cells), o, trail, p, m0, MarkedIn(cells), E6)
    modifies q`referer, q`car, q`cdr
    ensures q in cells && t2 == Top(trail.rest) && Marks(g, GraphOf(cells), o, trail.rest, q, m0, MarkedIn(cells), at)
    ensures at != E2
  {
    hide Busy, Marks, Closed, Reaches, Near;
    AtE6(g, GraphOf(cells), o, trail, p, m0, MarkedIn(cells));
    t2, at := Up(q, p, g, cells, o, trail, m0);
  }

  lemma TopIsCell(g: Graph, now: Graph, root: Obj, trail: Trail, p: Obj, m0: set<Obj>, m: set<Obj>)
    requires Marks(g, now, root, trail, p, m0, m, E6)
    ensures if Top(trail) == null then trail == Root else trail.Step? && Top(trail) in g
  {}

  lemma AllMarked(g: Graph, cells: set<Obj>, root: Obj, p: Obj, m0: set<Obj>)
    requires Marks(g, GraphOf(cells), root, Root, p, m0, MarkedIn(cells), E6)
    ensures GraphOf(cells) == g && Closed(g, MarkedIn(cells))
    ensures forall x :: x in cells ==> (x.marked <==> x in m0 || Reaches(g, root, x))
  {
    hide Marks, Closed, Reaches;
    MarkedAll(g, GraphOf(cells), root, p, m0, MarkedIn(cells));
    assert forall x :: x in cells ==> (x in MarkedIn(cells) <==> x.marked);
  }

  lemma LessToMark(cells: set<Obj>, m: set<Obj>, p: Obj)
    requires p in cells
    ensures if p in m then cells - (m + {p}) == cells - m else |cells - (m + {p})| < |cells - m|
  {
    if p in m {
      assert m + {p} == m;
    } else {
      assert cells - m == (cells - (m + {p})) + {p};
    }
  }

  /** The loop of obj_mark, from label to label. */
  method Walk(o: Obj, ghost cells: set<Obj>)
    requires o in cells && Closed(GraphOf(cells), cells) && Closed(GraphOf(cells), MarkedIn(cells))
    modifies cells`marked, cells`referer, cells`car, cells`cdr, o`owned
    ensures GraphOf(cells) == old(GraphOf(cells)) && Closed(GraphOf(cells), MarkedIn(cells))
    ensures forall x :: x in cells ==> (x.marked <==> old(x.marked) || Reaches(old(GraphOf(cells)), o, x))
    ensures o.owned == old(o.owned || o.bulk)
  {
    hide Marks, Closed, Reaches, GraphOf;
    ghost var g, m0 := GraphOf(cells), MarkedIn(cells);
    var t: Obj?, p, at := null, o, E2;
    ghost var trail := Root;
    GraphKeys(cells);
    StartMarks(g, o, m0);
    while true
      invariant Marks(g, GraphOf(cells), o, trail, p, m0, MarkedIn(cells), at)
      invariant p in cells && t == Top(trail) && g.Keys == cells
      invariant o.owned == old(o.owned) || o.owned == old(o.owned || o.bulk)
      invariant at != E2 ==> o.owned == old(o.owned || o.bulk)
      decreases |cells - MarkedIn(cells)| + (if at == E2 && p in MarkedIn(cells) then 1 else 0),
                if at == E2 then 0 else 1, Length(trail), if at == E5 then 1 else 0
    {
      match at {
        case E2 =>
          LessToMark(cells, MarkedIn(cells), p);
          p, t, at, trail := StepE2(p, t, o, g, cells, trail, m0);
        case E5 =>
          p, t, at, trail := StepE5(p, t, o, g, cells, trail, m0);
        case E6 =>
          TopIsCell(g, GraphOf(cells), o, trail, p, m0, MarkedIn(cells));
          if t == null {
            AllMarked(g, cells, o, p, m0);
            return;
          }
          var q: Obj := t;
          t, at := StepE6(p, q, o, g, cells, trail, m0);
          p, trail := q, trail.rest;
      }
    }
  }

  /**
   * obj_mark: marks exactly what `o` reaches, and leaves every car, cdr and referer flag as it was.
   * The marks there are already must not lead to an unmarked cell.
   */
  method ObjMark(o: Obj, ghost cells: set<Obj>)
    requires o in cells
    requires forall x :: x in cells && x.referer ==>
        (x.car == null || x.car in cells) && (x.cdr == null || x.cdr in cells)
    requires forall x :: x in cells && x.referer && x.marked ==>
        (x.car == null || (x.car as Obj).marked) && (x.cdr == null || (x.cdr as Obj).marked)
    modifies cells`marked, cells`referer, cells`car, cells`cdr, o`owned
    ensures GraphOf(cells) == old(GraphOf(cells))
    ensures forall x :: x in cells ==> x.referer == old(x.referer) && x.car == old(x.car) && x.cdr == old(x.cdr)
    ensures forall x :: x in cells ==> (x.marked <==> old(x.marked) || Reaches(old(GraphOf(cells)), o, x))
    ensures forall x :: x in cells && x.referer && x.marked ==>
        (x.car == null || (x.car as Obj).marked) && (x.cdr == null || (x.cdr as Obj).marked)
    ensures o.owned == old(o.owned || o.bulk)
  {
    hide Closed, Reaches;
    ghost var g := GraphOf(cells);
    ClosedFields(cells);
    SameFields(cells, g);
    Walk(o, cells);
    SameFields(cells, g);
    ClosedFields(cells);
  }
}
