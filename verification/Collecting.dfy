/**
 * The mark-and-sweep collector of the query language (`lib/scm.c`, sen_ctx_mgc).
 */
module Collecting {
  import opened Marking

  /** Reached from one of the roots. */
  ghost predicate Reached(g: Graph, roots: seq<Obj>, x: Obj) {
    exists i :: 0 <= i < |roots| && Reaches(g, roots[i], x)
  }

  lemma SevenRoots(g: Graph, roots: seq<Obj>, x: Obj)
    requires |roots| == 7
    ensures
      Reached(g, roots, x) <==>
        || Reaches(g, roots[0], x) || Reaches(g, roots[1], x) || Reaches(g, roots[2], x) || Reaches(g, roots[3], x)
        || Reaches(g, roots[4], x) || Reaches(g, roots[5], x) || Reaches(g, roots[6], x)
  {}

  lemma ReachedSnoc(g: Graph, roots: seq<Obj>, n: nat, x: Obj)
    requires n < |roots|
    ensures Reached(g, roots[..n + 1], x) <==> Reached(g, roots[..n], x) || Reaches(g, roots[n], x)
  {}

  /** sen_ctx: the registers and the objects that were allocated. */
  class Ctx {
    var globalEnv: Obj
    var args: Obj
    var envir: Obj
    var code: Obj
    var dump: Obj
    var value: Obj
    var phs: Obj
    var objects: set<Obj>

    constructor (nil: Obj)
      ensures objects == {} && Roots() == seq(7, i => nil)
    {
      globalEnv, args, envir, code, dump, value, phs := nil, nil, nil, nil, nil, nil, nil;
      objects := {};
    }

    ghost function Roots(): (r: seq<Obj>)
      reads this
      ensures |r| == 7
    {
      [globalEnv, args, envir, code, dump, value, phs]
    }

    /**
     * Between two collections: `cells` are all cells there are (the constants and symbols are not
     * among the objects); every cell that refers to others is an object, and no object is marked.
     */
    ghost predicate Valid(cells: set<Obj>)
      reads this, cells
    {
      && objects <= cells
      && (forall x :: x in cells && x.referer ==>
            (x.car == null || x.car in cells) && (x.cdr == null || x.cdr in cells))
      && globalEnv in cells && args in cells && envir in cells && code in cells && dump in cells
      && value in cells && phs in cells
      && (forall x :: x in objects ==> !x.marked)
      && (forall x :: x in cells && x !in objects ==> !x.referer)
    }

    /** Marks what any root reaches. */
    method MarkRoots(ghost cells: set<Obj>)
      requires Valid(cells)
      modifies cells`marked, cells`referer, cells`car, cells`cdr, cells`owned
      ensures forall x :: x in cells ==> x.referer == old(x.referer) && x.car == old(x.car) && x.cdr == old(x.cdr)
      ensures forall x :: x in cells && x.referer && x.marked ==>
          (x.car == null || (x.car as Obj).marked) && (x.cdr == null || (x.cdr as Obj).marked)
      ensures forall x :: x in objects ==> (x.marked <==> Reached(old(GraphOf(cells)), Roots(), x))
    {
      hide Reaches, Reached, GraphOf, MarkedFrom, Closed;
      ghost var g, roots := GraphOf(cells), Roots();
      SameFields(cells, g);
      StartClosed(cells);
      NoneMarked(cells, objects, g, roots);
      MarkRoot(globalEnv, cells, objects, g, roots, 0);
      MarkRoot(args, cells, objects, g, roots, 1);
      MarkRoot(envir, cells, objects, g, roots, 2);
      MarkRoot(code, cells, objects, g, roots, 3);
      MarkRoot(dump, cells, objects, g, roots, 4);
      MarkRoot(value, cells, objects, g, roots, 5);
      MarkRoot(phs, cells, objects, g, roots, 6);
      AllMarkedFrom(cells, objects, g, roots);
      SameFields(cells, g);
      ClosedFields(cells);
    }

    /** Before a collection, marked cells refer to nothing. */
    lemma StartClosed(cells: set<Obj>)
      requires Valid(cells)
      ensures Closed(GraphOf(cells), MarkedIn(cells)) && Closed(GraphOf(cells), cells)
    {
      ClosedFields(cells);
    }

    /** The unmarked objects are cleared and forgotten; the marks of the others are taken away. */
    method Sweep(ghost cells: set<Obj>)
      requires objects <= cells
      modifies this`objects, cells`marked, cells`referer, cells`bulk, cells`owned
      ensures objects == old(set x | x in objects && x.marked)
      ensures forall x :: x in objects ==> !x.marked
      ensures forall x :: x in cells && x !in old(objects) ==> x.marked == old(x.marked)
      ensures forall x :: x in cells && (x in objects || x !in old(objects)) ==>
          x.referer == old(x.referer) && x.car == old(x.car) && x.cdr == old(x.cdr)
      ensures forall x :: x in old(objects) && x !in objects ==> !x.referer
    {
      var todo := objects;
      while todo != {}
        invariant todo <= objects <= old(objects)
        invariant forall x :: x in old(objects) && x !in todo ==> (x in objects <==> old(x.marked))
        invariant forall x :: x in todo ==> x.marked == old(x.marked) && NodeOf(x) == old(NodeOf(x))
        invariant forall x :: x in objects && x !in todo ==> !x.marked && NodeOf(x) == old(NodeOf(x))
        invariant forall x :: x in old(objects) && x !in objects ==> !x.referer
        invariant forall x :: x in cells && x !in old(objects) ==>
            x.marked == old(x.marked) && NodeOf(x) == old(NodeOf(x))
        decreases |todo|
      {
        var o :| o in todo;
        if o.marked {
          o.marked := false;
        } else {
          o.owned, o.referer, o.bulk := false, false, false;  // sen_obj_clear
          objects := objects - {o};
        }
        todo := todo - {o};
      }
    }

    /**
     * sen_ctx_mgc: an object stays exactly if a register or the global environment reaches it. What
     * stays is as it was and refers to no freed one, and everything is ready for the next collection.
     */
    method Mgc(ghost cells: set<Obj>)
      requires Valid(cells)
      modifies this`objects, cells
      ensures forall x :: x in objects <==>
          x in old(objects) &&
          var g := old(GraphOf(cells));
          || Reaches(g, globalEnv, x) || Reaches(g, args, x) || Reaches(g, envir, x) || Reaches(g, code, x)
          || Reaches(g, dump, x) || Reaches(g, value, x) || Reaches(g, phs, x)
      ensures Valid(cells)
      ensures forall x :: x in objects ==> x.referer == old(x.referer) && x.car == old(x.car) && x.cdr == old(x.cdr)
      ensures forall x :: x in objects && x.referer ==>
          (x.car == null || x.car in objects + (cells - old(objects)))
          && (x.cdr == null || x.cdr in objects + (cells - old(objects)))
    {
      hide Reached, Reaches, GraphOf;
      ghost var g, roots := GraphOf(cells), Roots();
      MarkRoots(cells);
      Sweep(cells);
      assert Roots() == roots;
      forall x | x in old(objects) ensures x in objects <==> Reached(g, roots, x) {}
      forall x ensures Reached(g, roots, x) <==>
          || Reaches(g, globalEnv, x) || Reaches(g, args, x) || Reaches(g, envir, x) || Reaches(g, code, x)
          || Reaches(g, dump, x) || Reaches(g, value, x) || Reaches(g, phs, x)
      {
        SevenRoots(g, roots, x);
      }
    }
  }

  /** The marks of `objs` are those of what the first `n` roots reach. */
  ghost predicate MarkedFrom(cells: set<Obj>, objs: set<Obj>, g: Graph, roots: seq<Obj>, n: nat)
    requires n <= |roots|
    reads cells
  {
    && GraphOf(cells) == g && Closed(g, MarkedIn(cells))
    && forall x :: x in objs && x in cells ==> (x.marked <==> Reached(g, roots[..n], x))
  }

  lemma NoneMarked(cells: set<Obj>, objs: set<Obj>, g: Graph, roots: seq<Obj>)
    requires GraphOf(cells) == g && Closed(g, MarkedIn(cells))
    requires forall x :: x in objs && x in cells ==> !x.marked
    ensures MarkedFrom(cells, objs, g, roots, 0)
  {}

  lemma AllMarkedFrom(cells: set<Obj>, objs: set<Obj>, g: Graph, roots: seq<Obj>)
    requires |roots| == 7 && MarkedFrom(cells, objs, g, roots, 7)
    ensures GraphOf(cells) == g && Closed(g, MarkedIn(cells))
    ensures forall x :: x in objs && x in cells ==> (x.marked <==> Reached(g, roots, x))
  {}

  method MarkRoot(o: Obj, ghost cells: set<Obj>, ghost objs: set<Obj>, ghost g: Graph, ghost roots: seq<Obj>,
                  ghost n: nat)
    requires n < |roots| && roots[n] == o && o in cells && Closed(g, cells) && MarkedFrom(cells, objs, g, roots, n)
    modifies cells`marked, cells`referer, cells`car, cells`cdr, cells`owned
    ensures MarkedFrom(cells, objs, g, roots, n + 1)
  {
    hide Reaches, Reached, GraphOf, Closed;
    ClosedFields(cells);
    SameFields(cells, g);
    ObjMark(o, cells);
    ClosedFields(cells);
    forall x | x in objs && x in cells ensures x.marked <==> Reached(g, roots[..n + 1], x) {
      ReachedSnoc(g, roots, n, x);
    }
  }
}
