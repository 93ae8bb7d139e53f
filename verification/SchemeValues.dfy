/**
 * What the query language works on (`lib/scm.c`, `lib/ql.h`): values, of which code is made too,
 * and environments. An environment is a list of frames, and a frame is a place that can be added
 * to and assigned, so frames are kept in a store, in the order in which they were made.
 */
module SchemeValues {
  import opened Options

  datatype Connective = And | Or

  /** The special forms, by the operation that begins each. */
  datatype Form = Lambda | Quote | Define | Begin | If | Set | Let | LetStar | LetRec | Cond | Delay
                | Connect(c: Connective) | Stream

  datatype Builtin = PEval | PApply | Force

  /** What a symbol stands for when no variable has its name. */
  datatype Role = Plain | Syntax(form: Form) | Proc(b: Builtin) | Native

  datatype Val =
    | Nil
    | Bool(b: bool)
    | Number(n: int)
    | Sym(name: string, role: Role)
    | Pair(car: Val, cdr: Val)
    | Closure(code: Val, env: Env, promise: bool)

  datatype Env = Global(frame: nat) | Inner(frame: nat, outer: Env)

  datatype Binding = Binding(name: Val, val: Val)

  type Frame = seq<Binding>   // newest first
  type Store = seq<Frame>

  /** What a native function does with its arguments: it gives a value, or fails. */
  type Natives = (string, Val) -> Option<Val>

  const LAMBDA := Sym("lambda", Syntax(Lambda))

  /** Has `v` a car and a cdr? The empty list has, and so have #t and #f: they are their own. */
  predicate HasParts(v: Val) {
    v.Pair? || v.Nil? || v.Bool?
  }

  predicate IsList(v: Val) {
    v.Pair? || v.Nil?
  }

  function Car(v: Val): Val {
    if v.Pair? then v.car else if v.Bool? then v else Nil
  }

  function Cdr(v: Val): Val {
    if v.Pair? then v.cdr else if v.Bool? then v else Nil
  }

  /** istrue: neither #f nor the empty list. */
  predicate IsTrue(v: Val) {
    v != Nil && v != Bool(false)
  }

  predicate IsKeyword(name: string) {
    |name| > 0 && name[0] == ':'
  }

  predicate IsSyntax(v: Val) {
    v.Sym? && v.role.Syntax?
  }

  // ---------------------------------------------------------------- lists

  function ListOf(vs: seq<Val>): (list: Val)
    ensures IsList(list)
  {
    if |vs| == 0 then Nil else Pair(vs[0], ListOf(vs[1..]))
  }

  /** non_alloc_rev: the list backwards, and then `term`. */
  function RevOnto(term: Val, list: Val): Val
    decreases list
  {
    if list.Pair? then RevOnto(Pair(list.car, term), list.cdr) else term
  }

  // ---------------------------------------------------------------- frames

  function FrameAt(st: Store, k: nat): Frame {
    if k < |st| then st[k] else []
  }

  function SetFrame(st: Store, k: nat, fr: Frame): Store {
    if k < |st| then st[k := fr] else st
  }

  /** The first binding of a name in a frame, or the length of the frame. */
  function IndexIn(fr: Frame, name: Val): (i: nat)
    ensures i <= |fr| && (i < |fr| ==> fr[i].name == name)
    ensures forall j :: 0 <= j < i ==> fr[j].name != name
  {
    if |fr| == 0 || fr[0].name == name then 0 else IndexIn(fr[1..], name) + 1
  }

  lemma FirstIndex(fr: Frame, name: Val, i: nat)
    requires i <= |fr| && (i < |fr| ==> fr[i].name == name) && forall j :: 0 <= j < i ==> fr[j].name != name
    ensures IndexIn(fr, name) == i
  {}

  datatype Place = Place(frame: nat, index: nat)

  /** The innermost binding of a name. */
  function Find(name: Val, env: Env, st: Store): (r: Option<Place>)
    ensures r.Some? ==> r.value.frame < |st| && r.value.index < |st[r.value.frame]|
    decreases env
  {
    var i := IndexIn(FrameAt(st, env.frame), name);
    if i < |FrameAt(st, env.frame)| then Some(Place(env.frame, i))
    else if env.Inner? then Find(name, env.outer, st)
    else None
  }

  /** The frames of an environment, from the innermost one outwards. */
  function Chain(env: Env): (c: seq<nat>)
    ensures |c| > 0 && c[0] == env.frame
  {
    if env.Inner? then [env.frame] + Chain(env.outer) else [env.frame]
  }

  predicate Binds(st: Store, f: nat, name: Val) {
    f < |st| && exists i :: 0 <= i < |st[f]| && st[f][i].name == name
  }

  /** Frame `k` on the way out is the first one that binds the name, and `p` is the first binding there. */
  ghost predicate BoundAt(name: Val, env: Env, st: Store, p: Place, k: nat) {
    && k < |Chain(env)| && Chain(env)[k] == p.frame < |st| && p.index < |st[p.frame]|
    && st[p.frame][p.index].name == name && (forall j :: 0 <= j < p.index ==> st[p.frame][j].name != name)
    && forall m :: 0 <= m < k ==> !Binds(st, Chain(env)[m], name)
  }

  lemma {:induction false} FindIs(name: Val, env: Env, st: Store, p: Place)
    ensures Find(name, env, st) == Some(p) <==> exists k: nat :: BoundAt(name, env, st, p, k)
    ensures Find(name, env, st) == None <==> forall k :: 0 <= k < |Chain(env)| ==> !Binds(st, Chain(env)[k], name)
    decreases env
  {
    hide BoundAt, Binds;
    IndexIs(st, env.frame, name);
    if Binds(st, env.frame, name) {
      BoundFirst(name, env, st, p);
      assert Chain(env)[0] == env.frame;
    } else if env.Inner? {
      FindIs(name, env.outer, st, p);
      BoundOuter(name, env, st, p);
      assert Chain(env) == [env.frame] + Chain(env.outer);
      assert forall k :: 0 <= k < |Chain(env.outer)| ==> Chain(env.outer)[k] == Chain(env)[k + 1];
    } else {
      BoundGlobal(name, env, st, p);
    }
  }

  lemma IndexIs(st: Store, f: nat, name: Val)
    ensures Binds(st, f, name) <==> IndexIn(FrameAt(st, f), name) < |FrameAt(st, f)|
  {}

  lemma BoundFirst(name: Val, env: Env, st: Store, p: Place)
    requires Binds(st, env.frame, name)
    ensures
      (exists k: nat :: BoundAt(name, env, st, p, k)) <==> p == Place(env.frame, IndexIn(FrameAt(st, env.frame), name))
  {
    var here := Place(env.frame, IndexIn(FrameAt(st, env.frame), name));
    assert BoundAt(name, env, st, here, 0);
    if k: nat :| BoundAt(name, env, st, p, k) {
      assert Binds(st, Chain(env)[0], name);
      assert k == 0;
    }
  }

  lemma BoundOuter(name: Val, env: Env, st: Store, p: Place)
    requires env.Inner? && !Binds(st, env.frame, name)
    ensures (exists k: nat :: BoundAt(name, env, st, p, k)) <==> exists k: nat :: BoundAt(name, env.outer, st, p, k)
  {
    assert Chain(env) == [env.frame] + Chain(env.outer);
    if k: nat :| BoundAt(name, env, st, p, k) {
      assert k > 0;
      assert forall m :: 0 <= m < k - 1 ==> Chain(env.outer)[m] == Chain(env)[m + 1];
      assert BoundAt(name, env.outer, st, p, k - 1);
    }
    if k: nat :| BoundAt(name, env.outer, st, p, k) {
      assert forall m :: 0 < m < k + 1 ==> Chain(env)[m] == Chain(env.outer)[m - 1];
      assert BoundAt(name, env, st, p, k + 1);
    }
  }

  lemma BoundGlobal(name: Val, env: Env, st: Store, p: Place)
    requires env.Global? && !Binds(st, env.frame, name)
    ensures !exists k: nat :: BoundAt(name, env, st, p, k)
  {}

  function ValueAt(st: Store, p: Place): Val
    requires p.frame < |st| && p.index < |st[p.frame]|
  {
    st[p.frame][p.index].val
  }

  function Assign(st: Store, p: Place, v: Val): Store
    requires p.frame < |st| && p.index < |st[p.frame]|
  {
    st[p.frame := st[p.frame][p.index := Binding(st[p.frame][p.index].name, v)]]
  }

  /** A new binding in frame `k`, in front of the others. */
  function AddTo(st: Store, k: nat, name: Val, v: Val): Store {
    SetFrame(st, k, [Binding(name, v)] + FrameAt(st, k))
  }

  /** define: the binding that is there is changed; without one there is a new one. */
  function DefineIn(st: Store, k: nat, name: Val, v: Val): Store {
    var i := IndexIn(FrameAt(st, k), name);
    if k < |st| && i < |st[k]| then Assign(st, Place(k, i), v) else AddTo(st, k, name, v)
  }

  datatype Bound = Bound(frame: Frame) | Few | BadParams | BadArgs

  /** The parameters of a closure with the arguments it is given. */
  function BindArgs(params: Val, args: Val, fr: Frame): Bound
    decreases params
  {
    if params.Pair? then
      if args == Nil then Few
      else if !HasParts(args) then BadArgs
      else BindArgs(params.cdr, Cdr(args), [Binding(params.car, Car(args))] + fr)
    else if params == Nil then Bound(fr)
    else if params.Sym? then Bound([Binding(params, args)] + fr)
    else BadParams
  }

  /** The names of a let with their values. */
  function LetFrame(bindings: Val, vals: Val, fr: Frame): Frame
    decreases vals
  {
    if vals.Pair? then LetFrame(Cdr(bindings), vals.cdr, [Binding(Car(Car(bindings)), vals.car)] + fr) else fr
  }

  function Names(bindings: Val): Val {
    if bindings.Pair? then Pair(Car(bindings.car), Names(bindings.cdr)) else Nil
  }

  function NamesOnto(bindings: Val, acc: Val): Val
    decreases bindings
  {
    if bindings.Pair? then NamesOnto(bindings.cdr, Pair(Car(bindings.car), acc)) else acc
  }

  function Append(a: Val, b: Val): Val {
    if a.Pair? then Pair(a.car, Append(a.cdr, b)) else b
  }

  /** Collected backwards and put in order again. */
  lemma {:induction false} NamesBack(bindings: Val, acc: Val)
    ensures RevOnto(Nil, NamesOnto(bindings, acc)) == RevOnto(Names(bindings), acc)
    decreases bindings
  {
    if bindings.Pair? {
      NamesBack(bindings.cdr, Pair(Car(bindings.car), acc));
    }
  }

  /** A variable of a closure has the value of the last parameter of its name. */
  function ArgOf(params: Val, args: Val, name: Val): Option<Val>
    decreases params
  {
    if params.Pair? then
      var later := ArgOf(params.cdr, Cdr(args), name);
      if later.Some? then later else if params.car == name then Some(Car(args)) else None
    else if params.Sym? && params == name then Some(args) else None
  }

  function ValueIn(fr: Frame, name: Val): Option<Val> {
    var i := IndexIn(fr, name);
    if i < |fr| then Some(fr[i].val) else None
  }

  lemma InFront(b: Binding, fr: Frame, name: Val)
    ensures ValueIn([b] + fr, name) == if b.name == name then Some(b.val) else ValueIn(fr, name)
  {
    assert ([b] + fr)[1..] == fr;
  }

  lemma {:induction false} BindsArgs(params: Val, args: Val, fr: Frame, name: Val)
    requires BindArgs(params, args, fr).Bound?
    ensures
      var v := ArgOf(params, args, name);
      ValueIn(BindArgs(params, args, fr).frame, name) == if v.Some? then v else ValueIn(fr, name)
    decreases params
  {
    hide ValueIn;
    if params.Pair? {
      InFront(Binding(params.car, Car(args)), fr, name);
      BindsArgs(params.cdr, Cdr(args), [Binding(params.car, Car(args))] + fr, name);
    } else if params.Sym? {
      InFront(Binding(params, args), fr, name);
    }
  }

  // ---------------------------------------------------------------- assignment and definition

  /** set!: the place has the value, every other place has what it had, and names are where they were. */
  lemma AssignsOne(st: Store, p: Place, v: Val, q: Place, name: Val, env: Env)
    requires p.frame < |st| && p.index < |st[p.frame]|
    ensures
      var st2 := Assign(st, p, v);
      && |st2| == |st| && (forall f :: 0 <= f < |st| ==> |st2[f]| == |st[f]|)
      && Find(name, env, st2) == Find(name, env, st)
      && (q.frame < |st| && q.index < |st[q.frame]| ==>
            ValueAt(st2, q) == if q == p then v else ValueAt(st, q))
  {
    SameNames(name, env, st, Assign(st, p, v));
  }

  lemma {:induction false} SameNames(name: Val, env: Env, st: Store, st2: Store)
    requires |st2| == |st| && forall f :: 0 <= f < |st| ==> |st2[f]| == |st[f]|
    requires forall f, i :: 0 <= f < |st| && 0 <= i < |st[f]| ==> st2[f][i].name == st[f][i].name
    ensures Find(name, env, st2) == Find(name, env, st)
    decreases env
  {
    hide IndexIn;
    FirstIndex(FrameAt(st2, env.frame), name, IndexIn(FrameAt(st, env.frame), name));
    if env.Inner? {
      SameNames(name, env.outer, st, st2);
    }
  }

  /** define: the name has the value in its frame; other names there, and other frames, are as they were. */
  lemma DefinesOne(st: Store, k: nat, name: Val, v: Val, other: Val)
    requires k < |st|
    ensures
      var st2 := DefineIn(st, k, name, v);
      && |st2| == |st| && (forall f :: 0 <= f < |st| && f != k ==> st2[f] == st[f])
      && ValueIn(st2[k], other) == (if other == name then Some(v) else ValueIn(st[k], other))
      && |st2[k]| == |st[k]| + if Binds(st, k, name) then 0 else 1
  {
    if Binds(st, k, name) {
      SetsOne(st[k], IndexIn(st[k], name), v, other);
    } else {
      InFront(Binding(name, v), st[k], other);
    }
  }

  lemma SetsOne(fr: Frame, i: nat, v: Val, other: Val)
    requires i < |fr| && i == IndexIn(fr, fr[i].name)
    ensures
      ValueIn(fr[i := Binding(fr[i].name, v)], other) == if other == fr[i].name then Some(v) else ValueIn(fr, other)
  {
    hide IndexIn;
    FirstIndex(fr[i := Binding(fr[i].name, v)], other, IndexIn(fr, other));
  }
}
